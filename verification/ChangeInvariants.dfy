/** What holds in every reachable state of the change protocol, over every run. */
module ChangeInvariants {
  import opened Wrappers
  import opened Json
  import opened Diff
  import opened ModePolicy
  import opened ChangeDispatch
  import opened ChangeModel

  // ---- The history of one change -----------------------------------------------------------------

  /** The device writes made for one change, in order. */
  ghost function EventsOf(log: seq<WriteEvent>, cid: string): seq<WriteEvent> {
    if log == [] then [] else
      var last := log[|log| - 1];
      EventsOf(log[..|log| - 1], cid) + (if last.changeId == cid then [last] else [])
  }

  /** The audit snapshots taken for one change, in order. */
  ghost function SnapshotsOf(snapshots: seq<Snapshot>, cid: string): seq<Snapshot> {
    if snapshots == [] then [] else
      var last := snapshots[|snapshots| - 1];
      SnapshotsOf(snapshots[..|snapshots| - 1], cid) + (if last.changeId == cid then [last] else [])
  }

  lemma EventsOfAppend(log: seq<WriteEvent>, e: WriteEvent, cid: string)
    ensures EventsOf(log + [e], cid) == EventsOf(log, cid) + (if e.changeId == cid then [e] else [])
  {
    assert (log + [e])[..|log|] == log;
  }

  lemma SnapshotsOfAppend(snapshots: seq<Snapshot>, x: Snapshot, cid: string)
    ensures SnapshotsOf(snapshots + [x], cid) == SnapshotsOf(snapshots, cid) + (if x.changeId == cid then [x] else [])
  {
    assert (snapshots + [x])[..|snapshots|] == snapshots;
  }

  lemma {:induction false} LoggedIsInEvents(log: seq<WriteEvent>, e: WriteEvent)
    requires e in log
    ensures e in EventsOf(log, e.changeId)
  {
    var last := log[|log| - 1];
    if e != last {
      assert log == log[..|log| - 1] + [last];
      LoggedIsInEvents(log[..|log| - 1], e);
    }
  }

  // ---- The invariant -----------------------------------------------------------------------------

  /** The device accepted the write that the event describes, and nothing else changed. */
  ghost predicate Effective(s: State, e: WriteEvent) {
    Write(e.pre, s.put, e.at, e.op, e.id, e.data, e.assignedId) == Some(e.post)
  }

  /** `e` is the one forward write of the applied record `r`. */
  ghost predicate IsForwardOf(s: State, r: Record, e: WriteEvent)
    requires r.device in s.vdoms
  {
    && e.direction == Forward && e.op == r.op && e.at == RecordAddress(s, r) && e.data == Restore(r.after)
    && (r.op != Create ==> e.id == r.resourceId)
    && Effective(s, e)
       // allowed by the mode in force, and in time
    && Permits(e.mode, e.op)
    && r.appliedAt == Some(e.time) && r.createdAt <= e.time <= r.expiresAt
       // what was previewed is what was done
    && (e.captured ==> r.before == Canonical(Live(e.pre, SlotAt(e.at, e.id))))
    && (e.captured || e.op == Create ==> DiffOf(e.op, Live(e.pre, SlotAt(e.at, e.id)), e.data) == Some(r.diff))
  }

  /** `e` is the one inverse write of the rolled-back record `r`. */
  ghost predicate IsInverseOf(s: State, r: Record, e: WriteEvent)
    requires r.device in s.vdoms
  {
    && e.direction == Inverse && e.op == InverseOp(r.op) && e.at == RecordAddress(s, r)
    && e.id == InverseId(r) && e.data == InverseData(r)
    && Effective(s, e)
    && r.appliedAt.Some? && r.appliedAt.value <= e.time
  }

  /** The status of a record fixes the device writes made for it and the snapshots kept of it. */
  ghost predicate StatusFixesHistory(s: State, cid: string)
    requires cid in s.records && s.records[cid].device in s.vdoms
  {
    var r, events, snapshots := s.records[cid], EventsOf(s.log, cid), SnapshotsOf(s.snapshots, cid);
    match r.status
    case Proposed => events == [] && snapshots == [] && r.appliedAt.None?
    case Expired => events == [] && snapshots == [] && r.appliedAt.None?
    case Applied =>
      && |events| == 1 && IsForwardOf(s, r, events[0])
      && snapshots == [SnapshotFor(cid, r, r.appliedAt.value)]
    case RolledBack =>
      && |events| == 2 && IsForwardOf(s, r, events[0]) && IsInverseOf(s, r, events[1])
      && snapshots == [SnapshotFor(cid, r, r.appliedAt.value)]
  }

  ghost predicate RecordOk(s: State, cid: string)
    requires cid in s.records
  {
    var r := s.records[cid];
    && r.device in s.vdoms
    && r.createdAt <= s.now && r.expiresAt == r.createdAt + PREVIEW_TTL_SECONDS
    && (r.appliedAt.Some? ==> r.appliedAt.value <= s.now)
       // the diff on record is the diff of the two states on record
    && Canonical(Restore(r.before)) == r.before && Canonical(Restore(r.after)) == r.after
    && DiffOf(r.op, Restore(r.before), Restore(r.after)) == Some(r.diff)
    && StatusFixesHistory(s, cid)
  }

  ghost predicate Inv(s: State) {
    && (forall cid :: cid in s.records ==> RecordOk(s, cid))
    && (forall cid :: cid !in s.records ==> EventsOf(s.log, cid) == [] && SnapshotsOf(s.snapshots, cid) == [])
  }

  // ---- Preservation, call by call ------------------------------------------------------------------

  lemma PreviewKeeps(s: State, req: Request, cid: string, reply: ReadReply)
    requires Inv(s)
    ensures Inv(PreviewStep(s, req, cid, reply).0)
  {
    var (s', result) := PreviewStep(s, req, cid, reply);
    if result.Ok? {
      RestoreCanonical(FetchCurrent(req.rtype, req.resourceId, reply).value);
      RestoreCanonical(req.proposed);
      forall c | c in s'.records ensures RecordOk(s', c) {
        if c != cid { assert RecordOk(s, c); }
      }
    }
  }

  lemma ForwardEventOk(s: State, cid: string, read: ReadReply, write: WriteReply)
    requires Inv(s)
    ensures var (s', result) := ApplyStep(s, cid, read, write);
            result.Ok? ==>
              s'.log == s.log + [s'.log[|s.log|]] && IsForwardOf(s', s'.records[cid], s'.log[|s.log|])
  {
    if ApplyStep(s, cid, read, write).1.Ok? {
      var r := s.records[cid];
      assert RecordOk(s, cid);
      var at := RecordAddress(s, r);
      if Captures(at, r.resourceId, read, s.device) {
        var live := Live(s.device, SlotAt(at, r.resourceId));
        assert Canonical(live) == r.before;
        RestoreCanonical(live);
      }
    }
  }

  /** Nothing but the change `cid` and the device differs between the two states. */
  ghost predicate OnlyTouches(s: State, s': State, cid: string) {
    && s'.put == s.put && s'.vdoms == s.vdoms && s'.now == s.now
    && cid in s.records && cid in s'.records && s'.records == s.records[cid := s'.records[cid]]
    && (forall c | c != cid :: EventsOf(s'.log, c) == EventsOf(s.log, c))
    && (forall c | c != cid :: SnapshotsOf(s'.snapshots, c) == SnapshotsOf(s.snapshots, c))
  }

  /** A step that touches one change only has to be checked for that change. */
  lemma OthersKeep(s: State, s': State, cid: string)
    requires Inv(s)
    ensures OnlyTouches(s, s', cid) && RecordOk(s', cid) ==> Inv(s')
  {
    if OnlyTouches(s, s', cid) && RecordOk(s', cid) {
      forall c | c in s'.records ensures RecordOk(s', c) {
        if c != cid { assert RecordOk(s, c); }
      }
    }
  }

  lemma AppliedRecordOk(s: State, cid: string, read: ReadReply, write: WriteReply)
    requires Inv(s)
    ensures var (s', result) := ApplyStep(s, cid, read, write);
            result.Ok? ==> RecordOk(s', cid)
  {
    hide Restore, Canonical, DiffOf, Execute, Write, FetchCurrent, Captures;
    var (s', result) := ApplyStep(s, cid, read, write);
    if result.Ok? {
      assert RecordOk(s, cid);
      ForwardEventOk(s, cid, read, write);
      EventsOfAppend(s.log, s'.log[|s.log|], cid);
      SnapshotsOfAppend(s.snapshots, SnapshotFor(cid, s'.records[cid], s.now), cid);
    }
  }

  lemma ExpiredRecordOk(s: State, cid: string, read: ReadReply, write: WriteReply)
    requires Inv(s)
    ensures var (s', result) := ApplyStep(s, cid, read, write);
            result.Err? && s' != s ==> OnlyTouches(s, s', cid) && RecordOk(s', cid)
  {
    hide Restore, Canonical, DiffOf, Execute, Write, FetchCurrent, Captures, SnapshotFor;
    if cid in s.records { assert RecordOk(s, cid); }
  }

  lemma AppliedTouches(s: State, cid: string, read: ReadReply, write: WriteReply)
    requires Inv(s)
    ensures var (s', result) := ApplyStep(s, cid, read, write);
            result.Ok? ==> OnlyTouches(s, s', cid)
  {
    hide Restore, Canonical, DiffOf, Execute, Write, FetchCurrent, Captures, RecordOk;
    var (s', result) := ApplyStep(s, cid, read, write);
    if result.Ok? {
      forall c | c != cid
        ensures EventsOf(s'.log, c) == EventsOf(s.log, c)
        ensures SnapshotsOf(s'.snapshots, c) == SnapshotsOf(s.snapshots, c)
      {
        EventsOfAppend(s.log, s'.log[|s.log|], c);
        SnapshotsOfAppend(s.snapshots, s'.snapshots[|s.snapshots|], c);
      }
    }
  }

  lemma {:induction false} ApplyKeeps(s: State, cid: string, read: ReadReply, write: WriteReply)
    requires Inv(s)
    ensures Inv(ApplyStep(s, cid, read, write).0)
  {
    hide ApplyStep, Inv, OnlyTouches, RecordOk;
    AppliedRecordOk(s, cid, read, write);
    AppliedTouches(s, cid, read, write);
    ExpiredRecordOk(s, cid, read, write);
    OthersKeep(s, ApplyStep(s, cid, read, write).0, cid);
  }

  lemma InverseEventOk(s: State, cid: string, write: WriteReply)
    requires Inv(s)
    ensures var (s', result) := RollbackStep(s, cid, write);
            result.Ok? ==> s'.log == s.log + [s'.log[|s.log|]] && IsInverseOf(s', s'.records[cid], s'.log[|s.log|])
  {
    if cid in s.records { assert RecordOk(s, cid); }
  }

  lemma RolledBackRecordOk(s: State, cid: string, write: WriteReply)
    requires Inv(s)
    ensures var (s', result) := RollbackStep(s, cid, write);
            result.Ok? ==> RecordOk(s', cid)
  {
    hide Restore, Canonical, DiffOf, Execute, Write, RecordOk, IsInverseOf;
    InverseEventOk(s, cid, write);
    var (s', result) := RollbackStep(s, cid, write);
    if result.Ok? { InverseCompletes(s, s', cid, s'.log[|s.log|]); }
  }

  /** One inverse write behind the forward one is what the record of a rolled-back change asks for. */
  lemma InverseCompletes(s: State, s': State, cid: string, e: WriteEvent)
    requires cid in s.records && s.records[cid].status == Applied && RecordOk(s, cid)
    requires s' == s.(records := s.records[cid := s.records[cid].(status := RolledBack)],
                      device := s'.device, log := s.log + [e])
    requires e.changeId == cid && IsInverseOf(s', s'.records[cid], e)
    ensures RecordOk(s', cid)
  {
    hide Restore, Canonical, DiffOf, Write, Permits, InverseData, InverseOp, InverseId, IsInverseOf;
    var f := EventsOf(s.log, cid)[0];
    EventsOfAppend(s.log, e, cid);
    assert EventsOf(s'.log, cid) == [f, e];
    assert IsForwardOf(s', s'.records[cid], f);
  }

  lemma RolledBackTouches(s: State, cid: string, write: WriteReply)
    ensures var (s', result) := RollbackStep(s, cid, write);
            (result.Ok? ==> OnlyTouches(s, s', cid)) && (result.Err? ==> s' == s)
  {
    hide Restore, Canonical, DiffOf, Execute, Write;
    var (s', result) := RollbackStep(s, cid, write);
    if result.Ok? {
      forall c | c != cid ensures EventsOf(s'.log, c) == EventsOf(s.log, c) {
        EventsOfAppend(s.log, s'.log[|s.log|], c);
      }
    }
  }

  lemma {:induction false} RollbackKeeps(s: State, cid: string, write: WriteReply)
    requires Inv(s)
    ensures Inv(RollbackStep(s, cid, write).0)
  {
    RolledBackTouches(s, cid, write);
    hide RollbackStep, Inv, RecordOk;
    RolledBackRecordOk(s, cid, write);
    OthersKeep(s, RollbackStep(s, cid, write).0, cid);
  }

  lemma {:induction false} NextKeeps(s: State, step: Step)
    requires Inv(s)
    ensures Inv(Next(s, step))
  {
    match step
    case Preview(req, cid, read) => PreviewKeeps(s, req, cid, read);
    case Apply(cid, read, write) => ApplyKeeps(s, cid, read, write);
    case Rollback(cid, write) => RollbackKeeps(s, cid, write);
    case _ =>
      var s' := Next(s, step);
      forall c | c in s'.records ensures RecordOk(s', c) { assert RecordOk(s, c); }
  }

  /** The invariant holds after every run, whatever the environment did along the way. */
  lemma {:induction false} RunKeeps(s: State, steps: seq<Step>)
    requires Inv(s)
    ensures Inv(Run(s, steps))
    decreases |steps|
  {
    if steps != [] {
      NextKeeps(s, steps[0]);
      RunKeeps(Next(s, steps[0]), steps[1..]);
    }
  }

  lemma InvariantOfRuns(s: State, steps: seq<Step>)
    requires Initial(s)
    ensures Inv(Run(s, steps))
  {
    RunKeeps(s, steps);
  }

  lemma LoggedForward(t: State, e: WriteEvent)
    requires Inv(t) && e in t.log && e.direction == Forward
    ensures e.changeId in t.records && t.records[e.changeId].device in t.vdoms
    ensures IsForwardOf(t, t.records[e.changeId], e)
  {
    hide Restore, Canonical, DiffOf, Write, Permits, InverseOp, InverseData;
    LoggedIsInEvents(t.log, e);
    assert RecordOk(t, e.changeId);
  }

  /** In every reachable state each forward write was allowed by the mode it ran in, and came in time. */
  lemma EveryForwardWriteWasPermitted(s: State, steps: seq<Step>, e: WriteEvent)
    requires Initial(s)
    requires e in Run(s, steps).log && e.direction == Forward
    ensures var t := Run(s, steps);
            && e.changeId in t.records
            && Permits(e.mode, e.op) && e.time <= t.records[e.changeId].expiresAt
  {
    hide Next;
    InvariantOfRuns(s, steps);
    LoggedForward(Run(s, steps), e);
  }

  /**
   Nothing is done that was not previewed: for every forward write whose target was really read,
   and for every create, the diff on record is the diff between the state of the target just
   before the write and the data written, whatever was edited between preview and apply.
   */
  lemma PreviewedIsDone(s: State, steps: seq<Step>, e: WriteEvent)
    requires Initial(s)
    requires e in Run(s, steps).log && e.direction == Forward && (e.captured || e.op == Create)
    ensures var t := Run(s, steps);
            && e.changeId in t.records
            && DiffOf(e.op, Live(e.pre, SlotAt(e.at, e.id)), e.data) == Some(t.records[e.changeId].diff)
            && Documents(e.op, Live(e.pre, SlotAt(e.at, e.id)), e.data, t.records[e.changeId].diff)
            && Write(e.pre, t.put, e.at, e.op, e.id, e.data, e.assignedId) == Some(e.post)
  {
    hide Next, Documents;
    InvariantOfRuns(s, steps);
    LoggedForward(Run(s, steps), e);
    DocumentIs(e.op, Live(e.pre, SlotAt(e.at, e.id)), e.data);
  }

  // ---- The audit snapshot --------------------------------------------------------------------------

  lemma {:induction false} SnapshotsOfIff(snapshots: seq<Snapshot>, cid: string)
    ensures |SnapshotsOf(snapshots, cid)| == 0 <==> forall j :: 0 <= j < |snapshots| ==> snapshots[j].changeId != cid
    ensures |SnapshotsOf(snapshots, cid)| == 1 ==>
              exists i :: 0 <= i < |snapshots| && snapshots[i] == SnapshotsOf(snapshots, cid)[0]
                          && snapshots[i].changeId == cid
                          && forall j :: 0 <= j < |snapshots| && j != i ==> snapshots[j].changeId != cid
  {
    if snapshots != [] {
      var n := |snapshots| - 1;
      var front := snapshots[..n];
      SnapshotsOfIff(front, cid);
      assert forall j :: 0 <= j < n ==> front[j] == snapshots[j];
      if snapshots[n].changeId != cid && |SnapshotsOf(front, cid)| == 1 {
        var i :| 0 <= i < n && front[i] == SnapshotsOf(front, cid)[0] && front[i].changeId == cid
                 && forall j :: 0 <= j < n && j != i ==> front[j].changeId != cid;
        assert snapshots[i] == SnapshotsOf(snapshots, cid)[0];
      }
    }
  }

  /** Over every run: an applied or rolled-back change has one snapshot, of its state before; the others have none. */
  lemma {:induction false} AuditSnapshot(s: State, steps: seq<Step>, cid: string)
    requires Initial(s) && cid in Run(s, steps).records
    ensures var t := Run(s, steps);
            var r := t.records[cid];
            if r.status == Applied || r.status == RolledBack
            then && r.appliedAt.Some?
                 && exists i :: 0 <= i < |t.snapshots|
                      && t.snapshots[i]
                         == Snapshot(r.device, r.vdom, r.rtype, r.resourceId, r.appliedAt.value, r.before, cid)
                      && forall j :: 0 <= j < |t.snapshots| && j != i ==> t.snapshots[j].changeId != cid
            else forall j :: 0 <= j < |t.snapshots| ==> t.snapshots[j].changeId != cid
  {
    hide Next;
    InvariantOfRuns(s, steps);
    var t := Run(s, steps);
    assert RecordOk(t, cid);
    SnapshotsOfIff(t.snapshots, cid);
  }

  /** Over every run: every snapshot of a change holds what its preview saw. */
  lemma {:induction false} SnapshotHoldsWhatPreviewSaw(s: State, before: seq<Step>, req: Request, cid: string,
                                                       first: ReadReply, after: seq<Step>, x: Snapshot)
    requires Initial(s)
    requires var s1 := Run(s, before);
             && PreviewStep(s1, req, cid, first).1.Ok?
             && Honest(AddressOf(s1.vdoms, req.device, req.vdom, req.rtype), req.resourceId, first, s1.device)
    requires x in Run(Next(Run(s, before), Preview(req, cid, first)), after).snapshots && x.changeId == cid
    ensures var s1 := Run(s, before);
            x.content == Canonical(Seen(AddressOf(s1.vdoms, req.device, req.vdom, req.rtype), req.resourceId, first,
                                        s1.device))
  {
    var s1 := Run(s, before);
    var s2 := Next(s1, Preview(req, cid, first));
    var t := Run(s2, after);
    PreviewBefore(s1, req, cid, first);
    hide Next, PreviewStep, Canonical, Restore, DiffOf, Honest, Seen;
    InvariantOfRuns(s, before);
    NextKeeps(s1, Preview(req, cid, first));
    RunKeeps(s2, after);
    RecordsOnlyEvolve(s2, after, cid);
    assert RecordOk(t, cid);
    SnapshotsOfIff(t.snapshots, cid);
  }

  lemma PreviewBefore(s: State, req: Request, cid: string, first: ReadReply)
    requires PreviewStep(s, req, cid, first).1.Ok?
    requires Honest(AddressOf(s.vdoms, req.device, req.vdom, req.rtype), req.resourceId, first, s.device)
    ensures var s' := Next(s, Preview(req, cid, first));
            && cid in s'.records
            && s'.records[cid].before == Canonical(Seen(AddressOf(s.vdoms, req.device, req.vdom, req.rtype),
                                                        req.resourceId, first, s.device))
  {
    hide Canonical, DiffOf;
  }

  lemma LoggedInverse(t: State, e: WriteEvent)
    requires Inv(t) && e in t.log && e.direction == Inverse
    ensures e.changeId in t.records && t.records[e.changeId].device in t.vdoms
    ensures IsInverseOf(t, t.records[e.changeId], e)
  {
    hide Restore, Canonical, DiffOf, Write, Permits, InverseOp, InverseData;
    LoggedIsInEvents(t.log, e);
    assert RecordOk(t, e.changeId);
  }

  /** Outside full mode the deletions that reach a device are exactly the rollbacks of creates. */
  lemma DeletesOutsideFullModeUndoCreates(s: State, steps: seq<Step>, e: WriteEvent)
    requires Initial(s)
    requires e in Run(s, steps).log && e.mode != Full
    ensures var t := Run(s, steps);
            && e.changeId in t.records
            && (e.op == Delete <==> e.direction == Inverse && t.records[e.changeId].op == Create)
  {
    hide Next;
    InvariantOfRuns(s, steps);
    if e.direction == Forward { LoggedForward(Run(s, steps), e); } else { LoggedInverse(Run(s, steps), e); }
  }

  /** A rollback that succeeds would succeed in every mode, and deletes exactly when it undoes a create. */
  lemma RollbackIgnoresMode(s: State, cid: string, write: WriteReply, mode: OperatingMode)
    requires RollbackStep(s, cid, write).1.Ok?
    ensures var (s', result) := RollbackStep(s.(mode := mode), cid, write);
            && result == RollbackStep(s, cid, write).1
            && s'.device == RollbackStep(s, cid, write).0.device
            && |s'.log| == |s.log| + 1 && s'.log[|s.log|].mode == mode
            && (s'.log[|s.log|].op == Delete <==> s.records[cid].op == Create)
  {
    hide Restore, Canonical, Execute;
  }

  // ---- Status only moves forward -------------------------------------------------------------------

  /** Proposed may become expired or applied, applied may become rolled back; nothing else moves. */
  predicate Advances(from: Status, to: Status) {
    from == to || (from == Proposed && to != Proposed) || (from == Applied && to == RolledBack)
  }

  /** What later calls may do to a record: move its status on, stamp it, and fill in a created id. */
  ghost predicate Evolves(r: Record, r': Record) {
    && r' == r.(status := r'.status, appliedAt := r'.appliedAt, resourceId := r'.resourceId)
    && Advances(r.status, r'.status)
    && (r.resourceId != r'.resourceId ==>
          r.op == Create && r.resourceId.None? && r.status == Proposed && r'.status != Proposed)
    && (r.status != Proposed ==> r'.appliedAt == r.appliedAt)
  }

  lemma StepEvolves(s: State, step: Step, cid: string)
    requires cid in s.records
    ensures cid in Next(s, step).records && Evolves(s.records[cid], Next(s, step).records[cid])
  {
    hide Restore, Canonical, DiffOf, Execute, FetchCurrent, Captures;
  }

  /** No run ever loses a record, changes what was previewed, or moves a status backward. */
  lemma {:induction false} RecordsOnlyEvolve(s: State, steps: seq<Step>, cid: string)
    requires cid in s.records
    ensures cid in Run(s, steps).records && Evolves(s.records[cid], Run(s, steps).records[cid])
    decreases |steps|
  {
    if steps != [] {
      StepEvolves(s, steps[0], cid);
      RecordsOnlyEvolve(Next(s, steps[0]), steps[1..], cid);
    }
  }

  // ---- Who can write -------------------------------------------------------------------------------

  /** A service call either leaves the device and the log alone, or makes exactly one logged write. */
  lemma OnlyLoggedWrites(s: State, step: Step)
    requires !step.OutsideEdit?
    ensures var s' := Next(s, step);
            || (s'.device == s.device && s'.log == s.log)
            || (|s'.log| == |s.log| + 1 && s'.log[..|s.log|] == s.log
                && s'.log[|s.log|].pre == s.device && s'.log[|s.log|].post == s'.device)
    ensures Next(s, step).log != s.log ==>
              match step
              case Apply(cid, _, _) =>
                Next(s, step).log[|s.log|].direction == Forward && Permits(s.mode, s.records[cid].op)
              case Rollback(_, _) => Next(s, step).log[|s.log|].direction == Inverse
              case _ => false
  {
    hide Restore, Canonical, DiffOf, Execute, FetchCurrent, Captures;
  }

  /** While the service is read-only, no change is proposed and every device write is a rollback. */
  lemma {:induction false} ReadOnlyOnlyRollsBack(s: State, steps: seq<Step>)
    requires s.mode == ReadOnly
    requires forall i :: 0 <= i < |steps| ==> !steps[i].SetMode?
    ensures var t := Run(s, steps);
            && t.mode == ReadOnly && t.records.Keys == s.records.Keys
            && |s.log| <= |t.log| && t.log[..|s.log|] == s.log
            && forall i :: |s.log| <= i < |t.log| ==> t.log[i].direction == Inverse
    decreases |steps|
  {
    if steps != [] {
      var s' := Next(s, steps[0]);
      ReadOnlyStep(s, steps[0]);
      ReadOnlyOnlyRollsBack(s', steps[1..]);
      var t := Run(s, steps);
      assert t.log[..|s.log|] == t.log[..|s'.log|][..|s.log|];
      forall i | |s.log| <= i < |t.log| ensures t.log[i].direction == Inverse {
        if i < |s'.log| { assert t.log[i] == t.log[..|s'.log|][i]; }
      }
    }
  }

  lemma ReadOnlyStep(s: State, step: Step)
    requires s.mode == ReadOnly && !step.SetMode?
    ensures var s' := Next(s, step);
            && s'.mode == ReadOnly && s'.records.Keys == s.records.Keys
            && |s.log| <= |s'.log| && s'.log[..|s.log|] == s.log
            && forall i :: |s.log| <= i < |s'.log| ==> s'.log[i].direction == Inverse
  {
    hide Restore, Canonical, DiffOf, Execute, FetchCurrent, Captures;
    if !step.OutsideEdit? { OnlyLoggedWrites(s, step); }
  }

  // ---- Why a call has to be one step -----------------------------------------------------------------

  /**
   The write of a second `apply` that loaded the record `r` and passed its checks before the first
   one committed. Its commit updates the columns it has set, over what the first one left there.
   */
  function LateWrite(s: State, r: Record, cid: string, reply: WriteReply): (State, Result<Record, ChangeError>)
    requires cid in s.records && r.device in s.vdoms
  {
    var at := RecordAddress(s, r);
    match Execute(s.device, s.put, at, r.op, r.resourceId, Restore(r.after), reply)
    case Err(e) => (s, Err(Dispatch(e)))
    case Ok((device', response)) =>
      var r' := AppliedRecord(r, response, s.now);
      var row := s.records[cid].(status := Applied, appliedAt := r'.appliedAt,
                                 resourceId := if r'.resourceId != r.resourceId then r'.resourceId
                                               else s.records[cid].resourceId);
      var e := WriteEvent(cid, Forward, at, r.op, r.resourceId, Restore(r.after), reply.assignedId,
                          s.now, s.mode, false, s.device, device');
      (s.(records := s.records[cid := row], snapshots := s.snapshots + [SnapshotFor(cid, r', s.now)],
          device := device', log := s.log + [e]),
       Ok(r'))
  }

  /** A write that leaves the change applied, with one more forward write and one more snapshot on record. */
  ghost predicate Adds(s: State, t: State, cid: string) {
    && |t.log| == |s.log| + 1 && t.log == s.log + [t.log[|s.log|]]
    && t.log[|s.log|].changeId == cid && t.log[|s.log|].direction == Forward
    && |t.snapshots| == |s.snapshots| + 1 && t.snapshots == s.snapshots + [t.snapshots[|s.snapshots|]]
    && t.snapshots[|s.snapshots|].changeId == cid
    && cid in t.records && t.records[cid].status == Applied && t.vdoms == s.vdoms
  }

  lemma ForwardWriteAdds(s: State, cid: string, reply: WriteReply)
    requires cid in s.records && s.records[cid].device in s.vdoms
    requires ForwardWrite(s, cid, false, reply).1.Ok?
    ensures Adds(s, ForwardWrite(s, cid, false, reply).0, cid)
  {
    hide Restore, Canonical, DiffOf, Write, ExtractCreatedId;
  }

  lemma LateWriteAdds(s: State, r: Record, cid: string, reply: WriteReply)
    requires cid in s.records && r.device in s.vdoms && LateWrite(s, r, cid, reply).1.Ok?
    ensures reply.Accepts?
    ensures var t := LateWrite(s, r, cid, reply).0;
            && Adds(s, t, cid)
            && (r.op == Create && r.resourceId.None? && ExtractCreatedId(reply.response).Some? ==>
                  t.records[cid].resourceId == ExtractCreatedId(reply.response))
  {
    hide Restore, Canonical, DiffOf, Write, ExtractCreatedId;
  }

  lemma WrittenTwice(s: State, s1: State, t: State, cid: string)
    requires cid in s.records && s.records[cid].status == Proposed && RecordOk(s, cid)
    requires Adds(s, s1, cid) && Adds(s1, t, cid)
    ensures |EventsOf(t.log, cid)| == 2 && |SnapshotsOf(t.snapshots, cid)| == 2
    ensures forall e :: e in EventsOf(t.log, cid) ==> e.direction == Forward
    ensures !Inv(t)
  {
    hide IsForwardOf, IsInverseOf, Restore, Canonical, DiffOf;
    EventsOfAppend(s.log, s1.log[|s.log|], cid);
    EventsOfAppend(s1.log, t.log[|s1.log|], cid);
    SnapshotsOfAppend(s.snapshots, s1.snapshots[|s.snapshots|], cid);
    SnapshotsOfAppend(s1.snapshots, t.snapshots[|s1.snapshots|], cid);
    assert !RecordOk(t, cid);
  }

  /**
   Two applies of one change that both got past the checks before either wrote would write twice,
   with two forward writes and two snapshots on record: the invariant rests on calls being atomic.
   Of two objects created the record names the second only.
   */
  lemma {:induction false} OverlappingAppliesBreakInvariant(s: State, cid: string,
                                                            first: WriteReply, second: WriteReply)
    requires Inv(s) && ReachesDriftCheck(s, cid)
    ensures var (s1, early) := ForwardWrite(s, cid, false, first);
            var (t, late) := LateWrite(s1, s.records[cid], cid, second);
            var r := s.records[cid];
            early.Ok? && late.Ok? ==>
              && |EventsOf(t.log, cid)| == 2 && |SnapshotsOf(t.snapshots, cid)| == 2
              && (forall e :: e in EventsOf(t.log, cid) ==> e.direction == Forward)
              && !Inv(t)
              && (r.op == Create && r.resourceId.None? && ExtractCreatedId(second.response).Some? ==>
                    t.records[cid].resourceId == ExtractCreatedId(second.response))
  {
    var (s1, early) := ForwardWrite(s, cid, false, first);
    var (t, late) := LateWrite(s1, s.records[cid], cid, second);
    if early.Ok? && late.Ok? {
      ForwardWriteAdds(s, cid, first);
      LateWriteAdds(s1, s.records[cid], cid, second);
      hide *;
      WrittenTwice(s, s1, t, cid);
    }
  }

  // ---- Pending changes -----------------------------------------------------------------------------

  /** `apply` would get past its existence, status and expiry checks. */
  predicate PassesFirstChecks(s: State, cid: string, read: ReadReply, write: WriteReply) {
    match ApplyStep(s, cid, read, write).1
    case Ok(_) => true
    case Err(e) => !e.ChangeNotFound? && !e.AlreadyResolved? && !e.ChangeExpired?
  }

  /** The pending list is what could still be applied, less the changes that expire this instant. */
  lemma PendingIsApplicable(s: State, cid: string, read: ReadReply, write: WriteReply)
    ensures cid in Pending(s) <==>
              PassesFirstChecks(s, cid, read, write) && s.now != s.records[cid].expiresAt
  {
    hide Restore, Canonical, DiffOf, Execute, FetchCurrent, Captures;
  }

  /** A change that expires this instant is not listed, yet can be applied. */
  lemma ListedNotAtExpiryInstant(s: State, cid: string)
    requires Inv(s) && cid in s.records && s.records[cid].status == Proposed
    requires s.now == s.records[cid].expiresAt
    ensures cid !in Pending(s)
    ensures forall read, write :: PassesFirstChecks(s, cid, read, write)
  {
    hide Restore, Canonical, DiffOf, Execute, FetchCurrent, Captures;
  }

  // ---- Drift ---------------------------------------------------------------------------------------

  lemma {:induction false} ConfigurationIsConstant(s: State, steps: seq<Step>)
    ensures Run(s, steps).vdoms == s.vdoms && Run(s, steps).put == s.put
    decreases |steps|
  {
    if steps != [] {
      StepKeepsConfiguration(s, steps[0]);
      ConfigurationIsConstant(Next(s, steps[0]), steps[1..]);
    }
  }

  lemma StepKeepsConfiguration(s: State, step: Step)
    ensures Next(s, step).vdoms == s.vdoms && Next(s, step).put == s.put
  {
    hide Restore, Canonical, DiffOf, Execute, FetchCurrent, Captures;
  }

  /** `apply` reaches its drift check. */
  predicate ReachesDriftCheck(s: State, cid: string) {
    && cid in s.records
    && var r := s.records[cid];
       && r.status == Proposed && s.now <= r.expiresAt && Permits(s.mode, r.op) && r.device in s.vdoms
  }

  /** The read fails, or its answer unwraps to what the slot holds. */
  predicate Honest(at: Address, id: Option<string>, reply: ReadReply, device: Device) {
    Reads(at.rtype, id) && reply.Returns? ==> UnwrapSingle(reply.response) == Live(device, SlotAt(at, id))
  }

  /** What an honest read lets the service see: the target, or None where nothing could be read. */
  function Seen(at: Address, id: Option<string>, reply: ReadReply, device: Device): Json {
    if Reads(at.rtype, id) && reply.Returns? then Live(device, SlotAt(at, id)) else Null
  }

  /**
   Whatever happens between preview and apply, `apply` refuses with a drift error exactly when what
   it sees now differs from what the preview saw, for every type and for reads that may fail.
   */
  lemma DriftIffSeenDiffers(s: State, req: Request, cid: string, first: ReadReply,
                            steps: seq<Step>, second: ReadReply, write: WriteReply)
    requires PreviewStep(s, req, cid, first).1.Ok?
    requires var at := AddressOf(s.vdoms, req.device, req.vdom, req.rtype);
             var t := Run(PreviewStep(s, req, cid, first).0, steps);
             && Honest(at, req.resourceId, first, s.device)
             && Honest(at, req.resourceId, second, t.device)
             && ReachesDriftCheck(t, cid)
    ensures var at := AddressOf(s.vdoms, req.device, req.vdom, req.rtype);
            var t := Run(PreviewStep(s, req, cid, first).0, steps);
            ApplyStep(t, cid, second, write).1 == Err(ChangeDrift)
            <==> Seen(at, req.resourceId, first, s.device) != Seen(at, req.resourceId, second, t.device)
  {
    hide Next, DiffOf, Execute, Canonical, Restore;
    var s1 := PreviewStep(s, req, cid, first).0;
    var t := Run(s1, steps);
    RecordsOnlyEvolve(s1, steps, cid);
    ConfigurationIsConstant(s1, steps);
    var at := AddressOf(s.vdoms, req.device, req.vdom, req.rtype);
    CanonicalEqualIff(Seen(at, req.resourceId, first, s.device), Seen(at, req.resourceId, second, t.device));
    CompareAtApply(t, cid, second, write);
  }

  /** What can be told from the two reads alone about an edit of the target: it will be noticed. */
  predicate Noticeable(at: Address, id: Option<string>, first: ReadReply, before: Json, second: ReadReply, now: Json) {
    && Reads(at.rtype, id)
    && (first.Returns? || second.Returns?)
    && (first.Returns? || now != Null)
    && (second.Returns? || before != Null)
  }

  /** One of the two reads fails and the other shows an object. */
  predicate OneReadLost(at: Address, id: Option<string>, first: ReadReply, second: ReadReply, before: Json) {
    Reads(at.rtype, id) && first.Returns? != second.Returns? && before != Null
  }

  /**
   The documented claim, that `apply` refuses when the target changed since the preview. A changed
   target is refused exactly when the type is one that is read and at least one read succeeds, the
   one that succeeds having found an object where the other one fails. An unchanged target is
   refused exactly when one of the two reads fails on an existing object.
   */
  lemma DriftIffTargetChanged(s: State, req: Request, cid: string, first: ReadReply,
                              steps: seq<Step>, second: ReadReply, write: WriteReply)
    requires PreviewStep(s, req, cid, first).1.Ok?
    requires var at := AddressOf(s.vdoms, req.device, req.vdom, req.rtype);
             var t := Run(PreviewStep(s, req, cid, first).0, steps);
             && Honest(at, req.resourceId, first, s.device)
             && Honest(at, req.resourceId, second, t.device)
             && ReachesDriftCheck(t, cid)
    ensures var at := AddressOf(s.vdoms, req.device, req.vdom, req.rtype);
            var t := Run(PreviewStep(s, req, cid, first).0, steps);
            var before, now := Live(s.device, SlotAt(at, req.resourceId)), Live(t.device, SlotAt(at, req.resourceId));
            ApplyStep(t, cid, second, write).1 == Err(ChangeDrift)
            <==> if before != now then Noticeable(at, req.resourceId, first, before, second, now)
                 else OneReadLost(at, req.resourceId, first, second, before)
  {
    hide Run, PreviewStep, ApplyStep, ReachesDriftCheck;
    DriftIffSeenDiffers(s, req, cid, first, steps, second, write);
  }

  lemma CompareAtApply(s: State, cid: string, read: ReadReply, write: WriteReply)
    requires ReachesDriftCheck(s, cid) && Known(s.records[cid].rtype)
    ensures var r := s.records[cid];
            ApplyStep(s, cid, read, write).1 == Err(ChangeDrift) <==>
              Canonical(FetchCurrent(r.rtype, r.resourceId, read).value) != r.before
  {
    hide Canonical, Restore, Execute, DiffOf, Captures;
  }

  // ---- Runs on one object of one device ----------------------------------------------------------------

  const AT := Address("fw", "root", "firewall_policy")
  const POLICY := SlotAt(AT, Some("7"))

  /** The types whose objects are addressed by id and can be updated. */
  predicate Updatable(rtype: string) {
    rtype in CRUD_TYPES || rtype in NO_GETTER_TYPES
  }

  /** The object "7" of a type. */
  function ObjectAt(rtype: string): Slot {
    SlotAt(Address("fw", "root", rtype), Some("7"))
  }

  /** A fresh service in front of one device. */
  function Fresh(put: PutSemantics, mode: OperatingMode, device: Device): (s: State)
    ensures Initial(s)
  {
    State(map[], [], 0, mode, put, map["fw" := "root"], device, [])
  }

  function RequestFor(rtype: string, op: OperationType, id: Option<string>, proposed: Json): Request {
    Request("fw", None, rtype, op, id, proposed)
  }

  lemma RunTwo(s: State, a: Step, b: Step)
    ensures Run(s, [a, b]) == Next(Next(s, a), b)
  {
    assert [a, b][1..] == [b] && [b][1..] == [];
    assert Run(Next(s, a), [b]) == Next(Next(s, a), b);
  }

  lemma RunThree(s: State, a: Step, b: Step, c: Step)
    ensures Run(s, [a, b, c]) == Next(Next(Next(s, a), b), c)
  {
    assert [a, b, c][1..] == [b, c];
    RunTwo(Next(s, a), b, c);
  }

  /**
   Between two reads that fail any edit goes unnoticed: the policy has a getter, and `apply` still
   writes over whatever the edit left there.
   */
  lemma EditBetweenFailedReadsIsOverwritten(live: Dict, edited: Dict, data: Dict)
    ensures var steps := [Preview(RequestFor("firewall_policy", Update, Some("7"), Obj(data)), "c", ReadFails),
                          OutsideEdit(map[POLICY := edited]),
                          Apply("c", ReadFails, Accepts(Null, ""))];
            var t := Run(Fresh(Replace, Safe, map[POLICY := live]), steps);
            "c" in t.records && t.records["c"].status == Applied && t.device == map[POLICY := data]
  {
    hide Canonical, Restore, Run, ChangedFields, UnwrapSingle, Execute;
    var s := Fresh(Replace, Safe, map[POLICY := live]);
    var first := Preview(RequestFor("firewall_policy", Update, Some("7"), Obj(data)), "c", ReadFails);
    RunThree(s, first, OutsideEdit(map[POLICY := edited]), Apply("c", ReadFails, Accepts(Null, "")));
    RestoreCanonical(Obj(data));
    DictOrEmpty(data);
    ObjectUpdated("firewall_policy", Replace, map[POLICY := edited], Obj(data));
  }

  lemma DictOrEmpty(d: Dict)
    ensures OrEmpty(Obj(d)) == Obj(d)
  {
  }

  lemma ObjectUpdated(rtype: string, put: PutSemantics, device: Device, data: Json)
    requires Updatable(rtype) && ObjectAt(rtype) in device && OrEmpty(data).Obj?
    ensures Execute(device, put, Address("fw", "root", rtype), Update, Some("7"), data, Accepts(Null, ""))
         == Ok((device[ObjectAt(rtype) := Stored(put, device[ObjectAt(rtype)], OrEmpty(data).fields)], Null))
  {
  }

  /** In safe mode a created policy is deleted by its rollback. */
  lemma SafeModeDeletes(data: Dict)
    ensures var steps := [Preview(RequestFor("firewall_policy", Create, None, Obj(data)), "c", ReadFails),
                          Apply("c", ReadFails, Accepts(Obj(map["mkey" := Num(7)]), "7")),
                          Rollback("c", Accepts(Null, ""))];
            var t := Run(Fresh(Replace, Safe, map[]), steps);
            && t.mode == Safe && t.device == map[]
            && |t.log| == 2 && t.log[1].op == Delete && t.log[1].mode == Safe && t.log[1].pre == map[POLICY := data]
  {
    hide Canonical, Restore, Run, UnwrapSingle, Execute;
    var s := Fresh(Replace, Safe, map[]);
    var first := Preview(RequestFor("firewall_policy", Create, None, Obj(data)), "c", ReadFails);
    var second := Apply("c", ReadFails, Accepts(Obj(map["mkey" := Num(7)]), "7"));
    RunThree(s, first, second, Rollback("c", Accepts(Null, "")));
    RestoreCanonical(Obj(data));
    PolicyCreatedAndDeleted(data);
    assert ExtractCreatedId(Obj(map["mkey" := Num(7)])) == Some("7");
  }

  lemma PolicyCreatedAndDeleted(data: Dict)
    ensures Execute(map[], Replace, AT, Create, None, Obj(data), Accepts(Obj(map["mkey" := Num(7)]), "7"))
         == Ok((map[POLICY := data], Obj(map["mkey" := Num(7)])))
    ensures Execute(map[POLICY := data], Replace, AT, Delete, Some("7"), Null, Accepts(Null, "")) == Ok((map[], Null))
  {
  }

  /** For the types without a getter there is no drift check at all: an outside edit is written over. */
  lemma NoGetterNoDrift(s: State, steps: seq<Step>, cid: string, read: ReadReply, write: WriteReply)
    requires Initial(s)
    requires var t := Run(s, steps); cid in t.records && !HasGetter(t.records[cid].rtype)
    ensures ApplyStep(Run(s, steps), cid, read, write).1 != Err(ChangeDrift)
  {
    hide Next, DiffOf, Execute, Canonical, Restore;
    UnreadHasNoBefore(s, steps, cid);
  }

  /** A record of a type without a getter never holds a prior state. */
  lemma {:induction false} UnreadHasNoBefore(s: State, steps: seq<Step>, cid: string)
    requires forall c :: c in s.records && !HasGetter(s.records[c].rtype) ==> s.records[c].before == Canonical(Null)
    ensures var t := Run(s, steps);
            cid in t.records && !HasGetter(t.records[cid].rtype) ==> t.records[cid].before == Canonical(Null)
    decreases |steps|
  {
    if steps != [] {
      var s' := Next(s, steps[0]);
      forall c | c in s'.records && !HasGetter(s'.records[c].rtype)
        ensures s'.records[c].before == Canonical(Null)
      {
        if c in s.records { StepEvolves(s, steps[0], c); } else { NewRecordUnread(s, steps[0], c); }
      }
      UnreadHasNoBefore(s', steps[1..], cid);
    }
  }

  lemma NewRecordUnread(s: State, step: Step, cid: string)
    requires cid !in s.records && cid in Next(s, step).records
    requires !HasGetter(Next(s, step).records[cid].rtype)
    ensures Next(s, step).records[cid].before == Canonical(Null)
  {
    hide DiffOf, Execute, Canonical, Restore, Captures;
  }
}
