/** What rolling back restores over whole runs, and in which order changes may be undone. */
module ChangeRuns {
  import opened Wrappers
  import opened Json
  import opened Diff
  import opened ModePolicy
  import opened ChangeDispatch
  import opened ChangeModel
  import opened ChangeInvariants
  import opened ChangeRollback

  // ---- Writes are local --------------------------------------------------------------------------------

  /** The slot a write addresses. */
  function WrittenSlot(at: Address, op: OperationType, id: Option<string>, reply: WriteReply): Slot {
    SlotAt(at, if op == Create && reply.Accepts? then Some(reply.assignedId) else id)
  }

  /** What a write does to its slot depends on that slot alone, and no other slot changes. */
  lemma ExecuteIsLocal(d: Device, e: Device, put: PutSemantics, at: Address, op: OperationType, id: Option<string>,
                       data: Json, reply: WriteReply)
    requires Execute(d, put, at, op, id, data, reply).Ok?
    requires Live(d, WrittenSlot(at, op, id, reply)) == Live(e, WrittenSlot(at, op, id, reply))
    ensures Execute(e, put, at, op, id, data, reply).Ok?
    ensures var slot := WrittenSlot(at, op, id, reply);
            var d', e' := Execute(d, put, at, op, id, data, reply).value.0,
                          Execute(e, put, at, op, id, data, reply).value.0;
            forall x :: Live(d', x) == if x == slot then Live(e', x) else Live(d, x)
  {
    hide Supports, Known, Stored, SlotAt;
  }

  lemma SameEverywhere(d: Device, e: Device)
    requires forall slot :: Live(d, slot) == Live(e, slot)
    ensures d == e
  {
    forall slot ensures slot in d <==> slot in e { assert Live(d, slot) == Live(e, slot); }
    forall slot | slot in d ensures d[slot] == e[slot] { assert Live(d, slot) == Live(e, slot); }
  }

  // ---- Whole runs ------------------------------------------------------------------------------------

  /** An applied change not yet rolled back: the slot it wrote, and the device just before and just after it. */
  datatype Frame = Frame(cid: string, slot: Slot, pre: Device, post: Device)

  /** The slot that the applied change `cid` wrote. */
  function SlotOf(s: State, cid: string): Slot
    requires cid in s.records && s.records[cid].device in s.vdoms
  {
    SlotAt(RecordAddress(s, s.records[cid]), s.records[cid].resourceId)
  }

  /** Rolling the change back from `f.post`, under the old key, can only lead to `f.pre`. */
  ghost predicate UndoReady(s: State, f: Frame) {
    && f.cid in s.records
    && var r := s.records[f.cid];
       && r.status == Applied && r.device in s.vdoms && f.slot == SlotOf(s, f.cid)
       && forall undo :: SameKey(r, undo) ==>
            match Execute(f.post, s.put, RecordAddress(s, r), InverseOp(r.op), InverseId(r), InverseData(r), undo)
            case Ok((device, _)) => device == f.pre
            case Err(_) => true
  }

  /** The open changes of one slot lead from its object on the base device to its present object. */
  ghost predicate Chain(open: seq<Frame>, slot: Slot, base: Device, device: Device)
    decreases |open|
  {
    if open == [] then Live(device, slot) == Live(base, slot) else
      var front, last := open[..|open| - 1], open[|open| - 1];
      if last.slot == slot then Live(device, slot) == Live(last.post, slot) && Chain(front, slot, base, last.pre)
      else Chain(front, slot, base, device)
  }

  /** Every open change is of a watched slot and can be undone, and every watched slot has its chain. */
  ghost predicate OpenOk(watched: Slot -> bool, s: State, base: Device, open: seq<Frame>) {
    && (forall i :: 0 <= i < |open| ==> UndoReady(s, open[i]) && watched(open[i].slot))
    && (forall i, j :: 0 <= i < j < |open| ==> open[i].cid != open[j].cid)
    && (forall slot :: watched(slot) ==> Chain(open, slot, base, s.device))
  }

  /** The change is open, and none applied later is open on its slot. */
  predicate IsLatest(open: seq<Frame>, cid: string) {
    exists i :: 0 <= i < |open| && open[i].cid == cid && forall j :: i < j < |open| ==> open[j].slot != open[i].slot
  }

  function Removed(open: seq<Frame>, cid: string): seq<Frame> {
    if open == [] then [] else
      var front, last := open[..|open| - 1], open[|open| - 1];
      if last.cid == cid then front else Removed(front, cid) + [last]
  }

  /** The slot that applying the change writes. */
  function ForwardSlot(s: State, cid: string, write: WriteReply): Slot
    requires cid in s.records && s.records[cid].device in s.vdoms
  {
    WrittenSlot(RecordAddress(s, s.records[cid]), s.records[cid].op, s.records[cid].resourceId, write)
  }

  /** The slot that rolling the change back writes. */
  function BackSlot(s: State, cid: string, write: WriteReply): Slot
    requires cid in s.records && s.records[cid].device in s.vdoms
  {
    var r := s.records[cid];
    WrittenSlot(RecordAddress(s, r), InverseOp(r.op), InverseId(r), write)
  }

  /** The step is a successful apply or rollback that writes a watched slot or resolves an open change. */
  predicate Concerns(watched: Slot -> bool, s: State, open: seq<Frame>, step: Step) {
    match step
    case Apply(cid, read, write) => ApplyStep(s, cid, read, write).1.Ok? && watched(ForwardSlot(s, cid, write))
    case Rollback(cid, write) =>
      RollbackStep(s, cid, write).1.Ok?
      && (watched(BackSlot(s, cid, write)) || exists i :: 0 <= i < |open| && open[i].cid == cid)
    case _ => false
  }

  /**
   Outside edits leave the watched slots alone; what is applied to them is undoable; what is rolled
   back is the latest open change of its slot. Changes of different slots may be rolled back in any
   order, and everything done to slots not watched is unrestricted.
   */
  ghost predicate Disciplined(watched: Slot -> bool, s: State, open: seq<Frame>, step: Step) {
    match step
    case OutsideEdit(device) => forall slot :: watched(slot) ==> Live(device, slot) == Live(s.device, slot)
    case Apply(cid, read, write) => Concerns(watched, s, open, step) ==> Undoable(s, cid, read, write)
    case Rollback(cid, write) =>
      Concerns(watched, s, open, step) ==> IsLatest(open, cid) && SameKey(s.records[cid], write)
    case _ => true
  }

  function OpenNext(watched: Slot -> bool, s: State, open: seq<Frame>, step: Step): seq<Frame> {
    if !Concerns(watched, s, open, step) then open
    else if step.Apply? then open + [Frame(step.cid, SlotOf(Next(s, step), step.cid), s.device, Next(s, step).device)]
    else Removed(open, step.cid)
  }

  ghost predicate DisciplinedRun(watched: Slot -> bool, s: State, open: seq<Frame>, steps: seq<Step>)
    decreases |steps|
  {
    steps == [] || (Disciplined(watched, s, open, steps[0])
                    && DisciplinedRun(watched, Next(s, steps[0]), OpenNext(watched, s, open, steps[0]), steps[1..]))
  }

  /** The changes still open after the run. */
  function OpenAfter(watched: Slot -> bool, s: State, open: seq<Frame>, steps: seq<Step>): seq<Frame>
    decreases |steps|
  {
    if steps == [] then open
    else OpenAfter(watched, Next(s, steps[0]), OpenNext(watched, s, open, steps[0]), steps[1..])
  }

  // ---- Chains ----------------------------------------------------------------------------------------

  lemma {:induction false} ChainDepends(open: seq<Frame>, slot: Slot, base: Device, d: Device, e: Device)
    requires Chain(open, slot, base, d) && Live(d, slot) == Live(e, slot)
    ensures Chain(open, slot, base, e)
    decreases |open|
  {
    hide Live;
    if open != [] && open[|open| - 1].slot != slot { ChainDepends(open[..|open| - 1], slot, base, d, e); }
  }

  /** The latest change of its slot left there what is there now. */
  lemma {:induction false} ChainTop(open: seq<Frame>, i: nat, base: Device, device: Device)
    requires i < |open| && forall j :: i < j < |open| ==> open[j].slot != open[i].slot
    requires Chain(open, open[i].slot, base, device)
    ensures Live(device, open[i].slot) == Live(open[i].post, open[i].slot)
    decreases |open|
  {
    hide Live;
    if i < |open| - 1 { ChainTop(open[..|open| - 1], i, base, device); }
  }

  lemma ChainSnoc(front: seq<Frame>, last: Frame, slot: Slot, base: Device, device: Device)
    ensures Chain(front + [last], slot, base, device)
            <==> if last.slot == slot
                 then Live(device, slot) == Live(last.post, slot) && Chain(front, slot, base, last.pre)
                 else Chain(front, slot, base, device)
  {
    assert (front + [last])[..|front|] == front;
  }

  /** Undoing the latest change of its slot takes it out of the chain. */
  lemma {:induction false} ChainRemove(open: seq<Frame>, i: nat, slot: Slot, base: Device, d: Device, e: Device)
    requires i < |open| && forall j :: i < j < |open| ==> open[j].slot != open[i].slot
    requires Chain(open, slot, base, d)
    requires Live(e, slot) == if slot == open[i].slot then Live(open[i].pre, slot) else Live(d, slot)
    ensures Chain(open[..i] + open[i + 1..], slot, base, e)
    decreases |open|
  {
    hide Live, Chain;
    var n := |open| - 1;
    var front, last := open[..n], open[n];
    assert open == front + [last];
    ChainSnoc(front, last, slot, base, d);
    if i == n {
      assert open[..i] + open[i + 1..] == front;
      ChainDepends(front, slot, base, if slot == last.slot then last.pre else d, e);
    } else {
      var front' := front[..i] + front[i + 1..];
      assert open[..i] + open[i + 1..] == front' + [last];
      ChainSnoc(front', last, slot, base, e);
      if last.slot == slot {
        ChainRemove(front, i, slot, base, last.pre, last.pre);
      } else {
        ChainRemove(front, i, slot, base, d, e);
      }
    }
  }

  lemma {:induction false} RemovedAt(open: seq<Frame>, cid: string, i: nat)
    requires i < |open| && open[i].cid == cid
    requires forall j, k :: 0 <= j < k < |open| ==> open[j].cid != open[k].cid
    ensures Removed(open, cid) == open[..i] + open[i + 1..]
  {
    var n := |open| - 1;
    if i < n {
      RemovedAt(open[..n], cid, i);
      assert open[..i] + open[i + 1..] == open[..n][..i] + open[..n][i + 1..] + [open[n]];
    }
  }

  // ---- Each step keeps the chains ----------------------------------------------------------------------

  /** A frame stays ready as long as its record stays as it is. */
  lemma StaysReady(s: State, s': State, f: Frame)
    requires UndoReady(s, f)
    requires f.cid in s'.records && s'.records[f.cid] == s.records[f.cid] && s'.put == s.put && s'.vdoms == s.vdoms
    ensures UndoReady(s', f)
  {
    hide Execute, SameKey, InverseData;
  }

  /** What every successful apply leaves alone. */
  lemma AppliedFrame(s: State, cid: string, read: ReadReply, write: WriteReply)
    requires ApplyStep(s, cid, read, write).1.Ok?
    ensures var s' := ApplyStep(s, cid, read, write).0;
            && cid in s.records && s.records[cid].status == Proposed && s.records[cid].device in s.vdoms
            && s'.put == s.put && s'.vdoms == s.vdoms
            && cid in s'.records && s'.records == s.records[cid := s'.records[cid]]
            && forall x :: x != ForwardSlot(s, cid, write) ==> Live(s'.device, x) == Live(s.device, x)
  {
    hide Canonical, Restore, DiffOf, FetchCurrent, Captures, Supports, Known, SlotAt, ExtractCreatedId;
    var r := s.records[cid];
    var at := RecordAddress(s, r);
    assert Execute(s.device, s.put, at, r.op, r.resourceId, Restore(r.after), write).Ok?;
    ExecuteIsLocal(s.device, s.device, s.put, at, r.op, r.resourceId, Restore(r.after), write);
  }

  lemma AppliedShape(s: State, cid: string, read: ReadReply, write: WriteReply)
    requires ApplyStep(s, cid, read, write).1.Ok? && Undoable(s, cid, read, write)
    ensures var s' := ApplyStep(s, cid, read, write).0;
            && cid in s.records && s.records[cid].status == Proposed
            && cid in s'.records && s'.records[cid].device in s'.vdoms
            && s'.records[cid].status == Applied && s'.records[cid].op == s.records[cid].op
            && s'.put == s.put && s'.vdoms == s.vdoms
            && (s.records[cid].op == Create ==> s'.records[cid].resourceId.Some?)
            && (s.records[cid].op != Create ==> s'.records[cid].resourceId == s.records[cid].resourceId)
            && s'.records == s.records[cid := s'.records[cid]]
            && s.records[cid].device in s.vdoms && SlotOf(s', cid) == ForwardSlot(s, cid, write)
  {
    hide Canonical, Restore, DiffOf, FetchCurrent, Captures, ExtractCreatedId, Body, Write, Supports;
  }

  lemma ReadyFor(s: State, cid: string, read: ReadReply, write: WriteReply, undo: WriteReply)
    requires ApplyStep(s, cid, read, write).1.Ok? && Undoable(s, cid, read, write)
    ensures var s' := ApplyStep(s, cid, read, write).0;
            var r := s'.records[cid];
            && r.device in s'.vdoms
            && (SameKey(r, undo) ==>
                  match Execute(s'.device, s'.put, RecordAddress(s', r), InverseOp(r.op), InverseId(r), InverseData(r),
                                undo)
                  case Ok((device, _)) => device == s.device
                  case Err(_) => true)
  {
    AppliedShape(s, cid, read, write);
    hide Canonical, Restore, DiffOf, FetchCurrent, Captures, ExtractCreatedId, Body, Write, Supports, ApplyStep,
         Undoable, WillRestore, InverseData;
    var s' := ApplyStep(s, cid, read, write).0;
    var r := s'.records[cid];
    if SameKey(r, undo)
       && Execute(s'.device, s'.put, RecordAddress(s', r), InverseOp(r.op), InverseId(r), InverseData(r), undo).Ok?
    {
      assert SameKey(s.records[cid], undo);
      UndoableWillRestore(s, cid, read, write, undo);
      assert RollbackStep(s', cid, undo).1.Ok?;
      RollbackRestoresIff(s, cid, read, write, s', undo);
    }
  }

  lemma ApplyMakesReady(s: State, cid: string, read: ReadReply, write: WriteReply)
    requires ApplyStep(s, cid, read, write).1.Ok? && Undoable(s, cid, read, write)
    ensures var s' := ApplyStep(s, cid, read, write).0;
            && cid in s'.records && s'.records[cid].device in s'.vdoms
            && UndoReady(s', Frame(cid, SlotOf(s', cid), s.device, s'.device))
  {
    var s' := ApplyStep(s, cid, read, write).0;
    AppliedShape(s, cid, read, write);
    hide ApplyStep, Undoable, SlotOf, Execute, InverseData, InverseId, InverseOp, SameKey;
    var r := s'.records[cid];
    var at := RecordAddress(s', r);
    forall undo | SameKey(r, undo)
      ensures match Execute(s'.device, s'.put, at, InverseOp(r.op), InverseId(r), InverseData(r), undo)
              case Ok((device, _)) => device == s.device
              case Err(_) => true
    {
      ReadyFor(s, cid, read, write, undo);
    }
  }

  lemma PushedChains(watched: Slot -> bool, s: State, s': State, base: Device, open: seq<Frame>, f: Frame)
    requires OpenOk(watched, s, base, open) && f.pre == s.device && f.post == s'.device && watched(f.slot)
    requires forall x :: x != f.slot ==> Live(s'.device, x) == Live(s.device, x)
    requires UndoReady(s', f)
    requires forall i :: 0 <= i < |open| ==> UndoReady(s', open[i]) && open[i].cid != f.cid
    ensures OpenOk(watched, s', base, open + [f])
  {
    hide UndoReady, Live;
    forall slot | watched(slot) ensures Chain(open + [f], slot, base, s'.device) {
      assert (open + [f])[..|open|] == open;
      assert Chain(open, slot, base, s.device);
      if slot != f.slot { ChainDepends(open, slot, base, s.device, s'.device); }
    }
  }

  lemma InRecords(s: State, f: Frame)
    requires UndoReady(s, f)
    ensures f.cid in s.records && s.records[f.cid].status == Applied && s.records[f.cid].device in s.vdoms
    ensures f.slot == SlotOf(s, f.cid)
  {
    hide Execute;
  }

  lemma PushKeepsChains(watched: Slot -> bool, s: State, base: Device, open: seq<Frame>, cid: string,
                        read: ReadReply, write: WriteReply)
    requires OpenOk(watched, s, base, open) && Concerns(watched, s, open, Apply(cid, read, write))
    requires Undoable(s, cid, read, write)
    ensures OpenOk(watched, ApplyStep(s, cid, read, write).0, base,
                   OpenNext(watched, s, open, Apply(cid, read, write)))
  {
    AppliedShape(s, cid, read, write);
    AppliedFrame(s, cid, read, write);
    ApplyMakesReady(s, cid, read, write);
    hide ApplyStep, Undoable, UndoReady, SlotOf, ForwardSlot, Chain;
    var s' := ApplyStep(s, cid, read, write).0;
    forall i | 0 <= i < |open| ensures UndoReady(s', open[i]) && open[i].cid != cid {
      InRecords(s, open[i]);
      StaysReady(s, s', open[i]);
    }
    PushedChains(watched, s, s', base, open, Frame(cid, SlotOf(s', cid), s.device, s'.device));
  }

  lemma RolledBackShape(s: State, cid: string, undo: WriteReply)
    requires RollbackStep(s, cid, undo).1.Ok?
    ensures var s' := RollbackStep(s, cid, undo).0;
            && cid in s.records && s.records[cid].status == Applied && s.records[cid].device in s.vdoms
            && s'.put == s.put && s'.vdoms == s.vdoms
            && cid in s'.records && s'.records == s.records[cid := s'.records[cid]]
            && var r := s.records[cid];
               var result := Execute(s.device, s.put, RecordAddress(s, r), InverseOp(r.op), InverseId(r),
                                     InverseData(r), undo);
               undo.Accepts? && result.Ok? && s'.device == result.value.0
  {
    hide Write, InverseData, InverseId, InverseOp, Supports;
  }

  /** The inverse of a change writes the slot the change wrote. */
  lemma InverseSlot(s: State, cid: string, undo: WriteReply)
    requires cid in s.records && s.records[cid].device in s.vdoms && undo.Accepts? && SameKey(s.records[cid], undo)
    ensures var r := s.records[cid];
            WrittenSlot(RecordAddress(s, r), InverseOp(r.op), InverseId(r), undo) == SlotOf(s, cid)
  {
  }

  lemma RolledBackSlot(s: State, f: Frame, undo: WriteReply)
    requires UndoReady(s, f) && Live(s.device, f.slot) == Live(f.post, f.slot)
    requires SameKey(s.records[f.cid], undo) && RollbackStep(s, f.cid, undo).1.Ok?
    ensures var s' := RollbackStep(s, f.cid, undo).0;
            forall x :: Live(s'.device, x) == if x == f.slot then Live(f.pre, x) else Live(s.device, x)
  {
    RolledBackShape(s, f.cid, undo);
    InverseSlot(s, f.cid, undo);
    hide RollbackStep, SlotOf, Execute, InverseData, InverseId, InverseOp, SameKey, Live, WrittenSlot;
    var r := s.records[f.cid];
    ExecuteIsLocal(s.device, f.post, s.put, RecordAddress(s, r), InverseOp(r.op), InverseId(r), InverseData(r), undo);
  }

  lemma PoppedChains(watched: Slot -> bool, s: State, s': State, base: Device, open: seq<Frame>, i: nat)
    requires OpenOk(watched, s, base, open) && i < |open|
    requires forall j :: i < j < |open| ==> open[j].slot != open[i].slot
    requires forall x ::
               Live(s'.device, x) == if x == open[i].slot then Live(open[i].pre, x) else Live(s.device, x)
    requires forall k :: 0 <= k < |open| && k != i ==> UndoReady(s', open[k])
    ensures OpenOk(watched, s', base, open[..i] + open[i + 1..])
  {
    hide UndoReady, Chain, Live;
    var rest := open[..i] + open[i + 1..];
    forall slot | watched(slot) ensures Chain(rest, slot, base, s'.device) {
      assert Chain(open, slot, base, s.device);
      ChainRemove(open, i, slot, base, s.device, s'.device);
    }
    assert forall k :: 0 <= k < |rest| ==> rest[k] == open[if k < i then k else k + 1];
  }

  lemma PopKeepsChains(watched: Slot -> bool, s: State, base: Device, open: seq<Frame>, cid: string, undo: WriteReply)
    requires OpenOk(watched, s, base, open) && RollbackStep(s, cid, undo).1.Ok?
    requires IsLatest(open, cid) && SameKey(s.records[cid], undo)
    ensures OpenOk(watched, RollbackStep(s, cid, undo).0, base, Removed(open, cid))
  {
    var i :| 0 <= i < |open| && open[i].cid == cid && forall j :: i < j < |open| ==> open[j].slot != open[i].slot;
    RolledBackShape(s, cid, undo);
    hide RollbackStep, UndoReady, Chain, Execute, SameKey, Live, Removed, InverseOp, InverseId, InverseData;
    var s' := RollbackStep(s, cid, undo).0;
    RemovedAt(open, cid, i);
    assert Chain(open, open[i].slot, base, s.device);
    ChainTop(open, i, base, s.device);
    RolledBackSlot(s, open[i], undo);
    forall k | 0 <= k < |open| && k != i ensures UndoReady(s', open[k]) {
      InRecords(s, open[k]);
      StaysReady(s, s', open[k]);
    }
    PoppedChains(watched, s, s', base, open, i);
  }

  lemma RolledBackFrame(s: State, cid: string, undo: WriteReply)
    requires RollbackStep(s, cid, undo).1.Ok?
    ensures var s' := RollbackStep(s, cid, undo).0;
            && cid in s.records && s.records[cid].device in s.vdoms
            && forall x :: x != BackSlot(s, cid, undo) ==> Live(s'.device, x) == Live(s.device, x)
  {
    RolledBackShape(s, cid, undo);
    hide RollbackStep, Execute, InverseData, InverseId, InverseOp, Live, WrittenSlot;
    var r := s.records[cid];
    ExecuteIsLocal(s.device, s.device, s.put, RecordAddress(s, r), InverseOp(r.op), InverseId(r), InverseData(r), undo);
  }

  /** Any other step: the watched slots and the records of the open changes stay as they are. */
  ghost predicate Aside(watched: Slot -> bool, s: State, s': State, open: seq<Frame>) {
    && s'.put == s.put && s'.vdoms == s.vdoms
    && (forall x :: watched(x) ==> Live(s'.device, x) == Live(s.device, x))
    && (forall i :: 0 <= i < |open| && open[i].cid in s.records && s.records[open[i].cid].status == Applied ==>
          open[i].cid in s'.records && s'.records[open[i].cid] == s.records[open[i].cid])
  }

  lemma QuietShape(s: State, step: Step)
    requires match step
             case OutsideEdit(_) => false
             case Apply(cid, read, write) => ApplyStep(s, cid, read, write).1.Err?
             case Rollback(cid, write) => RollbackStep(s, cid, write).1.Err?
             case _ => true
    ensures var s' := Next(s, step);
            && s'.device == s.device && s'.put == s.put && s'.vdoms == s.vdoms
            && forall c :: c in s.records && s.records[c].status == Applied ==>
                             c in s'.records && s'.records[c] == s.records[c]
  {
    hide Canonical, Restore, DiffOf, FetchCurrent, Captures, ExtractCreatedId, Execute;
  }

  lemma UnconcernedIsAside(watched: Slot -> bool, s: State, open: seq<Frame>, step: Step)
    requires Disciplined(watched, s, open, step) && !Concerns(watched, s, open, step)
    ensures Aside(watched, s, Next(s, step), open)
  {
    hide ApplyStep, RollbackStep, PreviewStep, Live, ForwardSlot, BackSlot, SameKey, Undoable, IsLatest;
    match step
    case Apply(cid, read, write) =>
      if ApplyStep(s, cid, read, write).1.Ok? { AppliedFrame(s, cid, read, write); } else { QuietShape(s, step); }
    case Rollback(cid, write) =>
      if RollbackStep(s, cid, write).1.Ok? {
        RolledBackShape(s, cid, write);
        RolledBackFrame(s, cid, write);
      } else {
        QuietShape(s, step);
      }
    case OutsideEdit(_) =>
    case _ => QuietShape(s, step);
  }

  lemma AsideKeepsChains(watched: Slot -> bool, s: State, s': State, base: Device, open: seq<Frame>)
    requires OpenOk(watched, s, base, open) && Aside(watched, s, s', open)
    ensures OpenOk(watched, s', base, open)
  {
    hide UndoReady, Live;
    forall i | 0 <= i < |open| ensures UndoReady(s', open[i]) {
      InRecords(s, open[i]);
      StaysReady(s, s', open[i]);
    }
    forall slot | watched(slot) ensures Chain(open, slot, base, s'.device) {
      assert Chain(open, slot, base, s.device);
      ChainDepends(open, slot, base, s.device, s'.device);
    }
  }

  lemma StepKeepsChains(watched: Slot -> bool, s: State, base: Device, open: seq<Frame>, step: Step)
    requires OpenOk(watched, s, base, open) && Disciplined(watched, s, open, step)
    ensures OpenOk(watched, Next(s, step), base, OpenNext(watched, s, open, step))
  {
    hide ApplyStep, RollbackStep, PreviewStep, OpenOk, SameKey, Undoable, IsLatest, Removed, ForwardSlot, BackSlot,
         Aside;
    if !Concerns(watched, s, open, step) {
      UnconcernedIsAside(watched, s, open, step);
      AsideKeepsChains(watched, s, Next(s, step), base, open);
    } else if step.Apply? {
      PushKeepsChains(watched, s, base, open, step.cid, step.read, step.write);
    } else {
      PopKeepsChains(watched, s, base, open, step.cid, step.write);
    }
  }

  /** Over any disciplined run each watched slot keeps the chain of its open changes to its object at the start. */
  lemma {:induction false} DisciplinedRunKeepsChains(watched: Slot -> bool, s: State, base: Device, open: seq<Frame>,
                                                     steps: seq<Step>)
    requires OpenOk(watched, s, base, open) && DisciplinedRun(watched, s, open, steps)
    ensures OpenOk(watched, Run(s, steps), base, OpenAfter(watched, s, open, steps))
    decreases |steps|
  {
    hide Next, OpenNext, OpenOk, Disciplined;
    if steps != [] {
      StepKeepsChains(watched, s, base, open, steps[0]);
      DisciplinedRunKeepsChains(watched, Next(s, steps[0]), base, OpenNext(watched, s, open, steps[0]), steps[1..]);
    }
  }

  lemma {:induction false} ChainWithoutFrames(open: seq<Frame>, slot: Slot, base: Device, device: Device)
    requires Chain(open, slot, base, device)
    requires forall i :: 0 <= i < |open| ==> open[i].slot != slot
    ensures Live(device, slot) == Live(base, slot)
    decreases |open|
  {
    hide Live;
    if open != [] { ChainWithoutFrames(open[..|open| - 1], slot, base, device); }
  }

  lemma StartOk(watched: Slot -> bool, s: State)
    ensures OpenOk(watched, s, s.device, [])
  {
  }

  /**
   Once all changes of a watched slot are rolled back it holds what it held at the start, whatever
   is still open on other watched slots, and whatever changes and outside edits did to slots that
   are not watched. Watching one slot gives the claim for that slot alone.
   */
  lemma UndoneSlotIsRestored(watched: Slot -> bool, s: State, steps: seq<Step>, slot: Slot)
    requires DisciplinedRun(watched, s, [], steps) && watched(slot)
    requires forall f :: f in OpenAfter(watched, s, [], steps) ==> f.slot != slot
    ensures Live(Run(s, steps).device, slot) == Live(s.device, slot)
  {
    hide Next, OpenNext, Disciplined, UndoReady, Live;
    StartOk(watched, s);
    DisciplinedRunKeepsChains(watched, s, s.device, [], steps);
    var open := OpenAfter(watched, s, [], steps);
    assert forall i :: 0 <= i < |open| ==> open[i] in open;
    ChainWithoutFrames(open, slot, s.device, Run(s, steps).device);
  }

  /** Every slot is watched: no outside edits change anything. */
  const EVERYWHERE: Slot -> bool := slot => true

  /** Whenever every change of a disciplined run has been rolled back, the device is what it was at the start. */
  lemma AllUndoneRestoresDevice(s: State, steps: seq<Step>)
    requires DisciplinedRun(EVERYWHERE, s, [], steps) && OpenAfter(EVERYWHERE, s, [], steps) == []
    ensures Run(s, steps).device == s.device
  {
    hide Next, OpenNext, Disciplined, Live;
    forall slot ensures Live(Run(s, steps).device, slot) == Live(s.device, slot) {
      UndoneSlotIsRestored(EVERYWHERE, s, steps, slot);
    }
    SameEverywhere(Run(s, steps).device, s.device);
  }

  // ---- Apply a list of changes, then roll all of them back in reverse ----------------------------------

  /** One change: how its apply and its rollback are answered. */
  datatype Call = Call(cid: string, read: ReadReply, write: WriteReply, undo: WriteReply)

  function Applies(calls: seq<Call>): seq<Step> {
    if calls == [] then [] else [Apply(calls[0].cid, calls[0].read, calls[0].write)] + Applies(calls[1..])
  }

  function Rollbacks(calls: seq<Call>): seq<Step> {
    if calls == [] then [] else Rollbacks(calls[1..]) + [Rollback(calls[0].cid, calls[0].undo)]
  }

  predicate Succeeds(s: State, step: Step) {
    match step
    case Apply(cid, read, write) => ApplyStep(s, cid, read, write).1.Ok?
    case Rollback(cid, write) => RollbackStep(s, cid, write).1.Ok?
    case _ => true
  }

  predicate AllSucceed(s: State, steps: seq<Step>)
    decreases |steps|
  {
    steps == [] || (Succeeds(s, steps[0]) && AllSucceed(Next(s, steps[0]), steps[1..]))
  }

  /** Each change is undoable where it is applied, and its object comes back under its old id. */
  predicate UndoableAlong(s: State, calls: seq<Call>)
    decreases |calls|
  {
    calls == [] ||
    (var c := calls[0];
     && c.cid in s.records && s.records[c.cid].device in s.vdoms
     && Undoable(s, c.cid, c.read, c.write) && SameKey(s.records[c.cid], c.undo)
     && UndoableAlong(Next(s, Apply(c.cid, c.read, c.write)), calls[1..]))
  }

  lemma {:induction false} AllSucceedConcat(s: State, a: seq<Step>, b: seq<Step>)
    ensures AllSucceed(s, a + b) <==> AllSucceed(s, a) && AllSucceed(Run(s, a), b)
    decreases |a|
  {
    hide Next, Succeeds;
    if a == [] {
      assert a + b == b;
    } else {
      assert (a + b)[1..] == a[1..] + b;
      AllSucceedConcat(Next(s, a[0]), a[1..], b);
    }
  }

  lemma {:induction false} DisciplinedConcat(watched: Slot -> bool, s: State, open: seq<Frame>, a: seq<Step>,
                                             b: seq<Step>)
    ensures var s1, open1 := Run(s, a), OpenAfter(watched, s, open, a);
            && (DisciplinedRun(watched, s, open, a + b)
                <==> DisciplinedRun(watched, s, open, a) && DisciplinedRun(watched, s1, open1, b))
            && OpenAfter(watched, s, open, a + b) == OpenAfter(watched, s1, open1, b)
    decreases |a|
  {
    hide Next, Disciplined, OpenNext;
    if a == [] {
      assert a + b == b;
    } else {
      assert (a + b)[1..] == a[1..] + b;
      DisciplinedConcat(watched, Next(s, a[0]), OpenNext(watched, s, open, a[0]), a[1..], b);
    }
  }

  lemma Unfolded(calls: seq<Call>)
    requires calls != []
    ensures Applies(calls) + Rollbacks(calls)
         == [Apply(calls[0].cid, calls[0].read, calls[0].write)]
            + (Applies(calls[1..]) + Rollbacks(calls[1..]) + [Rollback(calls[0].cid, calls[0].undo)])
  {
  }

  /** The closing rollback of a nested run pops exactly the frame its apply pushed. */
  lemma ClosingRollback(s: State, call: Call, mid: State, open: seq<Frame>)
    requires ApplyStep(s, call.cid, call.read, call.write).1.Ok?
    requires Undoable(s, call.cid, call.read, call.write) && SameKey(s.records[call.cid], call.undo)
    ensures var last := Rollback(call.cid, call.undo);
            && open != [] && open[|open| - 1].cid == call.cid
            && call.cid in mid.records && Succeeds(mid, last)
            && call.cid in ApplyStep(s, call.cid, call.read, call.write).0.records
            && Evolves(ApplyStep(s, call.cid, call.read, call.write).0.records[call.cid], mid.records[call.cid]) ==>
              Disciplined(EVERYWHERE, mid, open, last) && OpenNext(EVERYWHERE, mid, open, last) == open[..|open| - 1]
  {
    AppliedShape(s, call.cid, call.read, call.write);
    hide ApplyStep, RollbackStep, Undoable;
  }

  lemma {:induction false} NestedRunReturns(s: State, open: seq<Frame>, calls: seq<Call>)
    requires UndoableAlong(s, calls) && AllSucceed(s, Applies(calls) + Rollbacks(calls))
    ensures DisciplinedRun(EVERYWHERE, s, open, Applies(calls) + Rollbacks(calls))
    ensures OpenAfter(EVERYWHERE, s, open, Applies(calls) + Rollbacks(calls)) == open
    decreases |calls|
  {
    if calls != [] {
      hide ApplyStep, RollbackStep, Undoable, SameKey, Evolves;
      var c := calls[0];
      var first, last := Apply(c.cid, c.read, c.write), Rollback(c.cid, c.undo);
      var inner := Applies(calls[1..]) + Rollbacks(calls[1..]);
      var all := Applies(calls) + Rollbacks(calls);
      Unfolded(calls);
      assert all[0] == first && all[1..] == inner + [last];
      var s1, open1 := Next(s, first), OpenNext(EVERYWHERE, s, open, first);
      assert Succeeds(s, first);
      assert AllSucceed(s1, inner + [last]);
      AllSucceedConcat(s1, inner, [last]);
      NestedRunReturns(s1, open1, calls[1..]);
      var mid := Run(s1, inner);
      assert Succeeds(mid, last) by { assert [last][0] == last; assert AllSucceed(mid, [last]); }
      AppliedShape(s, c.cid, c.read, c.write);
      RecordsOnlyEvolve(s1, inner, c.cid);
      ClosingRollback(s, c, mid, open1);
      DisciplinedConcat(EVERYWHERE, s1, open1, inner, [last]);
      assert DisciplinedRun(EVERYWHERE, mid, open1, [last]) && OpenAfter(EVERYWHERE, mid, open1, [last]) == open by {
        assert [last][0] == last && [last][1..] == [];
        assert open1[..|open1| - 1] == open;
      }
    }
  }

  /**
   Applying any list of undoable changes and then rolling all of them back in reverse order
   returns every device to exactly what it was.
   */
  lemma {:induction false} ApplyAllRollBackAll(s: State, calls: seq<Call>)
    requires UndoableAlong(s, calls) && AllSucceed(s, Applies(calls) + Rollbacks(calls))
    ensures Run(s, Applies(calls) + Rollbacks(calls)).device == s.device
  {
    NestedRunReturns(s, [], calls);
    AllUndoneRestoresDevice(s, Applies(calls) + Rollbacks(calls));
  }

  // ---- Changes of different slots, rolled back in any order -------------------------------------------

  function RollbacksIn(order: seq<Call>): seq<Step> {
    if order == [] then [] else [Rollback(order[0].cid, order[0].undo)] + RollbacksIn(order[1..])
  }

  predicate DifferentSlots(open: seq<Frame>) {
    forall i, j :: 0 <= i < j < |open| ==> open[i].slot != open[j].slot
  }

  function FrameCids(open: seq<Frame>): seq<string> {
    seq(|open|, i requires 0 <= i < |open| => open[i].cid)
  }

  function CallCids(calls: seq<Call>): seq<string> {
    seq(|calls|, i requires 0 <= i < |calls| => calls[i].cid)
  }

  predicate DifferentFrames(open: seq<Frame>) {
    forall i, j :: 0 <= i < j < |open| ==> open[i].cid != open[j].cid
  }

  predicate DifferentCalls(calls: seq<Call>) {
    forall i, j :: 0 <= i < j < |calls| ==> calls[i].cid != calls[j].cid
  }

  function CidsOf(open: seq<Frame>): set<string> {
    set f | f in open :: f.cid
  }

  function CidsIn(calls: seq<Call>): set<string> {
    set c | c in calls :: c.cid
  }

  lemma SameKeyEvolves(r: Record, r': Record, undo: WriteReply)
    requires Evolves(r, r') && SameKey(r, undo)
    ensures SameKey(r', undo)
  {
  }

  lemma CidsGrow(open: seq<Frame>, f: Frame, calls: seq<Call>)
    ensures FrameCids(open + [f]) == FrameCids(open) + [f.cid]
    ensures calls != [] ==> CallCids(calls) == [calls[0].cid] + CallCids(calls[1..])
  {
  }

  lemma OpenGrows(s: State, open: seq<Frame>, call: Call) returns (f: Frame)
    requires ApplyStep(s, call.cid, call.read, call.write).1.Ok?
    ensures f.cid == call.cid && OpenNext(EVERYWHERE, s, open, Apply(call.cid, call.read, call.write)) == open + [f]
  {
    var open' := OpenNext(EVERYWHERE, s, open, Apply(call.cid, call.read, call.write));
    f := open'[|open|];
  }

  lemma AppliesHead(s: State, open: seq<Frame>, calls: seq<Call>)
    requires calls != [] && UndoableAlong(s, calls) && AllSucceed(s, Applies(calls))
    ensures var c := calls[0];
            var first := Apply(c.cid, c.read, c.write);
            && Applies(calls)[0] == first && Applies(calls)[1..] == Applies(calls[1..])
            && ApplyStep(s, c.cid, c.read, c.write).1.Ok? && Disciplined(EVERYWHERE, s, open, first)
            && UndoableAlong(Next(s, first), calls[1..]) && AllSucceed(Next(s, first), Applies(calls[1..]))
  {
    hide Next, ApplyStep, Undoable, SameKey;
    var c := calls[0];
    assert Applies(calls)[0] == Apply(c.cid, c.read, c.write) && Applies(calls)[1..] == Applies(calls[1..]);
    assert Succeeds(s, Applies(calls)[0]);
  }

  lemma Regrouped(a: seq<string>, x: string, b: seq<string>)
    ensures a + [x] + b == a + ([x] + b)
  {
  }

  /** Applying the list opens its changes, in order. */
  lemma {:induction false} AppliesOpen(s: State, open: seq<Frame>, calls: seq<Call>)
    requires UndoableAlong(s, calls) && AllSucceed(s, Applies(calls))
    ensures DisciplinedRun(EVERYWHERE, s, open, Applies(calls))
    ensures FrameCids(OpenAfter(EVERYWHERE, s, open, Applies(calls))) == FrameCids(open) + CallCids(calls)
    decreases |calls|
  {
    if calls != [] {
      AppliesHead(s, open, calls);
      hide Next, OpenNext, FrameCids, CallCids, ApplyStep, Disciplined, UndoableAlong, AllSucceed, Applies;
      var c := calls[0];
      var f := OpenGrows(s, open, c);
      CidsGrow(open, f, calls);
      AppliesOpen(Next(s, Apply(c.cid, c.read, c.write)), open + [f], calls[1..]);
      Regrouped(FrameCids(open), c.cid, CallCids(calls[1..]));
    }
  }

  /** What the rollbacks need to know about their records is still so after the applies. */
  lemma {:induction false} AppliesKeepKeys(s: State, calls: seq<Call>, c: Call)
    requires UndoableAlong(s, calls) && c in calls
    ensures var t := Run(s, Applies(calls)); c.cid in t.records && SameKey(t.records[c.cid], c.undo)
    decreases |calls|
  {
    hide Next, Undoable, SameKey, Evolves;
    var first := calls[0];
    assert Applies(calls)[1..] == Applies(calls[1..]);
    if c == first {
      RecordsOnlyEvolve(s, Applies(calls), c.cid);
      SameKeyEvolves(s.records[c.cid], Run(s, Applies(calls)).records[c.cid], c.undo);
    } else {
      AppliesKeepKeys(Next(s, Apply(first.cid, first.read, first.write)), calls[1..], c);
    }
  }

  lemma CidsOfConcat(a: seq<Frame>, b: seq<Frame>)
    ensures CidsOf(a + b) == CidsOf(a) + CidsOf(b)
  {
    assert forall f :: f in a + b <==> f in a || f in b;
  }

  lemma WithoutOneCids(open: seq<Frame>, i: nat)
    requires DifferentFrames(open) && i < |open|
    ensures CidsOf(open[..i] + open[i + 1..]) == CidsOf(open) - {open[i].cid}
  {
    var pre, f, post := open[..i], open[i], open[i + 1..];
    assert forall g :: g in pre ==> g.cid != f.cid;
    assert forall g :: g in post ==> g.cid != f.cid;
    assert open == pre + [f] + post;
    CidsOfConcat(pre, [f]);
    CidsOfConcat(pre + [f], post);
    CidsOfConcat(pre, post);
  }

  lemma WithoutOne(open: seq<Frame>, i: nat)
    requires DifferentSlots(open) && DifferentFrames(open) && i < |open|
    ensures var rest := open[..i] + open[i + 1..];
            DifferentSlots(rest) && DifferentFrames(rest) && CidsOf(rest) == CidsOf(open) - {open[i].cid}
  {
    hide CidsOf;
    WithoutOneCids(open, i);
    var rest := open[..i] + open[i + 1..];
    assert forall k :: 0 <= k < |rest| ==> rest[k] == open[if k < i then k else k + 1];
  }

  /** With one open change per slot each of them is the latest of its slot. */
  lemma RemovedOne(open: seq<Frame>, cid: string)
    requires DifferentSlots(open) && DifferentFrames(open) && cid in CidsOf(open)
    ensures IsLatest(open, cid) && DifferentSlots(Removed(open, cid)) && DifferentFrames(Removed(open, cid))
    ensures CidsOf(Removed(open, cid)) == CidsOf(open) - {cid}
  {
    hide Removed, CidsOf;
    var i := OpenIndex(open, cid);
    RemovedAt(open, cid, i);
    WithoutOne(open, i);
  }

  lemma OpenIndex(open: seq<Frame>, cid: string) returns (i: nat)
    requires cid in CidsOf(open)
    ensures i < |open| && open[i].cid == cid
  {
    var f :| f in open && f.cid == cid;
    i :| i < |open| && open[i] == f;
  }

  lemma SomeOpen(open: seq<Frame>)
    ensures open != [] ==> CidsOf(open) != {}
  {
    if open != [] { assert open[0].cid in CidsOf(open); }
  }

  lemma {:induction false} RollbacksCloseAll(s: State, open: seq<Frame>, order: seq<Call>)
    requires forall c :: c in order ==> c.cid in s.records && SameKey(s.records[c.cid], c.undo)
    requires DifferentSlots(open) && DifferentFrames(open) && DifferentCalls(order) && CidsOf(open) == CidsIn(order)
    requires AllSucceed(s, RollbacksIn(order))
    ensures DisciplinedRun(EVERYWHERE, s, open, RollbacksIn(order))
    ensures OpenAfter(EVERYWHERE, s, open, RollbacksIn(order)) == []
    decreases |order|
  {
    hide RollbackStep, SameKey, Evolves, IsLatest, Removed, DifferentSlots, DifferentFrames;
    SomeOpen(open);
    if order != [] {
      var c, rest := order[0], order[1..];
      var first := Rollback(c.cid, c.undo);
      assert RollbacksIn(order)[0] == first && RollbacksIn(order)[1..] == RollbacksIn(rest);
      assert Succeeds(s, first);
      assert c.cid in CidsIn(order);
      RemovedOne(open, c.cid);
      var s1 := Next(s, first);
      forall d | d in rest ensures d.cid in s1.records && SameKey(s1.records[d.cid], d.undo) {
        StepEvolves(s, first, d.cid);
        SameKeyEvolves(s.records[d.cid], s1.records[d.cid], d.undo);
      }
      RestOfCids(order);
      RollbacksCloseAll(s1, Removed(open, c.cid), rest);
    }
  }

  lemma RestOfCids(order: seq<Call>)
    requires order != [] && DifferentCalls(order)
    ensures CidsIn(order[1..]) == CidsIn(order) - {order[0].cid} && DifferentCalls(order[1..])
  {
    assert order == [order[0]] + order[1..];
  }

  lemma CalledOnce(calls: seq<Call>, a: nat)
    requires DifferentCalls(calls) && a < |calls|
    ensures multiset(calls)[calls[a]] == 1
  {
    assert calls == calls[..a] + [calls[a]] + calls[a + 1..];
  }

  lemma CalledTwice(order: seq<Call>, i: nat, j: nat)
    requires i < j < |order| && order[i] == order[j]
    ensures multiset(order)[order[i]] >= 2
  {
    var c := order[i];
    assert order == order[..i] + [c] + order[i + 1..j] + [c] + order[j + 1..];
  }

  lemma PermutedDiffer(calls: seq<Call>, order: seq<Call>, i: nat, j: nat)
    requires multiset(order) == multiset(calls) && DifferentCalls(calls) && i < j < |order|
    ensures order[i].cid != order[j].cid
  {
    assert order[i] in multiset(order) && order[j] in multiset(order);
    var a :| 0 <= a < |calls| && calls[a] == order[i];
    var b :| 0 <= b < |calls| && calls[b] == order[j];
    CalledOnce(calls, a);
    if a == b { CalledTwice(order, i, j); }
  }

  lemma PermutedCids(calls: seq<Call>, order: seq<Call>)
    requires multiset(order) == multiset(calls)
    ensures CidsIn(order) == CidsIn(calls)
  {
    assert forall c :: c in order <==> c in multiset(order);
    assert forall c :: c in calls <==> c in multiset(calls);
  }

  /**
   Applying undoable changes that write different slots and then rolling all of them back, in any
   order, returns every device to exactly what it was.
   */
  lemma {:induction false} ApplyAllRollBackAnyOrder(s: State, calls: seq<Call>, order: seq<Call>)
    requires UndoableAlong(s, calls) && multiset(order) == multiset(calls)
    requires AllSucceed(s, Applies(calls) + RollbacksIn(order))
    requires DifferentSlots(OpenAfter(EVERYWHERE, s, [], Applies(calls)))
    ensures Run(s, Applies(calls) + RollbacksIn(order)).device == s.device
  {
    hide Next, OpenNext, Disciplined, SameKey, Succeeds, UndoReady, Chain, Undoable, UndoableAlong, DifferentSlots;
    var steps, undo := Applies(calls), RollbacksIn(order);
    AllSucceedConcat(s, steps, undo);
    AppliesOpen(s, [], calls);
    var t, open := Run(s, steps), OpenAfter(EVERYWHERE, s, [], steps);
    StartOk(EVERYWHERE, s);
    DisciplinedRunKeepsChains(EVERYWHERE, s, s.device, [], steps);
    SameCids(open, calls);
    PermutedCids(calls, order);
    forall i, j | 0 <= i < j < |order| ensures order[i].cid != order[j].cid { PermutedDiffer(calls, order, i, j); }
    forall c | c in order ensures c.cid in t.records && SameKey(t.records[c.cid], c.undo) {
      assert c in multiset(calls);
      AppliesKeepKeys(s, calls, c);
    }
    RollbacksCloseAll(t, open, order);
    DisciplinedConcat(EVERYWHERE, s, [], steps, undo);
    AllUndoneRestoresDevice(s, steps + undo);
  }

  lemma SameCids(open: seq<Frame>, calls: seq<Call>)
    requires FrameCids(open) == CallCids(calls)
    ensures CidsOf(open) == CidsIn(calls)
    ensures DifferentFrames(open) <==> DifferentCalls(calls)
  {
    assert |open| == |FrameCids(open)| == |CallCids(calls)| == |calls|;
    assert forall k :: 0 <= k < |open| ==> open[k].cid == FrameCids(open)[k] == CallCids(calls)[k] == calls[k].cid;
    forall f | f in open ensures f.cid in CidsIn(calls) {
      var k :| 0 <= k < |open| && open[k] == f;
      assert calls[k] in calls;
    }
    forall c | c in calls ensures c.cid in CidsOf(open) {
      var k :| 0 <= k < |calls| && calls[k] == c;
      assert open[k] in open;
    }
  }
}
