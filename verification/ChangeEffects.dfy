/** What each call does, told from the request that was previewed: refusals in order, records, writes. */
module ChangeEffects {
  import opened Wrappers
  import opened Json
  import opened Diff
  import opened ModePolicy
  import opened ChangeDispatch
  import opened ChangeModel
  import opened ChangeInvariants

  // ---- What is refused, in which order -----------------------------------------------------------------

  /** The mode allows the operation. */
  predicate Allowed(mode: OperatingMode, op: OperationType) {
    mode == Full || (mode == Safe && op != Delete)
  }

  /** What a GET shows: nothing for a type without a getter, without an id, or when it fails. */
  function Shown(req: Request, reply: ReadReply): Json {
    if req.rtype in RESOURCE_OPS && "get" in RESOURCE_OPS[req.rtype] && reply.Returns?
       && (req.resourceId.Some? || RESOURCE_OPS[req.rtype] == {"get", "update"})
    then UnwrapSingle(reply.response)
    else Null
  }

  /** Each refusal of `preview`, with the checks that come before it. */
  lemma PreviewRefusals(s: State, req: Request, cid: string, reply: ReadReply)
    ensures var result := PreviewStep(s, req, cid, reply).1;
            && (result == Err(ModeViolation) <==> !Allowed(s.mode, req.op))
            && (result == Err(UnknownDevice) <==> Allowed(s.mode, req.op) && req.device !in s.vdoms)
            && (result == Err(Dispatch(UnknownType))
                <==> Allowed(s.mode, req.op) && req.device in s.vdoms && req.rtype !in RESOURCE_OPS)
            && (result == Err(NotComparable)
                <==> && Allowed(s.mode, req.op) && req.device in s.vdoms && req.rtype in RESOURCE_OPS
                     && req.op == Update && !(IsDict(Shown(req, reply)) && IsDict(req.proposed)))
            && (result.Ok?
                <==> && Allowed(s.mode, req.op) && req.device in s.vdoms && req.rtype in RESOURCE_OPS
                     && (req.op == Update ==> IsDict(Shown(req, reply)) && IsDict(req.proposed)) && cid !in s.records)
            && (result.Err? ==> PreviewStep(s, req, cid, reply).0 == s)
  {
    hide Canonical, DiffOf;
    TableIff(req.rtype);
    DocumentIs(req.op, Shown(req, reply), req.proposed);
  }

  /** A successful preview records the request, both states and a diff that documents them, for ten minutes. */
  lemma PreviewRecords(s: State, req: Request, cid: string, reply: ReadReply)
    requires PreviewStep(s, req, cid, reply).1.Ok?
    ensures var (s', result) := PreviewStep(s, req, cid, reply);
            var r := result.value;
            && s' == s.(records := s.records[cid := r])
            && r == Record(req.device, req.vdom, req.rtype, req.resourceId, req.op, s.mode, Proposed,
                           Canonical(Shown(req, reply)), Canonical(req.proposed), r.diff, s.now, s.now + 600, None)
            && Documents(req.op, Shown(req, reply), req.proposed, r.diff)
  {
    hide Canonical, Documents, DiffOf;
    TableIff(req.rtype);
    DocumentIs(req.op, Shown(req, reply), req.proposed);
  }

  /** Each refusal of `apply` up to the drift check, with the checks that come before it. */
  lemma ApplyRefusals(s: State, cid: string, read: ReadReply, write: WriteReply)
    ensures var (s', result) := ApplyStep(s, cid, read, write);
            && (result == Err(ChangeNotFound) <==> cid !in s.records)
            && (cid in s.records ==>
                  var r := s.records[cid];
                  && (result == Err(AlreadyResolved(r.status)) <==> r.status != Proposed)
                  && (result == Err(ChangeExpired) <==> r.status == Proposed && s.now > r.expiresAt)
                  && (result == Err(ModeViolation)
                      <==> r.status == Proposed && s.now <= r.expiresAt && !Allowed(s.mode, r.op))
                  && (result == Err(UnknownDevice)
                      <==> && r.status == Proposed && s.now <= r.expiresAt && Allowed(s.mode, r.op)
                           && r.device !in s.vdoms)
                  && (result == Err(ChangeExpired) ==> s' == s.(records := s.records[cid := r.(status := Expired)])))
            && (result.Err? && result != Err(ChangeExpired) ==> s' == s)
  {
    hide Canonical, Restore, Execute, Captures, UnwrapSingle;
  }

  /** A write that got that far fails for one of three reasons. */
  lemma ApplyWriteFails(s: State, cid: string, read: ReadReply, write: WriteReply)
    requires ReachesDriftCheck(s, cid) && ApplyStep(s, cid, read, write).1 != Err(ChangeDrift)
    ensures var r := s.records[cid];
            var result := ApplyStep(s, cid, read, write).1;
            && (result == Err(Dispatch(UnknownType)) <==> r.rtype !in RESOURCE_OPS)
            && (result == Err(Dispatch(UnsupportedOperation))
                <==> r.rtype in RESOURCE_OPS && Verb(r.op) !in RESOURCE_OPS[r.rtype])
            && (r.rtype in RESOURCE_OPS && Verb(r.op) in RESOURCE_OPS[r.rtype] ==>
                  result.Ok? || result == Err(Dispatch(WriteFailed)))
            && (result.Ok? ==> write.Accepts?)
  {
    hide Canonical, Restore, Captures, UnwrapSingle, Write;
    TableIff(s.records[cid].rtype);
  }

  /** Each refusal of `rollback`, none of which looks at the mode, the expiry or the device's state. */
  lemma RollbackRefusals(s: State, cid: string, write: WriteReply)
    ensures var (s', result) := RollbackStep(s, cid, write);
            && (result == Err(ChangeNotFound) <==> cid !in s.records)
            && (cid in s.records ==>
                  var r := s.records[cid];
                  && (result == Err(AlreadyResolved(r.status)) <==> r.status != Applied)
                  && (result == Err(UnknownDevice) <==> r.status == Applied && r.device !in s.vdoms)
                  && (result == Err(RollbackNotPossible)
                      <==> r.status == Applied && r.device in s.vdoms && r.op == Create && r.resourceId.None?))
            && (result.Err? ==> s' == s)
            && (result.Ok? ==> s'.records == s.records[cid := s.records[cid].(status := RolledBack)]
                               && s'.snapshots == s.snapshots)
  {
    hide Canonical, Restore, Execute;
  }

  // ---- What is written ---------------------------------------------------------------------------------

  /** The slot is the one that the request and the id address. */
  predicate InScope(vdoms: map<string, string>, req: Request, id: Option<string>, x: Slot)
    requires req.device in vdoms
  {
    && x.device == req.device && x.rtype == req.rtype
    && (req.rtype in {"vdom", "vdom_link"} ==> x.vdom == None)
    && (req.rtype !in {"vdom", "vdom_link"} && req.vdom.Some? && req.vdom.value != "" ==> x.vdom == req.vdom)
    && (req.rtype !in {"vdom", "vdom_link"} && (req.vdom.None? || req.vdom == Some("")) ==>
          x.vdom == Some(vdoms[req.device]))
    && x.id == if req.rtype in {"dns", "ntp", "syslog", "snmp_sysinfo", "system_global", "ha"} then None else id
  }

  /** What writing `data` does to the object in a slot. */
  predicate Written(put: PutSemantics, op: OperationType, before: Json, data: Json, after: Json) {
    match op
    case Create => before == Null && after == Obj(FieldsOf(data))
    case Delete => before.Obj? && after == Null
    case Update =>
      before.Obj? && after == Obj(if put == Replace then FieldsOf(data) else before.fields + FieldsOf(data))
  }

  /** From one device to the other the slot in scope is written and no other slot changes. */
  ghost predicate ActsOn(vdoms: map<string, string>, put: PutSemantics, req: Request, id: Option<string>,
                         op: OperationType, data: Json, before: Device, after: Device)
    requires req.device in vdoms
  {
    forall x ::
      if InScope(vdoms, req, id, x) then Written(put, op, Live(before, x), data, Live(after, x))
      else Live(after, x) == Live(before, x)
  }

  lemma ExecuteActsOn(vdoms: map<string, string>, req: Request, device: Device, put: PutSemantics, op: OperationType,
                      id: Option<string>, data: Json, reply: WriteReply)
    requires req.device in vdoms
    requires Execute(device, put, AddressOf(vdoms, req.device, req.vdom, req.rtype), op, id, data, reply).Ok?
    ensures reply.Accepts?
    ensures var at := AddressOf(vdoms, req.device, req.vdom, req.rtype);
            ActsOn(vdoms, put, req, if op == Create then Some(reply.assignedId) else id, op, data, device,
                   Execute(device, put, at, op, id, data, reply).value.0)
  {
    hide Supports, Known;
  }

  /** A supported write that the device answers goes through exactly when its slot is free or taken as it should be. */
  lemma ExecuteSucceedsIff(vdoms: map<string, string>, req: Request, device: Device, put: PutSemantics,
                           op: OperationType, id: Option<string>, data: Json, response: Json, newId: string, x: Slot)
    requires req.device in vdoms && req.rtype in RESOURCE_OPS && Verb(op) in RESOURCE_OPS[req.rtype]
    requires InScope(vdoms, req, if op == Create then Some(newId) else id, x)
    ensures var result := Execute(device, put, AddressOf(vdoms, req.device, req.vdom, req.rtype), op, id, data,
                                  Accepts(response, newId));
            && (result.Ok? <==> (op == Create <==> Live(device, x) == Null) && (op != Delete ==> IsDict(data)))
            && (result.Ok? ==> result.value.1 == response)
  {
    TableIff(req.rtype);
    OrEmptyIs(data);
  }

  /**
   Whatever happened since the preview, a successful apply writes what was proposed to the object
   the request addresses: in the vdom asked for, the device's own vdom when none was asked for, or
   no vdom for VDOMs and VDOM links. No other object on any device changes.
   */
  lemma ApplyActsOnRequest(s: State, req: Request, cid: string, first: ReadReply, steps: seq<Step>,
                           read: ReadReply, write: WriteReply)
    requires PreviewStep(s, req, cid, first).1.Ok?
    requires ApplyStep(Run(PreviewStep(s, req, cid, first).0, steps), cid, read, write).1.Ok?
    ensures var t := Run(PreviewStep(s, req, cid, first).0, steps);
            var t' := ApplyStep(t, cid, read, write).0;
            && req.device in s.vdoms && write.Accepts?
            && ActsOn(s.vdoms, s.put, req, if req.op == Create then Some(write.assignedId) else req.resourceId, req.op,
                      req.proposed, t.device, t'.device)
  {
    PreviewRecords(s, req, cid, first);
    PreviewRefusals(s, req, cid, first);
    var s1 := PreviewStep(s, req, cid, first).0;
    var t := Run(s1, steps);
    RecordsOnlyEvolve(s1, steps, cid);
    ConfigurationIsConstant(s1, steps);
    RestoreCanonical(req.proposed);
    ApplyExecutes(t, cid, read, write);
    hide PreviewStep, ApplyStep, Execute, ActsOn, Canonical, Restore, Run, Documents;
    ExecuteActsOn(s.vdoms, req, t.device, s.put, req.op, req.resourceId, req.proposed, write);
  }

  lemma ApplyExecutes(s: State, cid: string, read: ReadReply, write: WriteReply)
    requires ApplyStep(s, cid, read, write).1.Ok?
    ensures cid in s.records && s.records[cid].status == Proposed && s.records[cid].device in s.vdoms
    ensures var r := s.records[cid];
            var (s', result) := ApplyStep(s, cid, read, write);
            var done := Execute(s.device, s.put, AddressOf(s.vdoms, r.device, r.vdom, r.rtype), r.op, r.resourceId,
                                Restore(r.after), write);
            && done.Ok? && s'.device == done.value.0 && write.Accepts?
            && cid in s'.records && s'.vdoms == s.vdoms && s'.put == s.put
            && s'.records[cid] == r.(status := Applied, appliedAt := Some(s.now),
                                     resourceId := if r.op == Create && r.resourceId.None?
                                                   then ExtractCreatedId(write.response) else r.resourceId)
  {
    hide Canonical, Restore, Captures, Write, FetchCurrent, ExtractCreatedId;
  }

  /** The id under which a rollback looks for the object: the one asked for, or the one the create reported. */
  function UndoId(req: Request, write: WriteReply, undo: WriteReply): Option<string>
    requires write.Accepts? && undo.Accepts?
  {
    match req.op
    case Update => req.resourceId
    case Create => if req.resourceId.Some? then req.resourceId else ExtractCreatedId(write.response)
    case Delete => Some(undo.assignedId)
  }

  /**
   Whatever happened before and since, a successful rollback removes what was created, puts back
   what the preview saw, or re-creates it, in the same place, and changes no other object.
   */
  lemma RollbackActsOnRequest(s: State, req: Request, cid: string, first: ReadReply, steps: seq<Step>,
                              read: ReadReply, write: WriteReply, more: seq<Step>, undo: WriteReply)
    requires PreviewStep(s, req, cid, first).1.Ok?
    ensures var t := Run(PreviewStep(s, req, cid, first).0, steps);
            var (t', applied) := ApplyStep(t, cid, read, write);
            var u := Run(t', more);
            var (u', undone) := RollbackStep(u, cid, undo);
            applied.Ok? && undone.Ok? ==>
              && req.device in s.vdoms && write.Accepts? && undo.Accepts?
              && ActsOn(s.vdoms, s.put, req, UndoId(req, write, undo),
                        match req.op case Create => Delete case Update => Update case Delete => Create,
                        Shown(req, first), u.device, u'.device)
  {
    var t := Run(PreviewStep(s, req, cid, first).0, steps);
    var (t', applied) := ApplyStep(t, cid, read, write);
    var u := Run(t', more);
    var (u', undone) := RollbackStep(u, cid, undo);
    var saved := Shown(req, first);
    if applied.Ok? && undone.Ok? {
      RollbackFindsRecord(s, req, cid, first, steps, read, write, more, undo);
      RollbackExecutes(u, cid, undo);
      hide PreviewStep, ApplyStep, RollbackStep, Execute, ActsOn, Canonical, Restore, Run, Documents, ExtractCreatedId,
           Shown;
      match req.op
      case Create => ExecuteActsOn(s.vdoms, req, u.device, s.put, Delete, u.records[cid].resourceId, Null, undo);
                     DeleteIgnoresData(s.vdoms, s.put, req, UndoId(req, write, undo), saved, u.device, u'.device);
      case Update => ExecuteActsOn(s.vdoms, req, u.device, s.put, Update, req.resourceId, saved, undo);
      case Delete => ExecuteActsOn(s.vdoms, req, u.device, s.put, Create, None, saved, undo);
    }
  }

  /** What the rollback loads is still what the preview stored, with the id under which to look. */
  lemma RollbackFindsRecord(s: State, req: Request, cid: string, first: ReadReply, steps: seq<Step>,
                            read: ReadReply, write: WriteReply, more: seq<Step>, undo: WriteReply)
    requires PreviewStep(s, req, cid, first).1.Ok?
    ensures var t := Run(PreviewStep(s, req, cid, first).0, steps);
            var (t', applied) := ApplyStep(t, cid, read, write);
            var u := Run(t', more);
            applied.Ok? && RollbackStep(u, cid, undo).1.Ok? ==>
              && req.device in s.vdoms && write.Accepts? && undo.Accepts?
              && u.vdoms == s.vdoms && u.put == s.put && cid in u.records
              && var r := u.records[cid];
                 && r.device == req.device && r.vdom == req.vdom && r.rtype == req.rtype && r.op == req.op
                 && Restore(r.before) == Shown(req, first)
                 && (req.op != Delete ==> r.resourceId == UndoId(req, write, undo))
  {
    PreviewRecords(s, req, cid, first);
    PreviewRefusals(s, req, cid, first);
    var s1 := PreviewStep(s, req, cid, first).0;
    var t := Run(s1, steps);
    var (t', applied) := ApplyStep(t, cid, read, write);
    var u := Run(t', more);
    if applied.Ok? && RollbackStep(u, cid, undo).1.Ok? {
      RecordsOnlyEvolve(s1, steps, cid);
      ConfigurationIsConstant(s1, steps);
      RestoreCanonical(Shown(req, first));
      ApplyExecutes(t, cid, read, write);
      RecordsOnlyEvolve(t', more, cid);
      ConfigurationIsConstant(t', more);
      RollbackExecutes(u, cid, undo);
      hide PreviewStep, ApplyStep, RollbackStep, Execute, Canonical, Restore, Run, Documents, ExtractCreatedId, Shown;
    }
  }

  lemma DeleteIgnoresData(vdoms: map<string, string>, put: PutSemantics, req: Request, id: Option<string>, data: Json,
                          before: Device, after: Device)
    requires req.device in vdoms && ActsOn(vdoms, put, req, id, Delete, Null, before, after)
    ensures ActsOn(vdoms, put, req, id, Delete, data, before, after)
  {
    hide InScope, Live;
  }

  lemma RollbackExecutes(s: State, cid: string, undo: WriteReply)
    requires RollbackStep(s, cid, undo).1.Ok?
    ensures cid in s.records && s.records[cid].status == Applied && s.records[cid].device in s.vdoms
    ensures var r := s.records[cid];
            var at := AddressOf(s.vdoms, r.device, r.vdom, r.rtype);
            var done := match r.op
                        case Create => Execute(s.device, s.put, at, Delete, r.resourceId, Null, undo)
                        case Update => Execute(s.device, s.put, at, Update, r.resourceId, Restore(r.before), undo)
                        case Delete => Execute(s.device, s.put, at, Create, None, Restore(r.before), undo);
            done.Ok? && RollbackStep(s, cid, undo).0.device == done.value.0 && undo.Accepts?
  {
    hide Canonical, Restore, Write;
  }
}
