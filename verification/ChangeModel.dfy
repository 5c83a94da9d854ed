/**
 The preview -> apply -> rollback protocol as a state machine.

 Each service call is one atomic step. The environment decides what the device answers, how time
 passes, which mode the serving process runs in, and edits the device behind the service's back.
 The log of successful device writes is kept for the specification only.
 */
module ChangeModel {
  import opened Wrappers
  import opened Json
  import opened Diff
  import opened ModePolicy
  import opened ChangeDispatch

  const PREVIEW_TTL_SECONDS := 600

  datatype Status = Proposed | Applied | RolledBack | Expired

  datatype Record = Record(
    device: string, vdom: Option<string>, rtype: string, resourceId: Option<string>,
    op: OperationType, modeAtRequest: OperatingMode, status: Status,
    before: Option<Text>, after: Option<Text>, diff: DiffDoc,
    createdAt: int, expiresAt: int, appliedAt: Option<int>)

  datatype Snapshot = Snapshot(
    device: string, vdom: Option<string>, rtype: string, resourceId: Option<string>,
    takenAt: int, content: Option<Text>, changeId: string)

  datatype Direction = Forward | Inverse

  /** One successful device write. */
  datatype WriteEvent = WriteEvent(
    changeId: string, direction: Direction, at: Address, op: OperationType, id: Option<string>,
    data: Json, assignedId: string, time: int, mode: OperatingMode, captured: bool,
    pre: Device, post: Device)

  datatype State = State(
    records: map<string, Record>, snapshots: seq<Snapshot>, now: int, mode: OperatingMode,
    put: PutSemantics, vdoms: map<string, string>, device: Device, log: seq<WriteEvent>)

  datatype Request = Request(
    device: string, vdom: Option<string>, rtype: string, op: OperationType,
    resourceId: Option<string>, proposed: Json)

  datatype ChangeError =
    | ModeViolation
    | UnknownDevice
    | Dispatch(error: DispatchError)
    | NotComparable
    | DuplicateChangeId
    | ChangeNotFound
    | AlreadyResolved(status: Status)
    | ChangeExpired
    | ChangeDrift
    | RollbackNotPossible

  /** The vdom a request ends up in: the one asked for, or the device's configured one. */
  function AddressOf(vdoms: map<string, string>, device: string, vdom: Option<string>, rtype: string): Address
    requires device in vdoms
  {
    Address(device, if vdom.Some? && vdom.value != "" then vdom.value else vdoms[device], rtype)
  }

  function RecordAddress(s: State, r: Record): Address
    requires r.device in s.vdoms
  {
    AddressOf(s.vdoms, r.device, r.vdom, r.rtype)
  }

  // ---- preview -----------------------------------------------------------------------------------

  function NewRecord(s: State, req: Request, current: Json, diff: DiffDoc): Record {
    Record(req.device, req.vdom, req.rtype, req.resourceId, req.op, s.mode, Proposed,
           Canonical(current), Canonical(req.proposed), diff, s.now, s.now + PREVIEW_TTL_SECONDS, None)
  }

  function PreviewStep(s: State, req: Request, cid: string, reply: ReadReply): (State, Result<Record, ChangeError>) {
    if !Permits(s.mode, req.op) then (s, Err(ModeViolation))
    else if req.device !in s.vdoms then (s, Err(UnknownDevice))
    else
      match FetchCurrent(req.rtype, req.resourceId, reply)
      case Err(e) => (s, Err(Dispatch(e)))
      case Ok(current) =>
        match DiffOf(req.op, current, req.proposed)
        case None => (s, Err(NotComparable))
        case Some(diff) =>
          if cid in s.records then (s, Err(DuplicateChangeId)) else
            var r := NewRecord(s, req, current, diff);
            (s.(records := s.records[cid := r]), Ok(r))
  }

  // ---- apply -------------------------------------------------------------------------------------

  function AppliedRecord(r: Record, response: Json, now: int): Record {
    r.(status := Applied, appliedAt := Some(now),
       resourceId := if r.op == Create && r.resourceId.None? then ExtractCreatedId(response) else r.resourceId)
  }

  function SnapshotFor(cid: string, r: Record, takenAt: int): Snapshot {
    Snapshot(r.device, r.vdom, r.rtype, r.resourceId, takenAt, r.before, cid)
  }

  /** The write of `apply`, and what it leaves behind, once every check has passed. */
  function ForwardWrite(s: State, cid: string, captured: bool, reply: WriteReply): (State, Result<Record, ChangeError>)
    requires cid in s.records && s.records[cid].device in s.vdoms
  {
    var r := s.records[cid];
    var at := RecordAddress(s, r);
    match Execute(s.device, s.put, at, r.op, r.resourceId, Restore(r.after), reply)
    case Err(e) => (s, Err(Dispatch(e)))
    case Ok((device', response)) =>
      var r' := AppliedRecord(r, response, s.now);
      var e := WriteEvent(cid, Forward, at, r.op, r.resourceId, Restore(r.after), reply.assignedId,
                          s.now, s.mode, captured, s.device, device');
      (s.(records := s.records[cid := r'], snapshots := s.snapshots + [SnapshotFor(cid, r', s.now)],
          device := device', log := s.log + [e]),
       Ok(r'))
  }

  function ApplyStep(s: State, cid: string, read: ReadReply, write: WriteReply): (State, Result<Record, ChangeError>) {
    if cid !in s.records then (s, Err(ChangeNotFound)) else
      var r := s.records[cid];
      if r.status != Proposed then (s, Err(AlreadyResolved(r.status)))
      else if s.now > r.expiresAt then
        (s.(records := s.records[cid := r.(status := Expired)]), Err(ChangeExpired))
      else if !Permits(s.mode, r.op) then (s, Err(ModeViolation))
      else if r.device !in s.vdoms then (s, Err(UnknownDevice))
      else
        match FetchCurrent(r.rtype, r.resourceId, read)
        case Err(e) => (s, Err(Dispatch(e)))
        case Ok(current) =>
          if Canonical(current) != r.before then (s, Err(ChangeDrift))
          else ForwardWrite(s, cid, Captures(RecordAddress(s, r), r.resourceId, read, s.device), write)
  }

  // ---- rollback ----------------------------------------------------------------------------------

  function InverseOp(op: OperationType): OperationType {
    match op
    case Create => Delete
    case Update => Update
    case Delete => Create
  }

  function InverseId(r: Record): Option<string> {
    if r.op == Delete then None else r.resourceId
  }

  function InverseData(r: Record): Json {
    if r.op == Create then Null else Restore(r.before)
  }

  function RollbackStep(s: State, cid: string, reply: WriteReply): (State, Result<Record, ChangeError>) {
    if cid !in s.records then (s, Err(ChangeNotFound)) else
      var r := s.records[cid];
      if r.status != Applied then (s, Err(AlreadyResolved(r.status)))
      else if r.device !in s.vdoms then (s, Err(UnknownDevice))
      else if r.op == Create && r.resourceId.None? then (s, Err(RollbackNotPossible))
      else
        var at := RecordAddress(s, r);
        match Execute(s.device, s.put, at, InverseOp(r.op), InverseId(r), InverseData(r), reply)
        case Err(e) => (s, Err(Dispatch(e)))
        case Ok((device', _)) =>
          var r' := r.(status := RolledBack);
          var e := WriteEvent(cid, Inverse, at, InverseOp(r.op), InverseId(r), InverseData(r), reply.assignedId,
                              s.now, s.mode, false, s.device, device');
          (s.(records := s.records[cid := r'], device := device', log := s.log + [e]), Ok(r'))
  }

  // ---- list_pending ------------------------------------------------------------------------------

  /** The changes `list_pending` returns. */
  function Pending(s: State): set<string> {
    set cid | cid in s.records && s.records[cid].status == Proposed && s.records[cid].expiresAt > s.now
  }

  // ---- Runs --------------------------------------------------------------------------------------

  datatype Step =
    | Preview(req: Request, cid: string, read: ReadReply)
    | Apply(cid: string, read: ReadReply, write: WriteReply)
    | Rollback(cid: string, write: WriteReply)
    | Tick(seconds: nat)
    | SetMode(mode: OperatingMode)
    | OutsideEdit(device: Device)

  function Next(s: State, step: Step): State {
    match step
    case Preview(req, cid, read) => PreviewStep(s, req, cid, read).0
    case Apply(cid, read, write) => ApplyStep(s, cid, read, write).0
    case Rollback(cid, write) => RollbackStep(s, cid, write).0
    case Tick(seconds) => s.(now := s.now + seconds)
    case SetMode(mode) => s.(mode := mode)
    case OutsideEdit(device) => s.(device := device)
  }

  function Run(s: State, steps: seq<Step>): State
    decreases |steps|
  {
    if steps == [] then s else Run(Next(s, steps[0]), steps[1..])
  }

  predicate Initial(s: State) {
    s.records == map[] && s.snapshots == [] && s.log == []
  }
}
