/**
 The change service itself: the database rows, the mode and the clock as fields that its calls
 update, and the device behind an adapter. Each call is proved to be the step of the same name.
 */
module ChangeService {
  import opened Wrappers
  import opened Json
  import opened Diff
  import opened ModePolicy
  import opened ChangeDispatch
  import opened ChangeModel
  import opened ChangeInvariants

  class ChangeService {
    const adapter: Adapter
    const vdoms: map<string, string>
    var mode: OperatingMode
    var now: int
    var records: map<string, Record>
    var snapshots: seq<Snapshot>
    ghost var log: seq<WriteEvent>

    ghost function Abs(): State
      reads this, adapter
    {
      State(records, snapshots, now, mode, adapter.put, vdoms, adapter.device, log)
    }

    constructor (adapter: Adapter, vdoms: map<string, string>, mode: OperatingMode, now: int)
      ensures this.adapter == adapter && this.vdoms == vdoms && this.mode == mode && this.now == now
      ensures Initial(Abs()) && Inv(Abs())
    {
      this.adapter, this.vdoms, this.mode, this.now := adapter, vdoms, mode, now;
      records, snapshots, log := map[], [], [];
    }

    method Preview(req: Request, cid: string, reply: ReadReply) returns (r: Result<Record, ChangeError>)
      modifies this`records
      ensures (Abs(), r) == PreviewStep(old(Abs()), req, cid, reply)
    {
      hide UnwrapSingle, Canonical, DiffOf;
      if !Permits(mode, req.op) {
        return Err(ModeViolation);
      }
      if req.device !in vdoms {
        return Err(UnknownDevice);
      }
      var current := FetchCurrent(req.rtype, req.resourceId, reply);
      if current.Err? {
        return Err(Dispatch(current.error));
      }
      var diff := ComputeDiff(req.op, current.value, req.proposed);
      if diff.None? {
        return Err(NotComparable);
      }
      if cid in records {
        return Err(DuplicateChangeId);
      }
      var record := Record(req.device, req.vdom, req.rtype, req.resourceId, req.op, mode, Proposed,
                           Canonical(current.value), Canonical(req.proposed), diff.value,
                           now, now + PREVIEW_TTL_SECONDS, None);
      records := records[cid := record];
      return Ok(record);
    }

    method Apply(cid: string, read: ReadReply, write: WriteReply) returns (r: Result<Record, ChangeError>)
      modifies this`records, this`snapshots, this`log, adapter
      ensures (Abs(), r) == ApplyStep(old(Abs()), cid, read, write)
    {
      hide UnwrapSingle, Canonical, Restore, Write, ExtractCreatedId;
      if cid !in records {
        return Err(ChangeNotFound);
      }
      var record := records[cid];
      if record.status != Proposed {
        return Err(AlreadyResolved(record.status));
      }
      if now > record.expiresAt {
        records := records[cid := record.(status := Expired)];
        return Err(ChangeExpired);
      }
      if !Permits(mode, record.op) {
        return Err(ModeViolation);
      }
      if record.device !in vdoms {
        return Err(UnknownDevice);
      }
      var current := FetchCurrent(record.rtype, record.resourceId, read);
      if current.Err? {
        return Err(Dispatch(current.error));
      }
      if Canonical(current.value) != record.before {
        return Err(ChangeDrift);
      }
      var at := AddressOf(vdoms, record.device, record.vdom, record.rtype);
      var data := Restore(record.after);
      ghost var pre := adapter.device;
      ghost var captured := Captures(at, record.resourceId, read, pre);
      var outcome := adapter.ExecuteOn(at, record.op, record.resourceId, data, write);
      if outcome.Err? {
        return Err(Dispatch(outcome.error));
      }
      log := log + [WriteEvent(cid, Forward, at, record.op, record.resourceId, data, write.assignedId,
                               now, mode, captured, pre, adapter.device)];
      if record.op == Create && record.resourceId.None? {
        record := record.(resourceId := ExtractCreatedId(outcome.value));
      }
      record := record.(status := Applied, appliedAt := Some(now));
      records := records[cid := record];
      snapshots := snapshots + [Snapshot(record.device, record.vdom, record.rtype, record.resourceId,
                                         now, record.before, cid)];
      return Ok(record);
    }

    method Rollback(cid: string, reply: WriteReply) returns (r: Result<Record, ChangeError>)
      modifies this`records, this`log, adapter
      ensures (Abs(), r) == RollbackStep(old(Abs()), cid, reply)
    {
      hide UnwrapSingle, Canonical, Restore, Write;
      if cid !in records {
        return Err(ChangeNotFound);
      }
      var record := records[cid];
      if record.status != Applied {
        return Err(AlreadyResolved(record.status));
      }
      if record.device !in vdoms {
        return Err(UnknownDevice);
      }
      if record.op == Create && record.resourceId.None? {
        return Err(RollbackNotPossible);
      }
      var at := AddressOf(vdoms, record.device, record.vdom, record.rtype);
      var beforeData := Restore(record.before);
      ghost var pre := adapter.device;
      var outcome: Result<Json, DispatchError>;
      match record.op {
        case Create => outcome := adapter.ExecuteOn(at, Delete, record.resourceId, Null, reply);
        case Update => outcome := adapter.ExecuteOn(at, Update, record.resourceId, beforeData, reply);
        case Delete => outcome := adapter.ExecuteOn(at, Create, None, beforeData, reply);
      }
      if outcome.Err? {
        return Err(Dispatch(outcome.error));
      }
      log := log + [WriteEvent(cid, Inverse, at, InverseOp(record.op), InverseId(record), InverseData(record),
                               reply.assignedId, now, mode, false, pre, adapter.device)];
      record := record.(status := RolledBack);
      records := records[cid := record];
      return Ok(record);
    }
  }
}
