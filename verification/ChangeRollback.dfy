/** What rolling back one change restores, as an if-and-only-if. */
module ChangeRollback {
  import opened Wrappers
  import opened Json
  import opened Diff
  import opened ModePolicy
  import opened ChangeDispatch
  import opened ChangeModel
  import opened ChangeInvariants

  // ---- Writing the saved object back ----------------------------------------------------------------

  /** Putting `saved` back after putting `data` gives the object there was, exactly when ... */
  predicate PutBackRestores(put: PutSemantics, live: Dict, data: Dict, saved: Dict) {
    match put
    case Replace => saved == live
    case Merge =>
      && (forall k :: k in saved ==> k in live && saved[k] == live[k])
      && (forall k :: k in data ==> k in live)
      && (forall k :: k in data && data[k] != live[k] ==> k in saved)
  }

  lemma PutBackRestoresIff(put: PutSemantics, live: Dict, data: Dict, saved: Dict)
    ensures Stored(put, Stored(put, live, data), saved) == live <==> PutBackRestores(put, live, data, saved)
  {
    var back := Stored(put, Stored(put, live, data), saved);
    if put == Merge {
      if back == live {
        assert forall k :: k in saved ==> k in back && back[k] == saved[k];
        assert forall k :: k in data ==> k in back;
        assert forall k :: k in data && k !in saved ==> back[k] == data[k];
      } else if PutBackRestores(put, live, data, saved) {
        assert back.Keys == live.Keys;
        assert forall k :: k in live ==> back[k] == live[k];
      }
    }
  }

  /** With the object captured in full, a merging PUT restores it unless the change added a key. */
  lemma CapturedPutBackIff(put: PutSemantics, live: Dict, data: Dict)
    ensures PutBackRestores(put, live, data, live) <==> put == Replace || data.Keys <= live.Keys
  {
    if put == Merge && PutBackRestores(put, live, data, live) {
      forall k | k in data.Keys ensures k in live.Keys { assert k in data; }
    }
  }

  // ---- One change ------------------------------------------------------------------------------------

  function Body(data: Json): Dict {
    var body := OrEmpty(data);
    if body.Obj? then body.fields else map[]
  }

  /**
   Everything a caller can look at before the rollback: was the id of a created object reported
   truthfully, does the state on record put back what was there, will a deleted object come back
   under its old id.
   */
  predicate WillRestore(put: PutSemantics, pre: Device, at: Address, r: Record, createdId: string,
                        recreatedId: string) {
    var slot := SlotAt(at, r.resourceId);
    match r.op
    case Create => r.resourceId == Some(createdId)
    case Update => slot in pre && PutBackRestores(put, pre[slot], Body(Restore(r.after)), Body(Restore(r.before)))
    case Delete => r.resourceId == Some(recreatedId) && slot in pre && Body(Restore(r.before)) == pre[slot]
  }

  lemma RoundTripUpdate(put: PutSemantics, pre: Device, at: Address, id: Option<string>, data: Json, saved: Json,
                        a: string, b: string)
    requires Write(pre, put, at, Update, id, data, a).Some?
    requires Write(Write(pre, put, at, Update, id, data, a).value, put, at, Update, id, saved, b).Some?
    ensures var mid := Write(pre, put, at, Update, id, data, a).value;
            var slot := SlotAt(at, id);
            && slot in pre
            && (Write(mid, put, at, Update, id, saved, b).value == pre
                <==> PutBackRestores(put, pre[slot], Body(data), Body(saved)))
  {
    var slot := SlotAt(at, id);
    var mid := Write(pre, put, at, Update, id, data, a).value;
    var post := Write(mid, put, at, Update, id, saved, b).value;
    PutBackRestoresIff(put, pre[slot], Body(data), Body(saved));
    assert post == pre[slot := Stored(put, Stored(put, pre[slot], Body(data)), Body(saved))];
    if post[slot] == pre[slot] { assert post == pre; }
  }

  lemma RoundTripCreate(put: PutSemantics, pre: Device, at: Address, asked: Option<string>, id: Option<string>,
                        data: Json, a: string, b: string)
    requires at.rtype !in SINGLETON_TYPES
    requires Write(pre, put, at, Create, asked, data, a).Some?
    requires Write(Write(pre, put, at, Create, asked, data, a).value, put, at, Delete, id, Null, b).Some?
    ensures Write(Write(pre, put, at, Create, asked, data, a).value, put, at, Delete, id, Null, b).value == pre
            <==> id == Some(a)
  {
    var slot := SlotAt(at, Some(a));
    var mid := Write(pre, put, at, Create, asked, data, a).value;
    var post := Write(mid, put, at, Delete, id, Null, b).value;
    if id == Some(a) {
      assert post == pre;
    } else {
      assert slot in post && slot !in pre;
    }
  }

  lemma RoundTripDelete(put: PutSemantics, pre: Device, at: Address, id: Option<string>, data: Json, saved: Json,
                        a: string, b: string)
    requires at.rtype !in SINGLETON_TYPES
    requires Write(pre, put, at, Delete, id, data, a).Some?
    requires Write(Write(pre, put, at, Delete, id, data, a).value, put, at, Create, None, saved, b).Some?
    ensures SlotAt(at, id) in pre
    ensures Write(Write(pre, put, at, Delete, id, data, a).value, put, at, Create, None, saved, b).value == pre
            <==> id == Some(b) && Body(saved) == pre[SlotAt(at, id)]
  {
    var slot := SlotAt(at, id);
    var mid := Write(pre, put, at, Delete, id, data, a).value;
    var post := Write(mid, put, at, Create, None, saved, b).value;
    if id == Some(b) {
      assert post == pre[slot := Body(saved)];
      if Body(saved) == pre[slot] { assert post == pre; } else { assert post[slot] != pre[slot]; }
    } else {
      assert slot in pre && slot !in post;
    }
  }

  lemma SingletonsOnlyUpdate(rtype: string)
    requires rtype in SINGLETON_TYPES
    ensures !Supports(rtype, Create) && !Supports(rtype, Delete)
  {
  }

  /** `t` is a state reached after the write with the device and this record as the write left them. */
  predicate Untouched(s1: State, t: State, cid: string) {
    && cid in s1.records && cid in t.records && t.records[cid] == s1.records[cid]
    && t.device == s1.device && t.put == s1.put && t.vdoms == s1.vdoms
  }

  /**
   A successful apply followed by a successful rollback gives the device back as it was exactly
   when WillRestore holds, for every operation, every way of reading and every PUT semantics.
   */
  lemma {:induction false} RollbackRestoresIff(s: State, cid: string, read: ReadReply, write: WriteReply,
                                               t: State, undo: WriteReply)
    requires ApplyStep(s, cid, read, write).1.Ok?
    requires Untouched(ApplyStep(s, cid, read, write).0, t, cid)
    requires RollbackStep(t, cid, undo).1.Ok?
    ensures RollbackStep(t, cid, undo).0.device == s.device
            <==> WillRestore(s.put, s.device, RecordAddress(s, s.records[cid]), t.records[cid],
                             write.assignedId, undo.assignedId)
  {
    hide Canonical, Restore, DiffOf, FetchCurrent, Captures, Write, Supports, ExtractCreatedId, PutBackRestores, Body;
    var r, r1 := s.records[cid], t.records[cid];
    var at := RecordAddress(s, r);
    if at.rtype in SINGLETON_TYPES { SingletonsOnlyUpdate(at.rtype); }
    var data, saved := Restore(r.after), Restore(r.before);
    var a, b := write.assignedId, undo.assignedId;
    assert t.device == Write(s.device, s.put, at, r.op, r.resourceId, data, write.assignedId).value;
    match r.op
    case Create => RoundTripCreate(s.put, s.device, at, r.resourceId, r1.resourceId, data, a, b);
    case Update => RoundTripUpdate(s.put, s.device, at, r.resourceId, data, saved, a, b);
    case Delete => RoundTripDelete(s.put, s.device, at, r.resourceId, data, saved, a, b);
  }

  /** The apply leaves a change that can be undone exactly: its target was read, its id is known, no key is added. */
  predicate Undoable(s: State, cid: string, read: ReadReply, write: WriteReply)
    requires cid in s.records && s.records[cid].device in s.vdoms
  {
    var r := s.records[cid];
    var at := RecordAddress(s, r);
    match r.op
    case Create => r.resourceId.None? && write.Accepts? && ExtractCreatedId(write.response) == Some(write.assignedId)
    case Update =>
      && Captures(at, r.resourceId, read, s.device)
      && var slot := SlotAt(at, r.resourceId);
         (s.put == Replace || (slot in s.device && Body(Restore(r.after)).Keys <= s.device[slot].Keys))
    case Delete => Captures(at, r.resourceId, read, s.device)
  }

  /** The rollback of a delete brings the object back under its old id. */
  predicate SameKey(r: Record, undo: WriteReply) {
    r.op == Delete && undo.Accepts? ==> r.resourceId == Some(undo.assignedId)
  }

  lemma {:induction false} UndoableWillRestore(s: State, cid: string, read: ReadReply, write: WriteReply,
                                               undo: WriteReply)
    requires ApplyStep(s, cid, read, write).1.Ok? && Undoable(s, cid, read, write)
    requires SameKey(s.records[cid], undo) && undo.Accepts?
    ensures var r' := ApplyStep(s, cid, read, write).0.records[cid];
            WillRestore(s.put, s.device, RecordAddress(s, s.records[cid]), r', write.assignedId, undo.assignedId)
  {
    hide Canonical, Restore, DiffOf, ExtractCreatedId, Supports, UnwrapSingle;
    var r := s.records[cid];
    var at := RecordAddress(s, r);
    if r.op != Create {
      var slot := SlotAt(at, r.resourceId);
      var live := Live(s.device, slot);
      assert slot in s.device;
      assert Canonical(live) == r.before;
      RestoreCanonical(live);
      assert Restore(r.before) == live;
      assert Body(live) == s.device[slot];
      CapturedPutBackIff(s.put, s.device[slot], Body(Restore(r.after)));
    }
  }

  // ---- Where the documented undo falls short -----------------------------------------------------------

  /** Where no prior state was captured, rolling an update back undoes it exactly when it left nothing to undo. */
  lemma UncapturedPutBackIff(put: PutSemantics, live: Dict, data: Dict)
    ensures PutBackRestores(put, live, data, Body(Restore(Canonical(Null))))
            <==> if put == Replace then live == map[] else forall k :: k in data ==> k in live && data[k] == live[k]
  {
    RestoreCanonical(Null);
    assert Body(Null) == map[];
  }

  /** The object is updated and the update rolled back, with the same answer to both reads. */
  function UpdateAndRollback(rtype: string, data: Dict, read: ReadReply): seq<Step> {
    [Preview(RequestFor(rtype, Update, Some("7"), Obj(data)), "c", read), Apply("c", read, Accepts(Null, "")),
     Rollback("c", Accepts(Null, ""))]
  }

  /** What the service makes of the read. */
  function SavedBy(rtype: string, read: ReadReply): Json
    requires Updatable(rtype)
  {
    FetchCurrent(rtype, Some("7"), read).value
  }

  /** The change "c" of the object has the status, and the two states on record. */
  ghost predicate OnRecord(s: State, rtype: string, status: Status, saved: Json, data: Dict) {
    && s.vdoms == map["fw" := "root"] && s.mode == Safe && "c" in s.records
    && var r := s.records["c"];
       && r.device == "fw" && r.vdom.None? && r.rtype == rtype && r.op == Update && r.resourceId == Some("7")
       && r.status == status && r.before == Canonical(saved) && r.after == Canonical(Obj(data)) && s.now <= r.expiresAt
  }

  lemma UpdatePreviewed(rtype: string, put: PutSemantics, live: Dict, data: Dict, read: ReadReply)
    requires Updatable(rtype) && OrEmpty(SavedBy(rtype, read)).Obj?
    ensures var s := Fresh(put, Safe, map[ObjectAt(rtype) := live]);
            var s1 := Next(s, UpdateAndRollback(rtype, data, read)[0]);
            OnRecord(s1, rtype, Proposed, SavedBy(rtype, read), data) && s1.put == put && s1.device == s.device
  {
    hide Canonical, ChangedFields, UnwrapSingle;
    DictOrEmpty(data);
  }

  lemma UpdateApplied(s: State, rtype: string, live: Dict, data: Dict, read: ReadReply)
    requires Updatable(rtype) && OnRecord(s, rtype, Proposed, SavedBy(rtype, read), data)
    requires s.device == map[ObjectAt(rtype) := live]
    ensures var s' := Next(s, Apply("c", read, Accepts(Null, "")));
            && OnRecord(s', rtype, Applied, SavedBy(rtype, read), data)
            && s'.put == s.put && s'.device == map[ObjectAt(rtype) := Stored(s.put, live, data)]
  {
    hide Canonical, Restore, UnwrapSingle, Execute, Stored, SnapshotFor;
    RestoreCanonical(Obj(data));
    DictOrEmpty(data);
    ObjectUpdated(rtype, s.put, s.device, Obj(data));
  }

  lemma UpdateRolledBack(s: State, rtype: string, saved: Json, mid: Dict, data: Dict)
    requires Updatable(rtype) && OnRecord(s, rtype, Applied, saved, data) && OrEmpty(saved).Obj?
    requires s.device == map[ObjectAt(rtype) := mid]
    ensures var t := Next(s, Rollback("c", Accepts(Null, "")));
            && t.device == map[ObjectAt(rtype) := Stored(s.put, mid, Body(saved))]
            && "c" in t.records && t.records["c"].status == RolledBack
  {
    hide Canonical, Restore, Execute, Stored;
    RestoreCanonical(saved);
    ObjectUpdated(rtype, s.put, s.device, saved);
  }

  /**
   Previewing, applying and rolling back an update, all writes accepted, gives the device back
   exactly when putting back what was read restores the object.
   */
  lemma UpdateRunIff(rtype: string, put: PutSemantics, live: Dict, data: Dict, read: ReadReply)
    requires Updatable(rtype) && OrEmpty(SavedBy(rtype, read)).Obj?
    ensures var s := Fresh(put, Safe, map[ObjectAt(rtype) := live]);
            var t := Run(s, UpdateAndRollback(rtype, data, read));
            && "c" in t.records && t.records["c"].status == RolledBack
            && t.device == map[ObjectAt(rtype) := Stored(put, Stored(put, live, data), Body(SavedBy(rtype, read)))]
            && (t.device == s.device <==> PutBackRestores(put, live, data, Body(SavedBy(rtype, read))))
  {
    hide Next, Run, Stored, PutBackRestores, SavedBy, Body, OrEmpty, OnRecord;
    var s := Fresh(put, Safe, map[ObjectAt(rtype) := live]);
    var steps := UpdateAndRollback(rtype, data, read);
    var saved, mid := SavedBy(rtype, read), Stored(put, live, data);
    RunThree(s, steps[0], steps[1], steps[2]);
    UpdatePreviewed(rtype, put, live, data, read);
    var s1 := Next(s, steps[0]);
    UpdateApplied(s1, rtype, live, data, read);
    UpdateRolledBack(Next(s1, steps[1]), rtype, saved, mid, data);
    PutBackRestoresIff(put, live, data, Body(saved));
    var slot, back := ObjectAt(rtype), Stored(put, mid, Body(saved));
    assert map[slot := live][slot] == live && map[slot := back][slot] == back;
  }

  /** With truthful reads of a policy: exactly when PUT replaces or the update adds no key. */
  lemma UpdateRunRestoresIff(put: PutSemantics, live: Dict, data: Dict)
    ensures var s := Fresh(put, Safe, map[POLICY := live]);
            var t := Run(s, UpdateAndRollback("firewall_policy", data, Returns(Wrap(InResults, live))));
            && "c" in t.records && t.records["c"].status == RolledBack
            && (t.device == s.device <==> put == Replace || data.Keys <= live.Keys)
  {
    hide Run, PutBackRestores, UnwrapSingle, Wrap;
    UnwrapRecoversIff(InResults, live);
    DictOrEmpty(live);
    UpdateRunIff("firewall_policy", put, live, data, Returns(Wrap(InResults, live)));
    CapturedPutBackIff(put, live, data);
  }

  /** On a device whose PUT merges, a comment added by an update survives the rollback of that update. */
  lemma MergedKeySurvivesRollback()
    ensures var live, data := map["action" := Str("accept")], map["comments" := Str("x")];
            var s := Fresh(Merge, Safe, map[POLICY := live]);
            Run(s, UpdateAndRollback("firewall_policy", data, Returns(Wrap(InResults, live)))).device != s.device
  {
    hide Run;
    var live: Dict, data: Dict := map["action" := Str("accept")], map["comments" := Str("x")];
    UpdateRunRestoresIff(Merge, live, data);
    assert "comments" in data.Keys && "comments" !in live.Keys;
  }

  /**
   With nothing read, because the type has no getter or the reads fail, rolling an update back sends
   an empty body: a replacing PUT wipes the object, a merging one leaves the update in place.
   */
  lemma UnreadUpdateRunRestoresIff(rtype: string, put: PutSemantics, live: Dict, data: Dict, read: ReadReply)
    requires Updatable(rtype) && (rtype in NO_GETTER_TYPES || read.ReadFails?)
    ensures var s := Fresh(put, Safe, map[ObjectAt(rtype) := live]);
            var t := Run(s, UpdateAndRollback(rtype, data, read));
            && t.device == map[ObjectAt(rtype) := if put == Replace then map[] else live + data]
            && (t.device == s.device <==> if put == Replace then live == map[]
                                          else forall k :: k in data ==> k in live && data[k] == live[k])
  {
    hide Run, PutBackRestores, Canonical, Restore;
    assert SavedBy(rtype, read) == Null;
    RestoreCanonical(Null);
    UpdateRunIff(rtype, put, live, data, read);
    UncapturedPutBackIff(put, live, data);
    assert live + data + map[] == live + data;
  }

  /** An update of an address object and its rollback, all calls succeeding, leave an empty object. */
  lemma AddressObjectIsWiped(read: ReadReply)
    ensures var live, data := map["subnet" := Str("10.0.0.0/8")], map["comment" := Str("x")];
            var s := Fresh(Replace, Safe, map[ObjectAt("address_object") := live]);
            var t := Run(s, UpdateAndRollback("address_object", data, read));
            t.device == map[ObjectAt("address_object") := map[]] && t.device != s.device
  {
    hide Run;
    var live: Dict, data: Dict := map["subnet" := Str("10.0.0.0/8")], map["comment" := Str("x")];
    UnreadUpdateRunRestoresIff("address_object", Replace, live, data, read);
    assert "subnet" in live;
  }

  /** The policy is read, deleted, and the deletion rolled back; the new object gets the id given. */
  function DeleteAndRollback(live: Dict, newId: string): seq<Step> {
    var read := Returns(Wrap(InResults, live));
    [Preview(RequestFor("firewall_policy", Delete, Some("7"), Null), "c", read), Apply("c", read, Accepts(Null, "")),
     Rollback("c", Accepts(Null, newId))]
  }

  lemma PolicyDeletedAndCreated(put: PutSemantics, live: Dict, newId: string)
    ensures Execute(map[POLICY := live], put, AT, Delete, Some("7"), Null, Accepts(Null, "")) == Ok((map[], Null))
    ensures Execute(map[], put, AT, Create, None, Obj(live), Accepts(Null, newId))
         == Ok((map[SlotAt(AT, Some(newId)) := live], Null))
  {
    DictOrEmpty(live);
  }

  /** Rolling a delete back re-creates the object as it was, and exactly as it was when it gets its old id. */
  lemma DeleteRunRestoresIff(put: PutSemantics, live: Dict, newId: string)
    ensures var s := Fresh(put, Full, map[POLICY := live]);
            var t := Run(s, DeleteAndRollback(live, newId));
            && "c" in t.records && t.records["c"].status == RolledBack
            && t.device == map[SlotAt(AT, Some(newId)) := live]
            && (t.device == s.device <==> newId == "7")
  {
    hide Canonical, Restore, Run, UnwrapSingle, Wrap, Execute, SnapshotFor;
    var s := Fresh(put, Full, map[POLICY := live]);
    var steps := DeleteAndRollback(live, newId);
    RunThree(s, steps[0], steps[1], steps[2]);
    UnwrapRecoversIff(InResults, live);
    RestoreCanonical(Obj(live));
    RestoreCanonical(Null);
    PolicyDeletedAndCreated(put, live, newId);
    var s2 := Next(Next(s, steps[0]), steps[1]);
    assert s2.device == map[] && "c" in s2.records && s2.records["c"].status == Applied;
    var slot := SlotAt(AT, Some(newId));
    assert map[slot := live] == map[POLICY := live] ==> slot in map[POLICY := live];
  }
}
