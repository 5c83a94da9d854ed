/** Key-level diff between a resource's current state and a proposed one. */
module Diff {
  import opened Wrappers
  import opened Ordering
  import opened Json
  import opened ModePolicy

  datatype Change = Change(before: Json, after: Json)

  type Changes = map<string, Change>

  datatype DiffDoc =
    | Added(data: Json)
    | Removed(data: Json)
    | Changed(fields: Changes)

  /** Every key whose two values differ under Python's `==`, a missing key reading as None. */
  function ChangedFields(before: Dict, after: Dict): Changes {
    map k | k in before.Keys + after.Keys && !PyEq(Get(before, k), Get(after, k))
      :: Change(Get(before, k), Get(after, k))
  }

  /** The diff document; None where Python raises (an update between values that are not dicts). */
  function DiffOf(op: OperationType, before: Json, after: Json): Option<DiffDoc> {
    match op
    case Create => Some(Added(OrEmpty(after)))
    case Delete => Some(Removed(OrEmpty(before)))
    case Update =>
      var b, a := OrEmpty(before), OrEmpty(after);
      if b.Obj? && a.Obj? then Some(Changed(ChangedFields(b.fields, a.fields))) else None
  }

  /** `compute_diff`. */
  method ComputeDiff(op: OperationType, before: Json, after: Json) returns (diff: Option<DiffDoc>)
    ensures diff == DiffOf(op, before, after)
    ensures diff.Some? ==> Documents(op, before, after, diff.value)
    ensures diff.None? <==> op == Update && !(IsDict(before) && IsDict(after))
  {
    DocumentIs(op, before, after);
    match op
    case Create => return Some(Added(OrEmpty(after)));
    case Delete => return Some(Removed(OrEmpty(before)));
    case Update =>
      var b, a := OrEmpty(before), OrEmpty(after);
      if !b.Obj? || !a.Obj? {
        return None;
      }
      var changed := DiffFields(b.fields, a.fields);
      return Some(Changed(changed));
  }

  ghost function Within(changes: Changes, done: set<string>): Changes {
    map k | k in changes && k in done :: changes[k]
  }

  lemma WithinStep(changes: Changes, done: set<string>, key: string)
    ensures Within(changes, done + {key})
         == if key in changes then Within(changes, done)[key := changes[key]] else Within(changes, done)
  {
  }

  /** The update branch: one pass over all keys in sorted order, filling the result in place. */
  method DiffFields(before: Dict, after: Dict) returns (changed: Changes)
    ensures changed == ChangedFields(before, after)
  {
    var keys := Sorted(before.Keys + after.Keys);
    ghost var all := ChangedFields(before, after);
    ghost var done := {};
    changed := map[];
    for i := 0 to |keys|
      invariant forall k :: k in done <==> k in keys[..i]
      invariant changed == Within(all, done)
    {
      var key := keys[i];
      assert key in before.Keys + after.Keys by { assert key in keys; }
      WithinStep(all, done, key);
      var beforeValue, afterValue := Get(before, key), Get(after, key);
      if !PyEq(beforeValue, afterValue) {
        changed := changed[key := Change(beforeValue, afterValue)];
      }
      done := done + {key};
      PrefixGrows(keys, i);
    }
    assert keys[..|keys|] == keys;
    assert forall k :: k in all ==> k in keys;
  }

  // ---- What the diff means ---------------------------------------------------------------------

  /** What Python's `==` on values sees of a dict when a key holding None counts as absent. */
  function View(d: Dict): Dict {
    map k | k in d && d[k] != Null :: Norm(d[k])
  }

  /** `d` with every changed key set to its "after" value, None removing the key. */
  function Redo(d: Dict, changes: Changes): Dict {
    map k | k in d.Keys + changes.Keys && (k in changes ==> changes[k].after != Null)
      :: if k in changes then changes[k].after else d[k]
  }

  /** `d` with every changed key set to its "before" value, None removing the key. */
  function Undo(d: Dict, changes: Changes): Dict {
    Redo(d, Reverse(changes))
  }

  function Reverse(changes: Changes): Changes {
    map k | k in changes :: Change(changes[k].after, changes[k].before)
  }

  // ---- What the document says --------------------------------------------------------------------

  /** The value is used as a dict: it is one, or falsy. */
  predicate IsDict(j: Json) {
    j in {Null, Bool(false), Num(0), Str(""), Arr([])} || j.Obj?
  }

  function FieldsOf(j: Json): Dict {
    if j.Obj? then j.fields else map[]
  }

  /**
   A create document carries what is proposed, a delete document what was there. An update document
   turns what was there into what is proposed and back, and lists exactly the keys whose values
   differ, each with its two values.
   */
  ghost predicate Documents(op: OperationType, before: Json, after: Json, diff: DiffDoc) {
    match op
    case Create => diff.Added? && diff.data == if IsDict(after) then Obj(FieldsOf(after)) else after
    case Delete => diff.Removed? && diff.data == if IsDict(before) then Obj(FieldsOf(before)) else before
    case Update =>
      && diff.Changed?
      && View(Redo(FieldsOf(before), diff.fields)) == View(FieldsOf(after))
      && View(Undo(FieldsOf(after), diff.fields)) == View(FieldsOf(before))
      && (forall k :: k in diff.fields <==> !PyEq(Get(FieldsOf(before), k), Get(FieldsOf(after), k)))
      && (forall k :: k in diff.fields ==>
            diff.fields[k] == Change(Get(FieldsOf(before), k), Get(FieldsOf(after), k)))
  }

  lemma ChangedIff(before: Dict, after: Dict, k: string)
    ensures k in ChangedFields(before, after) <==> !PyEq(Get(before, k), Get(after, k))
    ensures k in ChangedFields(before, after) ==>
              ChangedFields(before, after)[k] == Change(Get(before, k), Get(after, k))
  {
  }

  lemma UpdateDocument(before: Dict, after: Dict)
    ensures Documents(Update, Obj(before), Obj(after), Changed(ChangedFields(before, after)))
  {
    RedoGivesAfter(before, after);
    UndoGivesBefore(before, after);
    forall k
      ensures k in ChangedFields(before, after) <==> !PyEq(Get(before, k), Get(after, k))
      ensures k in ChangedFields(before, after) ==>
                ChangedFields(before, after)[k] == Change(Get(before, k), Get(after, k))
    {
      ChangedIff(before, after, k);
    }
  }

  lemma DocumentIs(op: OperationType, before: Json, after: Json)
    ensures DiffOf(op, before, after).None? <==> op == Update && !(IsDict(before) && IsDict(after))
    ensures DiffOf(op, before, after).Some? ==> Documents(op, before, after, DiffOf(op, before, after).value)
  {
    hide Truthy, View, Redo, Undo, ChangedFields;
    OrEmptyIs(before);
    OrEmptyIs(after);
    UpdateDocument(FieldsOf(before), FieldsOf(after));
  }

  lemma ViewGet(d: Dict, k: string)
    ensures k in View(d) <==> Get(d, k) != Null
    ensures k in View(d) ==> View(d)[k] == Norm(Get(d, k))
  {
  }

  lemma ViewsAgreeIff(d: Dict, e: Dict)
    ensures View(d) == View(e) <==> forall k :: PyEq(Get(d, k), Get(e, k))
  {
    if View(d) == View(e) {
      forall k ensures PyEq(Get(d, k), Get(e, k)) { ViewGet(d, k); ViewGet(e, k); }
    }
    if forall k :: PyEq(Get(d, k), Get(e, k)) {
      forall k ensures (k in View(d) <==> k in View(e)) && (k in View(d) ==> View(d)[k] == View(e)[k]) {
        assert PyEq(Get(d, k), Get(e, k));
        ViewGet(d, k);
        ViewGet(e, k);
      }
    }
  }

  /** Reversing the direction of the comparison reverses every entry. */
  lemma ChangedFieldsReverse(before: Dict, after: Dict)
    ensures ChangedFields(after, before) == Reverse(ChangedFields(before, after))
  {
    assert after.Keys + before.Keys == before.Keys + after.Keys;
  }

  /** An update diff is exactly enough to rebuild the new state from the old one. */
  lemma {:induction false} RedoGivesAfter(before: Dict, after: Dict)
    ensures View(Redo(before, ChangedFields(before, after))) == View(after)
    ensures forall k :: k in ChangedFields(before, after) ==>
                          Get(Redo(before, ChangedFields(before, after)), k) == Get(after, k)
  {
    var changes := ChangedFields(before, after);
    var patched := Redo(before, changes);
    forall k ensures PyEq(Get(patched, k), Get(after, k)) {
      if k !in before.Keys + after.Keys {
        assert k !in changes && k !in patched;
      } else if k !in changes {
        assert PyEq(Get(before, k), Get(after, k)) && Get(patched, k) == Get(before, k);
      }
    }
    ViewsAgreeIff(patched, after);
  }

  /** ... and the old state from the new one. */
  lemma {:induction false} UndoGivesBefore(before: Dict, after: Dict)
    ensures View(Undo(after, ChangedFields(before, after))) == View(before)
    ensures forall k :: k in ChangedFields(before, after) ==>
                          Get(Undo(after, ChangedFields(before, after)), k) == Get(before, k)
  {
    ChangedFieldsReverse(before, after);
    RedoGivesAfter(after, before);
  }

  /** The diff is empty exactly when the two dicts agree. */
  lemma NoChangesIff(before: Dict, after: Dict)
    ensures ChangedFields(before, after) == map[] <==> View(before) == View(after)
  {
    var changes := ChangedFields(before, after);
    ViewsAgreeIff(before, after);
    if changes == map[] {
      forall k ensures PyEq(Get(before, k), Get(after, k)) {
        if k in before.Keys + after.Keys { assert k !in changes; }
      }
    } else {
      var k :| k in changes;
      assert !PyEq(Get(before, k), Get(after, k));
    }
  }
}
