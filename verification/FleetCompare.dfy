/** Comparison of one resource type across two devices: a partition of the keys. */
module FleetCompare {
  import opened Ordering
  import opened Json
  import opened Diff
  import opened ChangeDispatch

  /** `_key_for`; keys are compared with Python's equality, which Norm makes plain equality. */
  function KeyFor(rtype: string, item: Dict): Json {
    if rtype == "firewall_policy" then Norm(Get(item, "policyid"))
    else if rtype == "static_route" then Norm(if "seq-num" in item then item["seq-num"] else Get(item, "dst"))
    else Norm(Get(item, "name"))
  }

  /** Policies are keyed by their id, static routes by their number or else their destination, the rest by name. */
  lemma KeyForIs(rtype: string, item: Dict, number: Json, dst: Json, name: Json)
    ensures var full := item["policyid" := number]["seq-num" := number]["dst" := dst]["name" := name];
            && PyEq(KeyFor("firewall_policy", full), number)
            && PyEq(KeyFor("static_route", full), number) && PyEq(KeyFor("static_route", full - {"seq-num"}), dst)
            && (rtype !in {"firewall_policy", "static_route"} ==>
                  PyEq(KeyFor(rtype, full), name) && KeyFor(rtype, full - {"name"}) == Null)
            && KeyFor("firewall_policy", full - {"policyid"}) == Null
            && KeyFor("static_route", full - {"seq-num", "dst"}) == Null
    ensures Norm(KeyFor(rtype, item)) == KeyFor(rtype, item)
  {
    NormTwice(number);
    NormTwice(dst);
    NormTwice(name);
    NormTwice(Get(item, "policyid"));
    NormTwice(Get(item, "seq-num"));
    NormTwice(Get(item, "dst"));
    NormTwice(Get(item, "name"));
  }

  /** The form of a value that Python's equality compares is its own form. */
  lemma {:induction false} NormTwice(j: Json)
    ensures Norm(Norm(j)) == Norm(j)
  {
    match j
    case Arr(items) =>
      forall i | 0 <= i < |items| ensures Norm(Norm(items[i])) == Norm(items[i]) { NormTwice(items[i]); }
    case Obj(fields) =>
      forall k | k in fields ensures Norm(Norm(fields[k])) == Norm(fields[k]) { NormTwice(fields[k]); }
      var once := map k | k in fields :: Norm(fields[k]);
      assert Norm(j) == Obj(once) && Norm(Obj(once)).fields == once;
    case _ =>
  }

  /** The dict comprehension over a list: a later item replaces an earlier one with the same key. */
  function ByKey(rtype: string, items: seq<Dict>): map<Json, Dict> {
    if items == [] then map[] else
      var last := items[|items| - 1];
      ByKey(rtype, items[..|items| - 1])[KeyFor(rtype, last) := last]
  }

  /** A key is present exactly when an item has it, and then holds the last such item. */
  lemma {:induction false} ByKeyIff(rtype: string, items: seq<Dict>, key: Json)
    ensures key in ByKey(rtype, items) <==> exists i :: 0 <= i < |items| && KeyFor(rtype, items[i]) == key
    ensures forall i :: 0 <= i < |items| && KeyFor(rtype, items[i]) == key
                        && (forall j :: i < j < |items| ==> KeyFor(rtype, items[j]) != key) ==>
                          key in ByKey(rtype, items) && ByKey(rtype, items)[key] == items[i]
  {
    hide KeyFor;
    if items != [] {
      var n := |items| - 1;
      ByKeyIff(rtype, items[..n], key);
      assert forall i :: 0 <= i < n ==> items[..n][i] == items[i];
      if KeyFor(rtype, items[n]) != key {
        if i :| 0 <= i < |items| && KeyFor(rtype, items[i]) == key { assert KeyFor(rtype, items[..n][i]) == key; }
      }
    }
  }

  // ---- Sorted listings -------------------------------------------------------------------------------

  /** Every member of `s` once, ordered by text. Members with the same text may come in either order. */
  ghost predicate Listing(keys: seq<Json>, s: set<Json>) {
    && (forall k :: k in keys <==> k in s)
    && (forall i, j :: 0 <= i < j < |keys| ==> keys[i] != keys[j] && Leq(PyStr(keys[i]), PyStr(keys[j])))
  }

  lemma FirstByText(s: set<Json>) returns (x: Json)
    requires s != {}
    ensures x in s && forall y :: y in s ==> Leq(PyStr(x), PyStr(y))
  {
    hide PyStr, Leq;
    var texts := set k | k in s :: PyStr(k);
    var k :| k in s;
    assert PyStr(k) in texts;
    var t := Least(texts);
    x :| x in s && PyStr(x) == t;
  }

  /** `sorted(s, key=str)`. */
  method SortedByText(s: set<Json>) returns (keys: seq<Json>)
    ensures Listing(keys, s)
  {
    hide PyStr, Leq;
    keys := [];
    var rest := s;
    while rest != {}
      invariant rest <= s
      invariant Listing(keys, s - rest)
      invariant forall i, y :: 0 <= i < |keys| && y in rest ==> Leq(PyStr(keys[i]), PyStr(y))
      decreases rest
    {
      ghost var least := FirstByText(rest);
      var x :| x in rest && forall y :: y in rest ==> Leq(PyStr(x), PyStr(y));
      var keys' := keys + [x];
      assert forall k :: k in keys' <==> k in s - (rest - {x});
      assert forall i :: 0 <= i < |keys| ==> keys[i] in keys;
      keys, rest := keys', rest - {x};
    }
    assert s - rest == s;
  }

  /** When no two members share their text the order is determined too. */
  lemma {:induction false} ListingUnique(a: seq<Json>, b: seq<Json>, s: set<Json>)
    requires Listing(a, s) && Listing(b, s)
    requires forall x, y :: x in s && y in s && PyStr(x) == PyStr(y) ==> x == y
    ensures a == b
    decreases |a|
  {
    hide PyStr, Leq;
    assert a != [] ==> a[0] in a;
    assert b != [] ==> b[0] in b;
    if a != [] && b != [] {
      assert a[0] in s && b[0] in s && a[0] in b && b[0] in a;
      LeqTotal(PyStr(a[0]), PyStr(a[0]));
      if a[0] != b[0] { LeqAntisymmetric(PyStr(a[0]), PyStr(b[0])); }
      TailListing(a, s);
      TailListing(b, s);
      ListingUnique(a[1..], b[1..], s - {a[0]});
      assert a == [a[0]] + a[1..] && b == [b[0]] + b[1..];
    }
  }

  lemma TailListing(a: seq<Json>, s: set<Json>)
    requires a != [] && Listing(a, s)
    ensures Listing(a[1..], s - {a[0]})
  {
    hide PyStr, Leq;
    assert a == [a[0]] + a[1..];
  }

  // ---- The comparison ----------------------------------------------------------------------------------

  datatype Difference = Difference(key: Json, changed: Changes)

  datatype Comparison = Comparison(
    onlyInA: seq<Json>, onlyInB: seq<Json>, identical: seq<Json>, different: seq<Difference>)

  function KeysOf(ds: seq<Difference>): seq<Json> {
    seq(|ds|, i requires 0 <= i < |ds| => ds[i].key)
  }

  predicate SameItem(a: Dict, b: Dict) {
    PyEq(Obj(a), Obj(b))
  }

  /** What the comparison of two keyed lists is. */
  ghost predicate Compares(r: Comparison, a: map<Json, Dict>, b: map<Json, Dict>) {
    && Listing(r.onlyInA, a.Keys - b.Keys)
    && Listing(r.onlyInB, b.Keys - a.Keys)
    && Listing(r.identical, set k | k in a && k in b && SameItem(a[k], b[k]))
    && Listing(KeysOf(r.different), set k | k in a && k in b && !SameItem(a[k], b[k]))
    && forall d :: d in r.different ==> d.key in a && d.key in b && d.changed == ChangedFields(a[d.key], b[d.key])
  }

  /** The loop over the common keys. */
  method SplitCommon(keys: seq<Json>, a: map<Json, Dict>, b: map<Json, Dict>)
    returns (identical: seq<Json>, different: seq<Difference>)
    requires Listing(keys, a.Keys * b.Keys)
    ensures Listing(identical, set k | k in a && k in b && SameItem(a[k], b[k]))
    ensures Listing(KeysOf(different), set k | k in a && k in b && !SameItem(a[k], b[k]))
    ensures forall d :: d in different ==> d.key in a && d.key in b && d.changed == ChangedFields(a[d.key], b[d.key])
  {
    hide PyStr, Leq, SameItem, ChangedFields;
    identical, different := [], [];
    for i := 0 to |keys|
      invariant Picked(identical, keys[..i], k => k in a && k in b && SameItem(a[k], b[k]))
      invariant Picked(KeysOf(different), keys[..i], k => k in a && k in b && !SameItem(a[k], b[k]))
      invariant forall d :: d in different ==>
                  d.key in a && d.key in b && d.changed == ChangedFields(a[d.key], b[d.key])
    {
      var key := keys[i];
      assert key in a && key in b by { assert key in keys; }
      PickedStep(identical, keys, i, k => k in a && k in b && SameItem(a[k], b[k]));
      PickedStep(KeysOf(different), keys, i, k => k in a && k in b && !SameItem(a[k], b[k]));
      if SameItem(a[key], b[key]) {
        identical := identical + [key];
      } else {
        var changed := DiffFields(a[key], b[key]);
        assert KeysOf(different + [Difference(key, changed)]) == KeysOf(different) + [key];
        different := different + [Difference(key, changed)];
      }
    }
    assert keys[..|keys|] == keys;
    PickedListing(identical, keys, k => k in a && k in b && SameItem(a[k], b[k]), a.Keys * b.Keys,
                  set k | k in a && k in b && SameItem(a[k], b[k]));
    PickedListing(KeysOf(different), keys, k => k in a && k in b && !SameItem(a[k], b[k]), a.Keys * b.Keys,
                  set k | k in a && k in b && !SameItem(a[k], b[k]));
  }

  /** The members of `keys` with a property, in their order. */
  function Filter(keys: seq<Json>, p: Json -> bool): seq<Json> {
    if keys == [] then [] else
      var last := keys[|keys| - 1];
      Filter(keys[..|keys| - 1], p) + (if p(last) then [last] else [])
  }

  predicate Picked(out: seq<Json>, keys: seq<Json>, p: Json -> bool) {
    out == Filter(keys, p)
  }

  lemma PickedStep(out: seq<Json>, keys: seq<Json>, i: nat, p: Json -> bool)
    requires i < |keys| && Picked(out, keys[..i], p)
    ensures Picked(out + (if p(keys[i]) then [keys[i]] else []), keys[..i + 1], p)
  {
    assert keys[..i + 1][..i] == keys[..i];
  }

  lemma {:induction false} FilterListing(keys: seq<Json>, p: Json -> bool, s: set<Json>)
    requires Listing(keys, s)
    ensures Listing(Filter(keys, p), set k | k in s && p(k))
  {
    hide PyStr, Leq;
    if keys != [] {
      var n := |keys| - 1;
      var front, last := keys[..n], keys[n];
      assert keys == front + [last];
      FilterListing(front, p, s - {last});
      var f := Filter(front, p);
      forall i | 0 <= i < |f| ensures f[i] != last && Leq(PyStr(f[i]), PyStr(last)) {
        assert f[i] in f && f[i] in s - {last} && f[i] in keys;
      }
    }
  }

  lemma PickedListing(out: seq<Json>, keys: seq<Json>, p: Json -> bool, s: set<Json>, target: set<Json>)
    requires Listing(keys, s) && Picked(out, keys, p)
    requires forall k :: k in target <==> k in s && p(k)
    ensures Listing(out, target)
  {
    FilterListing(keys, p, s);
    assert target == set k | k in s && p(k);
  }

  /** `compare_resource_lists`. */
  method CompareResourceLists(rtype: string, itemsA: seq<Dict>, itemsB: seq<Dict>) returns (r: Comparison)
    ensures Compares(r, ByKey(rtype, itemsA), ByKey(rtype, itemsB))
  {
    hide Listing, PyStr, SameItem;
    var a, b := ByKey(rtype, itemsA), ByKey(rtype, itemsB);
    var onlyInA := SortedByText(a.Keys - b.Keys);
    var onlyInB := SortedByText(b.Keys - a.Keys);
    var common := SortedByText(a.Keys * b.Keys);
    var identical, different := SplitCommon(common, a, b);
    return Comparison(onlyInA, onlyInB, identical, different);
  }

  // ---- Properties --------------------------------------------------------------------------------------

  /** The four lists partition the keys of both sides. */
  lemma ComparisonPartitions(r: Comparison, a: map<Json, Dict>, b: map<Json, Dict>, key: Json)
    requires Compares(r, a, b)
    ensures key in a || key in b
            <==> key in r.onlyInA || key in r.onlyInB || key in r.identical || key in KeysOf(r.different)
    ensures !(key in r.onlyInA && key in r.onlyInB) && !(key in r.identical && key in KeysOf(r.different))
    ensures !((key in r.onlyInA || key in r.onlyInB) && (key in r.identical || key in KeysOf(r.different)))
  {
    hide PyStr, Leq, SameItem;
  }

  function Mirror(r: Comparison): Comparison {
    Comparison(r.onlyInB, r.onlyInA, r.identical,
               seq(|r.different|, i requires 0 <= i < |r.different| =>
                 Difference(r.different[i].key, Reverse(r.different[i].changed))))
  }

  /** Swapping the two devices mirrors the comparison field by field. */
  lemma ComparisonMirrors(r: Comparison, a: map<Json, Dict>, b: map<Json, Dict>)
    requires Compares(r, a, b)
    ensures Compares(Mirror(r), b, a)
  {
    hide Listing, PyStr, Leq, ChangedFields;
    var m := Mirror(r);
    assert KeysOf(m.different) == KeysOf(r.different);
    assert (set k | k in a && k in b && SameItem(a[k], b[k])) == (set k | k in b && k in a && SameItem(b[k], a[k]));
    assert (set k | k in a && k in b && !SameItem(a[k], b[k])) == (set k | k in b && k in a && !SameItem(b[k], a[k]));
    forall d | d in m.different
      ensures d.key in b && d.key in a && d.changed == ChangedFields(b[d.key], a[d.key])
    {
      var i :| 0 <= i < |m.different| && m.different[i] == d;
      assert r.different[i] in r.different;
      ChangedFieldsReverse(a[d.key], b[d.key]);
    }
  }

  lemma SameItemIff(a: Dict, b: Dict)
    ensures SameItem(a, b) <==> a.Keys == b.Keys && forall k :: k in a && k in b ==> PyEq(a[k], b[k])
  {
    PyEqDicts(a, b);
  }

  /**
   An item listed as different can carry an empty list of changed fields: exactly when the two
   differ only in which keys they hold a None for.
   */
  lemma DifferentWithoutChangesIff(a: Dict, b: Dict)
    ensures !SameItem(a, b) && ChangedFields(a, b) == map[] <==> View(a) == View(b) && a.Keys != b.Keys
  {
    NoChangesIff(a, b);
    SameItemIff(a, b);
    ViewsAgreeIff(a, b);
    if View(a) == View(b) && a.Keys == b.Keys {
      forall k | k in a && k in b ensures PyEq(a[k], b[k]) { assert PyEq(Get(a, k), Get(b, k)); }
    }
  }
}
