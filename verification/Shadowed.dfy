/** Shadowed policies: exactness of the test, and what deleting the reported policies does. */
module Shadowed {
  import opened Wrappers
  import opened Policies
  import opened Selection

  /** `_shadows`. */
  predicate Shadows(earlier: Policy, later: Policy) {
    forall f :: f in ALL_FIELDS ==> FieldCovers(NamesOf(earlier, f), NamesOf(later, f))
  }

  datatype Finding = Finding(shadowedId: string, byId: string)

  function EnabledOf(ps: seq<Policy>): seq<Policy> {
    if ps == [] then []
    else if Enabled(ps[0]) then [ps[0]] + EnabledOf(ps[1..])
    else EnabledOf(ps[1..])
  }

  function RowOf(earlier: Policy, laters: seq<Policy>): seq<Finding> {
    if laters == [] then []
    else if Shadows(earlier, laters[0]) then [Finding(laters[0].id, earlier.id)] + RowOf(earlier, laters[1..])
    else RowOf(earlier, laters[1..])
  }

  /** One finding per pair of enabled policies, ordered by the earlier and then by the later one. */
  function FindingsOf(enabled: seq<Policy>): seq<Finding> {
    if enabled == [] then [] else RowOf(enabled[0], enabled[1..]) + FindingsOf(enabled[1..])
  }

  lemma RowStep(earlier: Policy, laters: seq<Policy>, j: nat)
    requires j < |laters|
    ensures RowOf(earlier, laters[j..])
         == (if Shadows(earlier, laters[j]) then [Finding(laters[j].id, earlier.id)] else [])
            + RowOf(earlier, laters[j + 1..])
  {
    assert laters[j..][1..] == laters[j + 1..];
  }

  lemma FindingsStep(enabled: seq<Policy>, i: nat)
    requires i < |enabled|
    ensures FindingsOf(enabled[i..]) == RowOf(enabled[i], enabled[i + 1..]) + FindingsOf(enabled[i + 1..])
  {
    assert enabled[i..][1..] == enabled[i + 1..];
  }

  /** `find_shadowed_policies`. */
  method FindShadowedPolicies(policies: seq<Policy>) returns (findings: seq<Finding>)
    ensures findings == FindingsOf(EnabledOf(policies))
  {
    hide Shadows, EnabledOf;
    var enabled := EnabledOf(policies);
    findings := [];
    for i := 0 to |enabled|
      invariant findings + FindingsOf(enabled[i..]) == FindingsOf(enabled)
    {
      hide RowOf, FindingsOf;
      var earlier, laters := enabled[i], enabled[i + 1..];
      ghost var before := findings;
      FindingsStep(enabled, i);
      for j := 0 to |laters|
        invariant findings + RowOf(earlier, laters[j..]) == before + RowOf(earlier, laters)
      {
        RowStep(earlier, laters, j);
        if Shadows(earlier, laters[j]) {
          findings := findings + [Finding(laters[j].id, earlier.id)];
        }
      }
      NoRow(earlier, laters[|laters|..]);
      assert findings == before + RowOf(earlier, laters);
      assert findings + FindingsOf(laters) == before + (RowOf(earlier, laters) + FindingsOf(laters));
    }
  }

  lemma NoRow(earlier: Policy, laters: seq<Policy>)
    requires laters == []
    ensures RowOf(earlier, laters) == []
  {
  }

  // ---- The test is exact -------------------------------------------------------------------------------

  /** The field test decides inclusion of the values accepted, over all the infinitely many names. */
  lemma FieldCoversIff(earlier: set<string>, later: set<string>)
    ensures FieldCovers(earlier, later) <==> forall v :: Accepts(later, v) ==> Accepts(earlier, v)
  {
    if !FieldCovers(earlier, later) {
      var v: string;
      if IsWildcard(later) {
        v := FreshName(earlier);
      } else {
        v :| v in later && v !in earlier;
      }
      assert Accepts(later, v) && !Accepts(earlier, v);
    }
  }

  /** A policy one of whose fields is empty matches no full traffic at all. */
  predicate HasEmptyField(p: Policy) {
    exists f :: f in ALL_FIELDS && NamesOf(p, f) == {}
  }

  /** `E` shadows `L` exactly when every traffic matching `L` matches `E`, unless `L` matches nothing. */
  lemma ShadowsIff(earlier: Policy, later: Policy)
    ensures Shadows(earlier, later) || HasEmptyField(later)
            <==> forall q: Probe :: q.Keys == ALL_FIELDS && Matches(later, q) ==> Matches(earlier, q)
  {
    hide FieldCovers;
    if Shadows(earlier, later) {
      forall q: Probe | Matches(later, q) ensures Matches(earlier, q) { ShadowsMatches(earlier, later, q); }
    } else if HasEmptyField(later) {
      var f :| f in ALL_FIELDS && NamesOf(later, f) == {};
      forall q: Probe | q.Keys == ALL_FIELDS ensures !Matches(later, q) {
        assert f in q && !Accepts(NamesOf(later, f), q[f]);
      }
    } else {
      var g :| g in ALL_FIELDS && !FieldCovers(NamesOf(earlier, g), NamesOf(later, g));
      FieldCoversIff(NamesOf(earlier, g), NamesOf(later, g));
      var v :| Accepts(NamesOf(later, g), v) && !Accepts(NamesOf(earlier, g), v);
      var q := Witness(later)[g := v];
      assert q.Keys == ALL_FIELDS && Matches(later, q);
      assert !Matches(earlier, q) by { assert g in q && q[g] == v; }
    }
  }

  /** Some full traffic that the policy matches. */
  ghost function Witness(p: Policy): (q: Probe)
    requires !HasEmptyField(p)
    ensures q.Keys == ALL_FIELDS && Matches(p, q)
  {
    map f | f in ALL_FIELDS :: var n :| n in NamesOf(p, f); n
  }

  /** Covering carries over to questions that fix only some of the fields. */
  lemma ShadowsMatches(earlier: Policy, later: Policy, q: Probe)
    requires Shadows(earlier, later) && Matches(later, q)
    ensures Matches(earlier, q)
  {
    forall f | f in q ensures Accepts(NamesOf(earlier, f), q[f]) {
      AllFields(f);
      FieldCoversIff(NamesOf(earlier, f), NamesOf(later, f));
      assert Accepts(NamesOf(later, f), q[f]);
    }
  }

  lemma ShadowsTransitive(a: Policy, b: Policy, c: Policy)
    requires Shadows(a, b) && Shadows(b, c)
    ensures Shadows(a, c)
  {
    forall f | f in ALL_FIELDS ensures FieldCovers(NamesOf(a, f), NamesOf(c, f)) {
      assert FieldCovers(NamesOf(a, f), NamesOf(b, f)) && FieldCovers(NamesOf(b, f), NamesOf(c, f));
    }
  }

  // ---- Who is reported ---------------------------------------------------------------------------------

  function ShadowedIds(ps: seq<Policy>): set<string> {
    set x | x in FindingsOf(EnabledOf(ps)) :: x.shadowedId
  }

  lemma {:induction false} RowIff(earlier: Policy, laters: seq<Policy>, x: Finding)
    ensures x in RowOf(earlier, laters)
            <==> x.byId == earlier.id
                 && exists j :: 0 <= j < |laters| && Shadows(earlier, laters[j]) && laters[j].id == x.shadowedId
  {
    hide Shadows;
    if laters != [] {
      RowIff(earlier, laters[1..], x);
      assert forall j :: 0 < j < |laters| ==> laters[j] == laters[1..][j - 1];
      if j :| 0 <= j < |laters[1..]| && Shadows(earlier, laters[1..][j]) && laters[1..][j].id == x.shadowedId {
        assert laters[j + 1] == laters[1..][j];
      }
    }
  }

  /** A finding is reported exactly for the pairs of enabled policies where the earlier shadows the later. */
  lemma {:induction false} FindingsIff(e: seq<Policy>, x: Finding)
    ensures x in FindingsOf(e)
            <==> exists i, j :: 0 <= i < j < |e| && Shadows(e[i], e[j]) && e[i].id == x.byId && e[j].id == x.shadowedId
  {
    hide Shadows;
    if e != [] {
      RowIff(e[0], e[1..], x);
      FindingsIff(e[1..], x);
      if x in RowOf(e[0], e[1..]) {
        var j :| 0 <= j < |e[1..]| && Shadows(e[0], e[1..][j]) && e[1..][j].id == x.shadowedId;
        assert e[j + 1] == e[1..][j];
      }
      if x in FindingsOf(e[1..]) {
        var i, j :| 0 <= i < j < |e[1..]| && Shadows(e[1..][i], e[1..][j])
                    && e[1..][i].id == x.byId && e[1..][j].id == x.shadowedId;
        assert e[i + 1] == e[1..][i] && e[j + 1] == e[1..][j];
      }
      if i, j :| 0 <= i < j < |e| && Shadows(e[i], e[j]) && e[i].id == x.byId && e[j].id == x.shadowedId {
        assert e[1..][j - 1] == e[j];
        if i > 0 { assert e[1..][i - 1] == e[i]; }
      }
    }
  }

  // ---- The whole report ----------------------------------------------------------------------------------

  type Pair = (nat, nat)

  predicate Ascending(pairs: seq<Pair>) {
    forall k, l :: 0 <= k < l < |pairs| ==>
                     pairs[k].0 < pairs[l].0 || (pairs[k].0 == pairs[l].0 && pairs[k].1 < pairs[l].1)
  }

  lemma {:induction false} EnabledIsFilter(ps: seq<Policy>)
    ensures EnabledOf(ps) == Filter(ps, Enabled)
  {
    if ps != [] {
      assert ps == [ps[0]] + ps[1..];
      FilterCons(ps[0], ps[1..], Enabled);
      EnabledIsFilter(ps[1..]);
    }
  }

  lemma {:induction false} RowIsFilter(earlier: Policy, laters: seq<Policy>)
    ensures var kept := Filter(laters, later => Shadows(earlier, later));
            && |RowOf(earlier, laters)| == |kept|
            && forall k :: 0 <= k < |kept| ==> RowOf(earlier, laters)[k] == Finding(kept[k].id, earlier.id)
  {
    hide Shadows;
    if laters != [] {
      assert laters == [laters[0]] + laters[1..];
      FilterCons(laters[0], laters[1..], later => Shadows(earlier, later));
      RowIsFilter(earlier, laters[1..]);
    }
  }

  /** The finding is the one about the pair. */
  predicate IsAbout(e: seq<Policy>, x: Finding, p: Pair) {
    p.0 < p.1 < |e| && Shadows(e[p.0], e[p.1]) && x == Finding(e[p.1].id, e[p.0].id)
  }

  lemma RowPlaces(earlier: Policy, laters: seq<Policy>) returns (at: seq<nat>)
    ensures |RowOf(earlier, laters)| == |at| && forall k, l :: 0 <= k < l < |at| ==> at[k] < at[l]
    ensures forall k :: 0 <= k < |at| ==>
              && at[k] < |laters| && Shadows(earlier, laters[at[k]])
              && RowOf(earlier, laters)[k] == Finding(laters[at[k]].id, earlier.id)
    ensures forall j: nat :: j < |laters| && Shadows(earlier, laters[j]) ==> j in at
  {
    hide Shadows, RowOf, Filter;
    RowIsFilter(earlier, laters);
    at := FilterSelects(laters, later => Shadows(earlier, later));
    assert forall k :: 0 <= k < |at| ==> at[k] in at;
  }

  lemma RowPairs(e: seq<Policy>, i: nat) returns (row: seq<Pair>)
    requires i < |e|
    ensures |RowOf(e[i], e[i + 1..])| == |row| && Ascending(row)
    ensures forall k :: 0 <= k < |row| ==> row[k].0 == i && IsAbout(e, RowOf(e[i], e[i + 1..])[k], row[k])
    ensures forall j: nat :: i < j < |e| && Shadows(e[i], e[j]) ==> (i, j) in row
  {
    hide Shadows, RowOf, Filter, Selects;
    var laters := e[i + 1..];
    var at := RowPlaces(e[i], laters);
    row := seq(|at|, k requires 0 <= k < |at| => (i, at[k] + i + 1));
    forall j: nat | i < j < |e| && Shadows(e[i], e[j]) ensures (i, j) in row {
      assert laters[j - i - 1] == e[j];
      assert row[IndexOf(at, j - i - 1)] == (i, j);
    }
  }

  lemma {:induction false} PairsFrom(e: seq<Policy>, i: nat) returns (pairs: seq<Pair>)
    requires i <= |e|
    ensures |FindingsOf(e[i..])| == |pairs| && Ascending(pairs)
    ensures forall k :: 0 <= k < |pairs| ==> i <= pairs[k].0 && IsAbout(e, FindingsOf(e[i..])[k], pairs[k])
    ensures forall m: nat, j: nat :: i <= m < j < |e| && Shadows(e[m], e[j]) ==> (m, j) in pairs
    decreases |e| - i
  {
    hide IsAbout, RowOf, Shadows;
    pairs := [];
    if i < |e| {
      FindingsStep(e, i);
      var row := RowPairs(e, i);
      var tail := PairsFrom(e, i + 1);
      pairs := row + tail;
    }
  }

  /**
   The report lists, once each and in order of the two positions, exactly the pairs of policies that
   are not disabled and of which the earlier one shadows the later one.
   */
  lemma {:induction false} ReportIs(ps: seq<Policy>) returns (pairs: seq<Pair>)
    ensures |FindingsOf(EnabledOf(ps))| == |pairs| && Ascending(pairs)
    ensures forall k :: 0 <= k < |pairs| ==>
              && pairs[k].0 < pairs[k].1 < |ps|
              && FindingsOf(EnabledOf(ps))[k] == Finding(ps[pairs[k].1].id, ps[pairs[k].0].id)
    ensures forall i: nat, j: nat ::
              (i, j) in pairs <==> && i < j < |ps| && ps[i].status != Some("disable") && ps[j].status != Some("disable")
                                   && Shadows(ps[i], ps[j])
  {
    hide Shadows, FindingsOf, EnabledOf, IsAbout, Ascending;
    var e := EnabledOf(ps);
    var at := EnabledPlaces(ps);
    var local := PairsFrom(e, 0);
    assert e[0..] == e;
    LocalPairs(e, local);
    pairs := Moved(at, local);
    MovedAscends(at, local);
    forall i: nat, j: nat | i < j < |ps| && Enabled(ps[i]) && Enabled(ps[j]) && Shadows(ps[i], ps[j])
      ensures (i, j) in pairs
    {
      MovedHas(at, local, IndexOf(at, i), IndexOf(at, j));
    }
  }

  /** Positions among the enabled policies as positions in the whole list. */
  function Moved(at: seq<nat>, local: seq<Pair>): seq<Pair>
    requires forall k :: 0 <= k < |local| ==> local[k].0 < |at| && local[k].1 < |at|
  {
    seq(|local|, k requires 0 <= k < |local| => (at[local[k].0], at[local[k].1]))
  }

  lemma MovedAscends(at: seq<nat>, local: seq<Pair>)
    requires forall k :: 0 <= k < |local| ==> local[k].0 < |at| && local[k].1 < |at|
    requires Ascending(local) && forall k, l :: 0 <= k < l < |at| ==> at[k] < at[l]
    ensures Ascending(Moved(at, local))
  {
  }

  lemma MovedHas(at: seq<nat>, local: seq<Pair>, m: nat, n: nat)
    requires forall k :: 0 <= k < |local| ==> local[k].0 < |at| && local[k].1 < |at|
    requires m < |at| && n < |at| && (m, n) in local
    ensures (at[m], at[n]) in Moved(at, local)
  {
    var k :| 0 <= k < |local| && local[k] == (m, n);
    assert Moved(at, local)[k] == (at[m], at[n]);
  }

  lemma LocalPairs(e: seq<Policy>, local: seq<Pair>)
    requires |FindingsOf(e)| == |local| && forall k :: 0 <= k < |local| ==> IsAbout(e, FindingsOf(e)[k], local[k])
    ensures forall k :: 0 <= k < |local| ==>
              && local[k].0 < local[k].1 < |e| && Shadows(e[local[k].0], e[local[k].1])
              && FindingsOf(e)[k] == Finding(e[local[k].1].id, e[local[k].0].id)
  {
    hide Shadows, FindingsOf;
  }

  lemma EnabledPlaces(ps: seq<Policy>) returns (at: seq<nat>)
    ensures |EnabledOf(ps)| == |at| && forall k, l :: 0 <= k < l < |at| ==> at[k] < at[l]
    ensures forall k :: 0 <= k < |at| ==> at[k] < |ps| && EnabledOf(ps)[k] == ps[at[k]] && Enabled(ps[at[k]])
    ensures forall i: nat :: i < |ps| && Enabled(ps[i]) ==> i in at
  {
    hide Filter;
    EnabledIsFilter(ps);
    at := FilterSelects(ps, Enabled);
    assert forall k :: 0 <= k < |at| ==> at[k] in at;
  }

  // ---- Deleting what is reported -----------------------------------------------------------------------

  predicate DistinctIds(ps: seq<Policy>) {
    forall i, j :: 0 <= i < j < |ps| ==> ps[i].id != ps[j].id
  }

  function Without(ps: seq<Policy>, ids: set<string>): seq<Policy> {
    if ps == [] then []
    else if ps[0].id in ids then Without(ps[1..], ids)
    else [ps[0]] + Without(ps[1..], ids)
  }

  lemma {:induction false} EnabledFirstMatch(ps: seq<Policy>, q: Probe)
    ensures FirstMatch(EnabledOf(ps), q) == FirstMatch(ps, q)
  {
    if ps != [] { EnabledFirstMatch(ps[1..], q); }
  }

  lemma {:induction false} EnabledConcat(a: seq<Policy>, b: seq<Policy>)
    ensures EnabledOf(a + b) == EnabledOf(a) + EnabledOf(b)
  {
    if a == [] {
      assert a + b == b;
    } else {
      assert (a + b)[1..] == a[1..] + b;
      EnabledConcat(a[1..], b);
    }
  }

  lemma {:induction false} EnabledMembers(ps: seq<Policy>, i: nat) returns (k: nat)
    requires i < |EnabledOf(ps)|
    ensures i <= k < |ps| && ps[k] == EnabledOf(ps)[i] && Enabled(ps[k])
  {
    if Enabled(ps[0]) && i == 0 {
      k := 0;
    } else {
      var k' := EnabledMembers(ps[1..], if Enabled(ps[0]) then i - 1 else i);
      k := k' + 1;
    }
  }

  lemma {:induction false} EnabledDistinct(ps: seq<Policy>)
    requires DistinctIds(ps)
    ensures DistinctIds(EnabledOf(ps))
  {
    if ps != [] {
      var rest := EnabledOf(ps[1..]);
      assert DistinctIds(ps[1..]) by { assert forall i :: 0 <= i < |ps[1..]| ==> ps[1..][i] == ps[i + 1]; }
      EnabledDistinct(ps[1..]);
      forall j | 0 <= j < |rest| ensures rest[j].id != ps[0].id {
        var k := EnabledMembers(ps[1..], j);
        assert ps[1..][k] == ps[k + 1];
      }
    }
  }

  /** Dropping policies other than the first match leaves the first match alone. */
  lemma {:induction false} WithoutKeepsFirstMatch(ps: seq<Policy>, ids: set<string>, q: Probe)
    requires FirstMatch(ps, q).Some? ==> FirstMatch(ps, q).value.id !in ids
    ensures FirstMatch(Without(ps, ids), q) == FirstMatch(ps, q)
  {
    if ps != [] && !Hits(ps[0], q) { WithoutKeepsFirstMatch(ps[1..], ids, q); }
  }

  /** A shadowed policy is never the first match. */
  lemma FirstMatchIsNotShadowed(ps: seq<Policy>, q: Probe)
    requires DistinctIds(ps) && FirstMatch(ps, q).Some?
    ensures FirstMatch(ps, q).value.id !in ShadowedIds(ps)
  {
    var e := EnabledOf(ps);
    EnabledFirstMatch(ps, q);
    EnabledDistinct(ps);
    var k := FirstMatchFound(e, q);
    if e[k].id in ShadowedIds(ps) {
      var x :| x in FindingsOf(e) && x.shadowedId == e[k].id;
      FindingsIff(e, x);
      var i, j :| 0 <= i < j < |e| && Shadows(e[i], e[j]) && e[i].id == x.byId && e[j].id == x.shadowedId;
      assert j == k;
      ShadowsMatches(e[i], e[k], q);
      var m := EnabledMembers(ps, i);
      assert Hits(e[i], q);
    }
  }

  /**
   Deleting any of the policies reported as shadowed, all of them at once or some, changes the
   answer to no question, even though a shadowing policy may itself be among those deleted.
   */
  lemma DeletingShadowedKeepsMeaning(ps: seq<Policy>, ids: set<string>, q: Probe)
    requires DistinctIds(ps) && ids <= ShadowedIds(ps)
    ensures FirstMatch(Without(ps, ids), q) == FirstMatch(ps, q)
  {
    if FirstMatch(ps, q).Some? { FirstMatchIsNotShadowed(ps, q); }
    WithoutKeepsFirstMatch(ps, ids, q);
  }

  // ---- Nothing more to delete, and nothing uncovered ----------------------------------------------------

  lemma {:induction false} WithoutPair(e: seq<Policy>, ids: set<string>, i: nat, j: nat) returns (k: nat, l: nat)
    requires i < j < |Without(e, ids)|
    ensures k < l < |e| && e[k] == Without(e, ids)[i] && e[l] == Without(e, ids)[j]
    ensures e[l].id !in ids
  {
    if e[0].id in ids {
      k, l := WithoutPair(e[1..], ids, i, j);
      k, l := k + 1, l + 1;
    } else if i == 0 {
      l := WithoutMember(e[1..], ids, j - 1);
      k, l := 0, l + 1;
    } else {
      k, l := WithoutPair(e[1..], ids, i - 1, j - 1);
      k, l := k + 1, l + 1;
    }
  }

  lemma {:induction false} WithoutMember(e: seq<Policy>, ids: set<string>, i: nat) returns (k: nat)
    requires i < |Without(e, ids)|
    ensures k < |e| && e[k] == Without(e, ids)[i] && e[k].id !in ids
  {
    if e[0].id in ids {
      k := WithoutMember(e[1..], ids, i);
      k := k + 1;
    } else if i == 0 {
      k := 0;
    } else {
      k := WithoutMember(e[1..], ids, i - 1);
      k := k + 1;
    }
  }

  lemma {:induction false} WithoutEnabled(ps: seq<Policy>, ids: set<string>)
    ensures EnabledOf(Without(ps, ids)) == Without(EnabledOf(ps), ids)
  {
    if ps != [] { WithoutEnabled(ps[1..], ids); }
  }

  /** One round of deletion is enough: the report on what remains is empty. */
  lemma NothingLeftToReport(ps: seq<Policy>)
    ensures FindingsOf(EnabledOf(Without(ps, ShadowedIds(ps)))) == []
  {
    hide Shadows;
    var e, ids := EnabledOf(ps), ShadowedIds(ps);
    var e' := Without(e, ids);
    WithoutEnabled(ps, ids);
    if FindingsOf(e') != [] {
      var x := FindingsOf(e')[0];
      FindingsIff(e', x);
      var i, j :| 0 <= i < j < |e'| && Shadows(e'[i], e'[j]) && e'[i].id == x.byId && e'[j].id == x.shadowedId;
      var k, l := WithoutPair(e, ids, i, j);
      var y := Finding(e[l].id, e[k].id);
      FindingsIff(e, y);
      assert false;
    }
  }

  /** Every policy that is shadowed is shadowed by one that is not, so by one that survives the deletion. */
  lemma {:induction false} SurvivingShadower(e: seq<Policy>, i: nat, j: nat) returns (k: nat)
    requires i < j < |e| && Shadows(e[i], e[j])
    ensures k <= i && Shadows(e[k], e[j])
    ensures forall m :: 0 <= m < k ==> !Shadows(e[m], e[k])
    decreases i
  {
    if m :| 0 <= m < i && Shadows(e[m], e[i]) {
      ShadowsTransitive(e[m], e[i], e[j]);
      k := SurvivingShadower(e, m, j);
    } else {
      k := i;
    }
  }
}
