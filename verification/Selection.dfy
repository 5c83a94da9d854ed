/** The members of a list that have a property, in order: Python's filtering comprehensions and loops. */
module Selection {

  function Filter<T>(s: seq<T>, keep: T -> bool): seq<T> {
    if s == [] then [] else
      var last := s[|s| - 1];
      Filter(s[..|s| - 1], keep) + (if keep(last) then [last] else [])
  }

  /** The places, in increasing order, of exactly the members that have the property. */
  ghost predicate Selects<T(!new)>(s: seq<T>, keep: T -> bool, at: seq<nat>) {
    && (forall i: nat :: i in at <==> i < |s| && keep(s[i]))
    && (forall k, l :: 0 <= k < l < |at| ==> at[k] < at[l])
  }

  function IndexOf(at: seq<nat>, i: nat): (k: nat)
    requires i in at
    ensures k < |at| && at[k] == i
  {
    if at[0] == i then 0 else 1 + IndexOf(at[1..], i)
  }

  /** Filtering keeps each member with the property once per place, in the order of the places. */
  lemma {:induction false} FilterSelects<T(!new)>(s: seq<T>, keep: T -> bool) returns (at: seq<nat>)
    ensures Selects(s, keep, at) && |Filter(s, keep)| == |at|
    ensures forall k :: 0 <= k < |at| ==> at[k] < |s| && Filter(s, keep)[k] == s[at[k]]
  {
    at := [];
    if s != [] {
      var n := |s| - 1;
      var front := FilterSelects(s[..n], keep);
      assert forall k :: 0 <= k < |front| ==> front[k] in front;
      at := front + (if keep(s[n]) then [n] else []);
    }
  }

  lemma {:induction false} FilterCons<T>(x: T, rest: seq<T>, keep: T -> bool)
    ensures Filter([x] + rest, keep) == (if keep(x) then [x] else []) + Filter(rest, keep)
  {
    if rest == [] {
      assert [x] + rest == [x] && [x][..0] == [];
    } else {
      var n := |rest| - 1;
      assert ([x] + rest)[..n + 1] == [x] + rest[..n];
      FilterCons(x, rest[..n], keep);
    }
  }

  /** The places of the members that have the property. */
  ghost function PlacesOf<T(!new)>(s: seq<T>, keep: T -> bool): set<nat> {
    set i: nat | i < |s| && keep(s[i])
  }

  lemma PlacesStep<T(!new)>(s: seq<T>, keep: T -> bool)
    requires s != []
    ensures var n := |s| - 1;
            && n !in PlacesOf(s[..n], keep)
            && PlacesOf(s, keep) == PlacesOf(s[..n], keep) + (if keep(s[n]) then {n} else {})
  {
    var n := |s| - 1;
    assert forall i: nat :: i < n ==> s[..n][i] == s[i];
    assert forall i :: i in PlacesOf(s, keep) <==> i in PlacesOf(s[..n], keep) || (keep(s[n]) && i == n);
  }

  /** There are as many members as places. */
  lemma {:induction false} FilterSize<T(!new)>(s: seq<T>, keep: T -> bool)
    ensures |Filter(s, keep)| == |PlacesOf(s, keep)|
  {
    if s != [] {
      PlacesStep(s, keep);
      hide PlacesOf;
      FilterSize(s[..|s| - 1], keep);
    }
  }

  function Members<T>(s: seq<T>): set<T> {
    set x | x in s
  }

  lemma {:induction false} MembersSize<T>(s: seq<T>)
    requires forall k, l :: 0 <= k < l < |s| ==> s[k] != s[l]
    ensures |Members(s)| == |s|
  {
    if s != [] {
      var n := |s| - 1;
      var front := s[..n];
      MembersSize(front);
      assert s == front + [s[n]];
      assert Members(s) == Members(front) + {s[n]};
      assert s[n] !in front;
    }
  }
}
