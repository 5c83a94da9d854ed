/** The security score over all the checks, and how it reacts to a further policy. */
module AnalysisService {
  import opened Wrappers
  import opened Policies
  import opened Shadowed
  import opened Checks
  import opened Scoring
  import opened Selection
  import Duplicate

  /** The objects of a device by name, and the issues found in its system configuration. */
  datatype Inventory = Inventory(
    addresses: seq<Option<string>>, services: seq<Option<string>>, vips: seq<Option<string>>, system: seq<Severity>)

  const ADDRESS_FIELDS := [SrcAddr, DstAddr]
  const SERVICE_FIELDS := [Service]

  function CountsFor(ps: seq<Policy>, inv: Inventory): Counts {
    Counts(
      |AnyAnyOf(ps)|,
      |FindingsOf(EnabledOf(ps))|,
      |Duplicate.ReportsOf(ps, Duplicate.KeysOf(ps))|,
      |Unused(inv.addresses, ps, ADDRESS_FIELDS)| + |Unused(inv.services, ps, SERVICE_FIELDS)|
      + |Unused(inv.vips, ps, ADDRESS_FIELDS)|,
      PracticeIssuesOf(ps),
      inv.system)
  }

  /** `_score`. */
  method ScoreDevice(policies: seq<Policy>, inv: Inventory) returns (r: Score)
    ensures r.deductions == DeductionsOf(CountsFor(policies, inv))
    ensures r.score == ScoreOf(CountsFor(policies, inv)) && r.grade == GradeOf(r.score)
  {
    hide AnyAnyOf, FindingsOf, EnabledOf, Duplicate.ReportsOf, Duplicate.KeysOf, Unused, PracticeIssuesOf,
          DeductionsOf, Sum;
    var anyAny := FindAnyAnyPolicies(policies);
    var shadowed := FindShadowedPolicies(policies);
    var duplicates := Duplicate.FindDuplicatePolicies(policies);
    var unusedAddresses := FindUnused(inv.addresses, policies, ADDRESS_FIELDS);
    var unusedServices := FindUnused(inv.services, policies, SERVICE_FIELDS);
    var unusedVips := FindUnused(inv.vips, policies, ADDRESS_FIELDS);
    var practices := CheckBestPractices(policies);
    r := ScoreSecurity(Counts(|anyAny|, |shadowed|, |duplicates|,
                              |unusedAddresses| + |unusedServices| + |unusedVips|, practices, inv.system));
  }

  // ---- What is counted -------------------------------------------------------------------------------

  /** The pairs of policies, not disabled, of which the earlier shadows the later. */
  ghost function ShadowedPairs(ps: seq<Policy>): set<Pair> {
    set i: nat, j: nat | i < j < |ps| && ps[i].status != Some("disable") && ps[j].status != Some("disable")
                         && Shadows(ps[i], ps[j]) :: (i, j)
  }

  /** The first members of the groups of two or more policies that agree on all names and the action. */
  ghost function GroupStarts(ps: seq<Policy>): set<nat> {
    set i: nat | i < |ps| && StartsGroup(ps, i)
  }

  ghost predicate StartsGroup(ps: seq<Policy>, i: nat)
    requires i < |ps|
  {
    && (forall m :: 0 <= m < i ==> Duplicate.KeyOf(ps[m]) != Duplicate.KeyOf(ps[i]))
    && (exists j :: i < j < |ps| && Duplicate.KeyOf(ps[j]) == Duplicate.KeyOf(ps[i]))
  }

  function UnusedPlaces(objects: seq<Option<string>>, ps: seq<Policy>, fields: seq<MatchField>): set<nat> {
    set i: nat | i < |objects| && IsUnused(objects[i], ps, fields)
  }

  lemma ShadowedCount(ps: seq<Policy>)
    ensures |FindingsOf(EnabledOf(ps))| == |ShadowedPairs(ps)|
  {
    hide Shadows, FindingsOf, EnabledOf;
    var pairs := ReportIs(ps);
    assert Members(pairs) == ShadowedPairs(ps);
    MembersSize(pairs);
  }

  lemma UnusedCount(objects: seq<Option<string>>, ps: seq<Policy>, fields: seq<MatchField>)
    ensures |Unused(objects, ps, fields)| == |UnusedPlaces(objects, ps, fields)|
  {
    hide Unused, IsUnused;
    var at := UnusedReportIs(objects, ps, fields);
    assert Members(at) == UnusedPlaces(objects, ps, fields);
    MembersSize(at);
  }

  lemma AnyAnyCount(ps: seq<Policy>)
    ensures |AnyAnyOf(ps)| == |set i: nat | i < |ps| && AnyAny(ps[i])|
  {
    AnyAnyIsFilter(ps);
    FilterSize(ps, AnyAny);
    assert PlacesOf(ps, AnyAny) == set i: nat | i < |ps| && AnyAny(ps[i]);
  }

  lemma DuplicateCount(ps: seq<Policy>)
    ensures |Duplicate.ReportsOf(ps, Duplicate.KeysOf(ps))| == |GroupStarts(ps)|
  {
    hide Duplicate.KeyOf, Duplicate.GroupOf, Duplicate.ReportsOf, Duplicate.KeysOf, GroupStarts, StartsGroup, Filter;
    var keys := Duplicate.KeysOf(ps);
    var starts := Duplicate.KeysInOrder(ps);
    Duplicate.ReportedKeys(ps, keys);
    var at := FilterSelects(keys, key => |Duplicate.GroupOf(ps, key)| > 1);
    assert forall k :: 0 <= k < |at| ==> at[k] in at;
    var firsts := seq(|at|, k requires 0 <= k < |at| => starts[at[k]]);
    forall k | 0 <= k < |at| ensures firsts[k] in GroupStarts(ps) { GroupStartsIff(ps, keys, starts, at[k]); }
    forall i | i in GroupStarts(ps) ensures i in firsts {
      var m := StartOf(ps, keys, starts, i);
      GroupStartsIff(ps, keys, starts, m);
      assert firsts[IndexOf(at, m)] == i;
    }
    assert Members(firsts) == GroupStarts(ps);
    MembersSize(firsts);
  }

  lemma StartOf(ps: seq<Policy>, keys: seq<Duplicate.Key>, starts: seq<nat>, i: nat) returns (m: nat)
    requires keys == Duplicate.KeysOf(ps) && |starts| == |keys| && i in GroupStarts(ps)
    requires forall k :: 0 <= k < |keys| ==>
               && starts[k] < |ps| && Duplicate.KeyOf(ps[starts[k]]) == keys[k]
               && forall j :: 0 <= j < starts[k] ==> Duplicate.KeyOf(ps[j]) != keys[k]
    ensures m < |keys| && starts[m] == i
  {
    hide Duplicate.KeyOf, Duplicate.KeysOf;
    Duplicate.KeysIff(ps, Duplicate.KeyOf(ps[i]));
    m :| m < |keys| && keys[m] == Duplicate.KeyOf(ps[i]);
  }

  lemma GroupStartsIff(ps: seq<Policy>, keys: seq<Duplicate.Key>, starts: seq<nat>, m: nat)
    requires |starts| == |keys| && m < |keys| && starts[m] < |ps| && Duplicate.KeyOf(ps[starts[m]]) == keys[m]
    requires forall i :: 0 <= i < starts[m] ==> Duplicate.KeyOf(ps[i]) != keys[m]
    ensures starts[m] in GroupStarts(ps) <==> |Duplicate.GroupOf(ps, keys[m])| > 1
  {
    hide Duplicate.KeyOf, Duplicate.GroupOf;
    Duplicate.GroupSizeIff(ps, keys[m]);
  }

  /** What enters the score, counted on the policies and objects themselves. */
  lemma CountsAre(ps: seq<Policy>, inv: Inventory)
    ensures var c := CountsFor(ps, inv);
            && c.anyAny == |set i: nat | i < |ps| && AnyAny(ps[i])|
            && c.shadowed == |ShadowedPairs(ps)|
            && c.duplicates == |GroupStarts(ps)|
            && c.unused == |UnusedPlaces(inv.addresses, ps, [SrcAddr, DstAddr])|
                           + |UnusedPlaces(inv.services, ps, [Service])|
                           + |UnusedPlaces(inv.vips, ps, [SrcAddr, DstAddr])|
            && CountOf(c.practices, Medium) == |UnloggedAccepts(ps)|
            && CountOf(c.practices, Low) == |Uncommented(ps)| + |SwitchedOff(ps)|
            && CountOf(c.practices, High) == 0 && c.system == inv.system
  {
    hide AnyAny, AnyAnyOf, FindingsOf, EnabledOf, Duplicate.ReportsOf, Duplicate.KeysOf, Unused, PracticeIssuesOf,
         ShadowedPairs, GroupStarts, UnusedPlaces, UnloggedAccepts, Uncommented, SwitchedOff, CountOf;
    AnyAnyCount(ps);
    ShadowedCount(ps);
    DuplicateCount(ps);
    UnusedCount(inv.addresses, ps, [SrcAddr, DstAddr]);
    UnusedCount(inv.services, ps, [Service]);
    UnusedCount(inv.vips, ps, [SrcAddr, DstAddr]);
    PracticeCounts(ps);
  }

  // ---- A further policy ------------------------------------------------------------------------------

  lemma {:induction false} RowGrows(earlier: Policy, laters: seq<Policy>, p: Policy)
    ensures |RowOf(earlier, laters + [p])| >= |RowOf(earlier, laters)|
  {
    hide Shadows;
    if laters != [] {
      assert (laters + [p])[1..] == laters[1..] + [p];
      RowGrows(earlier, laters[1..], p);
    }
  }

  lemma {:induction false} FindingsGrow(e: seq<Policy>, p: Policy)
    ensures |FindingsOf(e + [p])| >= |FindingsOf(e)|
  {
    hide RowOf;
    if e != [] {
      assert (e + [p])[1..] == e[1..] + [p];
      RowGrows(e[0], e[1..], p);
      FindingsGrow(e[1..], p);
    }
  }

  lemma ShadowedGrow(ps: seq<Policy>, p: Policy)
    ensures |FindingsOf(EnabledOf(ps + [p]))| >= |FindingsOf(EnabledOf(ps))|
  {
    hide FindingsOf;
    EnabledConcat(ps, [p]);
    assert EnabledOf([p]) == if Enabled(p) then [p] else [];
    if Enabled(p) {
      FindingsGrow(EnabledOf(ps), p);
    } else {
      assert EnabledOf(ps) + [] == EnabledOf(ps);
    }
  }

  lemma {:induction false} ReportsGrow(ps: seq<Policy>, p: Policy, keys: seq<Duplicate.Key>)
    ensures |Duplicate.ReportsOf(ps + [p], keys)| >= |Duplicate.ReportsOf(ps, keys)|
  {
    if keys != [] {
      var key := keys[|keys| - 1];
      ReportsGrow(ps, p, keys[..|keys| - 1]);
      assert (ps + [p])[..|ps|] == ps;
      assert |Duplicate.GroupOf(ps + [p], key)| >= |Duplicate.GroupOf(ps, key)|;
    }
  }

  lemma {:induction false} DuplicatesGrow(ps: seq<Policy>, p: Policy)
    ensures |Duplicate.ReportsOf(ps + [p], Duplicate.KeysOf(ps + [p]))|
         >= |Duplicate.ReportsOf(ps, Duplicate.KeysOf(ps))|
  {
    hide Duplicate.GroupOf;
    var keys, keys' := Duplicate.KeysOf(ps), Duplicate.KeysOf(ps + [p]);
    assert (ps + [p])[..|ps|] == ps;
    ReportsGrow(ps, p, keys);
    if keys' != keys { assert keys'[..|keys'| - 1] == keys; }
  }

  /** A further policy adds findings of every kind but one: objects it names stop being unused. */
  lemma {:induction false} AppendCounts(ps: seq<Policy>, p: Policy, inv: Inventory)
    ensures var c, c' := CountsFor(ps, inv), CountsFor(ps + [p], inv);
            && c.anyAny <= c'.anyAny && c.shadowed <= c'.shadowed && c.duplicates <= c'.duplicates
            && (forall s :: CountOf(c.practices, s) <= CountOf(c'.practices, s)) && c'.system == c.system
            && c'.unused == |Outside(Unused(inv.addresses, ps, ADDRESS_FIELDS), ReferencedBy(p, ADDRESS_FIELDS))|
                            + |Outside(Unused(inv.services, ps, SERVICE_FIELDS), ReferencedBy(p, SERVICE_FIELDS))|
                            + |Outside(Unused(inv.vips, ps, ADDRESS_FIELDS), ReferencedBy(p, ADDRESS_FIELDS))|
            && c'.unused <= c.unused
  {
    hide Unused, FindingsOf, Duplicate.ReportsOf, Duplicate.KeysOf, NamesOf, EnabledOf, Outside, ReferencedBy;
    assert (ps + [p])[..|ps|] == ps;
    ShadowedGrow(ps, p);
    DuplicatesGrow(ps, p);
    UnusedAppend(inv.addresses, ps, p, ADDRESS_FIELDS);
    UnusedAppend(inv.services, ps, p, SERVICE_FIELDS);
    UnusedAppend(inv.vips, ps, p, ADDRESS_FIELDS);
    OutsideShrinks(Unused(inv.addresses, ps, ADDRESS_FIELDS), ReferencedBy(p, ADDRESS_FIELDS));
    OutsideShrinks(Unused(inv.services, ps, SERVICE_FIELDS), ReferencedBy(p, SERVICE_FIELDS));
    OutsideShrinks(Unused(inv.vips, ps, ADDRESS_FIELDS), ReferencedBy(p, ADDRESS_FIELDS));
    forall s ensures CountOf(PracticeIssuesOf(ps), s) <= CountOf(PracticeIssuesOf(ps + [p]), s) {
      CountOfConcat(PracticeIssuesOf(ps), PracticeIssues(p), s);
    }
  }

  /** The points that unused objects cost before and no longer cost after. */
  function Freed(c: Counts, c': Counts): int {
    PointsFor(c, UnusedObjects) - PointsFor(c', UnusedObjects)
  }

  /** The points that the other findings about policies cost after and did not cost before. */
  function Added(c: Counts, c': Counts): int {
    PointsFor(c', AnyAnyPolicies) - PointsFor(c, AnyAnyPolicies)
    + PointsFor(c', ShadowedPolicies) - PointsFor(c, ShadowedPolicies)
    + PointsFor(c', DuplicateGroups) - PointsFor(c, DuplicateGroups)
    + PointsFor(c', BestPractices) - PointsFor(c, BestPractices)
  }

  /**
   Appending a policy raises the score exactly when it frees more capped points by putting unused
   objects to use than its own findings add, and the deductions stay below 100. It never gains more
   than the ten points that unused objects can cost.
   */
  lemma {:induction false} AppendRaisesScoreIff(ps: seq<Policy>, p: Policy, inv: Inventory)
    ensures var c, c' := CountsFor(ps, inv), CountsFor(ps + [p], inv);
            && 0 <= Freed(c, c') <= 10 && 0 <= Added(c, c')
            && (ScoreOf(c') > ScoreOf(c) <==> Freed(c, c') > Added(c, c') && Total(c') < 100)
            && ScoreOf(c') <= ScoreOf(c) + 10
  {
    AppendCounts(ps, p, inv);
    hide CountsFor, CountOf, PointsFor, Sum, DeductionsOf;
    var c, c' := CountsFor(ps, inv), CountsFor(ps + [p], inv);
    var worse := c'.(unused := c.unused);
    SumIsTotal(c);
    SumIsTotal(c');
    PointsCapped(c);
    PointsCapped(c');
    forall category: Category | category != UnusedObjects
      ensures PointsFor(c, category) <= PointsFor(c', category)
    {
      PointsMonotone(c, worse, category);
      OtherPoints(c', c.unused, category);
    }
    OtherPoints(c', c.unused, SystemConfig);
    SystemPoints(c, c');
    UnusedPoints(c', c);
  }

  lemma OtherPoints(c: Counts, unused: int, category: Category)
    requires category != UnusedObjects
    ensures PointsFor(c.(unused := unused), category) == PointsFor(c, category)
  {
  }

  lemma SystemPoints(c: Counts, c': Counts)
    requires c.system == c'.system
    ensures PointsFor(c, SystemConfig) == PointsFor(c', SystemConfig)
  {
  }

  lemma UnusedPoints(c: Counts, c': Counts)
    requires c.unused <= c'.unused
    ensures PointsFor(c, UnusedObjects) <= PointsFor(c', UnusedObjects)
    ensures c.unused == c'.unused ==> PointsFor(c, UnusedObjects) == PointsFor(c', UnusedObjects)
  {
  }

  /** The policy refers to no object that is unused so far. */
  ghost predicate NamesNoUnused(ps: seq<Policy>, p: Policy, inv: Inventory) {
    && (forall f, n :: f in ADDRESS_FIELDS && n in NamesOf(p, f) ==>
          n !in Unused(inv.addresses, ps, ADDRESS_FIELDS) && n !in Unused(inv.vips, ps, ADDRESS_FIELDS))
    && (forall f, n :: f in SERVICE_FIELDS && n in NamesOf(p, f) ==> n !in Unused(inv.services, ps, SERVICE_FIELDS))
  }

  /** The unused count stays as it is exactly when the policy refers to no unused object. */
  lemma {:induction false} UnusedStaysIff(ps: seq<Policy>, p: Policy, inv: Inventory)
    ensures CountsFor(ps + [p], inv).unused == CountsFor(ps, inv).unused <==> NamesNoUnused(ps, p, inv)
  {
    AppendCounts(ps, p, inv);
    hide Unused, NamesOf, Outside, ReferencedBy, AnyAnyOf, FindingsOf, EnabledOf, Duplicate.ReportsOf, Duplicate.KeysOf,
         PracticeIssuesOf;
    OutsideShrinks(Unused(inv.addresses, ps, ADDRESS_FIELDS), ReferencedBy(p, ADDRESS_FIELDS));
    OutsideShrinks(Unused(inv.services, ps, SERVICE_FIELDS), ReferencedBy(p, SERVICE_FIELDS));
    OutsideShrinks(Unused(inv.vips, ps, ADDRESS_FIELDS), ReferencedBy(p, ADDRESS_FIELDS));
    forall n ensures n in ReferencedBy(p, ADDRESS_FIELDS) <==> exists f :: f in ADDRESS_FIELDS && n in NamesOf(p, f) {
      ReferencedByIff(p, ADDRESS_FIELDS, n);
    }
    forall n ensures n in ReferencedBy(p, SERVICE_FIELDS) <==> exists f :: f in SERVICE_FIELDS && n in NamesOf(p, f) {
      ReferencedByIff(p, SERVICE_FIELDS, n);
    }
  }

  /** Appending a policy that puts no unused object to use never raises the score. */
  lemma {:induction false} AppendNeverRaisesScore(ps: seq<Policy>, p: Policy, inv: Inventory)
    requires NamesNoUnused(ps, p, inv)
    ensures ScoreOf(CountsFor(ps + [p], inv)) <= ScoreOf(CountsFor(ps, inv))
  {
    hide NamesNoUnused, CountsFor, ScoreOf, Total, PointsFor;
    UnusedStaysIff(ps, p, inv);
    AppendRaisesScoreIff(ps, p, inv);
    UnusedPoints(CountsFor(ps + [p], inv), CountsFor(ps, inv));
  }

  // ---- Why the condition is needed ---------------------------------------------------------------------

  const USER: Policy := Policy("1", map[SrcAddr := [Named("a")]], Some("accept"), None, None, Some("all"), Some("why"))
  const ONE_OBJECT: Inventory := Inventory([Some("a")], [], [], [])

  lemma UserNames()
    ensures "a" in NamesOf(USER, SrcAddr) && NamesOf(USER, DstAddr) == {} && NamesOf(USER, Service) == {}
  {
    var e := Named("a");
    assert USER.fields[SrcAddr][0] == e && e in USER.fields[SrcAddr] && EntryName(e) == "a";
  }

  lemma UserPolicyChecks()
    ensures AnyAnyOf([USER]) == [] && FindingsOf(EnabledOf([USER])) == [] && PracticeIssuesOf([USER]) == []
  {
    UserNames();
    assert [USER][..0] == [] && [USER][1..] == [];
    assert EnabledOf([USER]) == [USER];
    assert PracticeIssues(USER) == [];
  }

  lemma UserHasNoDuplicate()
    ensures Duplicate.ReportsOf([USER], Duplicate.KeysOf([USER])) == []
  {
    hide Duplicate.KeyOf;
    var key := Duplicate.KeyOf(USER);
    assert [USER][..0] == [];
    assert Duplicate.KeysOf([USER]) == [key] && Duplicate.GroupOf([USER], key) == [USER];
    assert [key][..0] == [];
  }

  lemma ObjectIsUsedBy()
    ensures Unused(ONE_OBJECT.addresses, [], ADDRESS_FIELDS) == ["a"]
    ensures Unused(ONE_OBJECT.addresses, [USER], ADDRESS_FIELDS) == []
  {
    UserNames();
    var r := Referenced([USER], ADDRESS_FIELDS);
    assert ADDRESS_FIELDS[0] == SrcAddr && [USER][0] == USER;
    ReferencedIff([USER], ADDRESS_FIELDS, "a");
    assert ONE_OBJECT.addresses[1..] == [] && NamedOutside([], r) == [];
  }

  /** Without that condition the score can rise: a first policy puts the one unused object to use. */
  lemma AppendCanRaiseScore()
    ensures !NamesNoUnused([], USER, ONE_OBJECT)
    ensures ScoreOf(CountsFor([] + [USER], ONE_OBJECT)) > ScoreOf(CountsFor([], ONE_OBJECT))
  {
    hide Unused, FindingsOf, EnabledOf, AnyAnyOf, Duplicate.ReportsOf, Duplicate.KeysOf, NamesOf, Sum, DeductionsOf,
          Total, PointsFor;
    UserNames();
    UserPolicyChecks();
    UserHasNoDuplicate();
    ObjectIsUsedBy();
    NothingUnused([]);
    NothingUnused([USER]);
    assert ADDRESS_FIELDS[0] == SrcAddr && "a" in ["a"];
    assert SrcAddr in ADDRESS_FIELDS && "a" in Unused(ONE_OBJECT.addresses, [], ADDRESS_FIELDS);
    var none, one := CountsFor([], ONE_OBJECT), CountsFor([USER], ONE_OBJECT);
    assert [] + [USER] == [USER];
    PerfectIff(one);
    PerfectIff(none);
    AtMostHundred(none);
  }

  lemma NothingUnused(ps: seq<Policy>)
    ensures Unused([], ps, ADDRESS_FIELDS) == [] && Unused([], ps, SERVICE_FIELDS) == []
  {
  }

  lemma AtMostHundred(c: Counts)
    ensures ScoreOf(c) <= 100
  {
    SumIsTotal(c);
    PointsCapped(c);
  }
}
