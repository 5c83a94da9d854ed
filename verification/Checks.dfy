/** The three flat checks that feed the score: any-any-any policies, best practices, unused objects. */
module Checks {
  import opened Wrappers
  import opened Policies
  import opened Selection

  // ---- any-any-any ---------------------------------------------------------------------------------

  predicate AnyAny(p: Policy) {
    IsWildcard(NamesOf(p, SrcAddr)) && IsWildcard(NamesOf(p, DstAddr)) && IsWildcard(NamesOf(p, Service))
  }

  function AnyAnyOf(ps: seq<Policy>): seq<Policy> {
    if ps == [] then [] else
      var last := ps[|ps| - 1];
      AnyAnyOf(ps[..|ps| - 1]) + (if AnyAny(last) then [last] else [])
  }

  /** `find_any_any_policies`; a finding carries fields of the policy it is about. */
  method FindAnyAnyPolicies(policies: seq<Policy>) returns (findings: seq<Policy>)
    ensures findings == AnyAnyOf(policies)
  {
    findings := [];
    for i := 0 to |policies|
      invariant findings == AnyAnyOf(policies[..i])
    {
      assert policies[..i + 1][..i] == policies[..i];
      var policy := policies[i];
      var srcWild := IsWildcard(NamesOf(policy, SrcAddr));
      var dstWild := IsWildcard(NamesOf(policy, DstAddr));
      var svcWild := IsWildcard(NamesOf(policy, Service));
      if srcWild && dstWild && svcWild {
        findings := findings + [policy];
      }
    }
    assert policies[..|policies|] == policies;
  }

  /** The any-any-any policies are those that match every question about source, destination and service. */
  lemma AnyAnyIff(p: Policy)
    ensures AnyAny(p)
            <==> forall source, destination, service :: Matches(p, QueryFor(source, destination, Some(service)))
  {
    if !AnyAny(p) {
      var a := FreshName(NamesOf(p, SrcAddr));
      var b := FreshName(NamesOf(p, DstAddr));
      var c := FreshName(NamesOf(p, Service));
      var q := QueryFor(a, b, Some(c));
      assert q[SrcAddr] == a && q[DstAddr] == b && q[Service] == c;
      assert !Matches(p, q);
    }
  }

  lemma {:induction false} AnyAnyIsFilter(ps: seq<Policy>)
    ensures AnyAnyOf(ps) == Filter(ps, AnyAny)
  {
    if ps != [] { AnyAnyIsFilter(ps[..|ps| - 1]); }
  }

  /** The report consists, in list order, of the policies that match every source, destination and service. */
  lemma AnyAnyReportIs(ps: seq<Policy>) returns (at: seq<nat>)
    ensures |AnyAnyOf(ps)| == |at| && forall k, l :: 0 <= k < l < |at| ==> at[k] < at[l]
    ensures forall k :: 0 <= k < |at| ==> at[k] < |ps| && AnyAnyOf(ps)[k] == ps[at[k]]
    ensures forall i: nat ::
              i in at <==> i < |ps| && forall source, destination, service ::
                                         Matches(ps[i], QueryFor(source, destination, Some(service)))
  {
    hide AnyAny, Matches, AnyAnyOf;
    AnyAnyIsFilter(ps);
    at := FilterSelects(ps, AnyAny);
    forall i: nat | i < |ps| { AnyAnyIff(ps[i]); }
  }

  // ---- Best practices ------------------------------------------------------------------------------

  datatype Severity = High | Medium | Low | Unrated

  function PracticeIssues(p: Policy): seq<Severity> {
    (if p.action == Some("accept") && (p.logtraffic.None? || p.logtraffic.value == "disable") then [Medium] else [])
    + (if p.comments.None? || p.comments.value == "" then [Low] else [])
    + (if p.status == Some("disable") then [Low] else [])
  }

  function PracticeIssuesOf(ps: seq<Policy>): seq<Severity> {
    if ps == [] then [] else PracticeIssuesOf(ps[..|ps| - 1]) + PracticeIssues(ps[|ps| - 1])
  }

  function CountOf(issues: seq<Severity>, s: Severity): nat {
    if issues == [] then 0 else CountOf(issues[..|issues| - 1], s) + (if issues[|issues| - 1] == s then 1 else 0)
  }

  lemma {:induction false} CountOfConcat(a: seq<Severity>, b: seq<Severity>, s: Severity)
    ensures CountOf(a + b, s) == CountOf(a, s) + CountOf(b, s)
  {
    if b == [] {
      assert a + b == a;
    } else {
      assert (a + b)[..|a + b| - 1] == a + b[..|b| - 1];
      CountOfConcat(a, b[..|b| - 1], s);
    }
  }

  /** Where in the list accepted traffic goes unlogged, a comment is missing, a policy is switched off. */
  function UnloggedAccepts(ps: seq<Policy>): set<nat> {
    set i: nat | i < |ps| && ps[i].action == Some("accept") && ps[i].logtraffic in {None, Some("disable")}
  }

  function Uncommented(ps: seq<Policy>): set<nat> {
    set i: nat | i < |ps| && ps[i].comments in {None, Some("")}
  }

  function SwitchedOff(ps: seq<Policy>): set<nat> {
    set i: nat | i < |ps| && !Enabled(ps[i])
  }

  /** The places in a list are those of its front and perhaps the last one. */
  lemma PlacesStep(ps: seq<Policy>)
    requires ps != []
    ensures var front, n := ps[..|ps| - 1], |ps| - 1;
            && UnloggedAccepts(ps) == UnloggedAccepts(front) + (if n in UnloggedAccepts(ps) then {n} else {})
            && Uncommented(ps) == Uncommented(front) + (if n in Uncommented(ps) then {n} else {})
            && SwitchedOff(ps) == SwitchedOff(front) + (if n in SwitchedOff(ps) then {n} else {})
            && n !in UnloggedAccepts(front) && n !in Uncommented(front) && n !in SwitchedOff(front)
  {
    var front := ps[..|ps| - 1];
    assert forall i :: 0 <= i < |front| ==> front[i] == ps[i];
  }

  lemma CountOfOne(present: bool, issue: Severity, s: Severity)
    ensures CountOf(if present then [issue] else [], s) == if present && issue == s then 1 else 0
  {
    assert [issue][..0] == [];
  }

  lemma CountsOfLast(ps: seq<Policy>, s: Severity)
    requires ps != []
    ensures var n, issues := |ps| - 1, PracticeIssues(ps[|ps| - 1]);
            CountOf(issues, s) == (if s == Medium && n in UnloggedAccepts(ps) then 1 else 0)
                                  + (if s == Low && n in Uncommented(ps) then 1 else 0)
                                  + (if s == Low && n in SwitchedOff(ps) then 1 else 0)
  {
    hide CountOf;
    var n := |ps| - 1;
    CountOfOne(n in UnloggedAccepts(ps), Medium, s);
    CountOfOne(n in Uncommented(ps), Low, s);
    CountOfOne(n in SwitchedOff(ps), Low, s);
    var a: seq<Severity> := if n in UnloggedAccepts(ps) then [Medium] else [];
    var b: seq<Severity> := if n in Uncommented(ps) then [Low] else [];
    var c: seq<Severity> := if n in SwitchedOff(ps) then [Low] else [];
    var p := ps[n];
    assert n in UnloggedAccepts(ps) <==>
           p.action == Some("accept") && (p.logtraffic.None? || p.logtraffic.value == "disable");
    assert n in Uncommented(ps) <==> p.comments.None? || p.comments.value == "";
    assert n in SwitchedOff(ps) <==> p.status == Some("disable");
    assert PracticeIssues(p) == a + b + c;
    CountOfConcat(a + b, c, s);
    CountOfConcat(a, b, s);
  }

  /** One medium finding per unlogged accept policy, one low one per missing comment and per disabled policy. */
  lemma {:induction false} PracticeCounts(ps: seq<Policy>)
    ensures CountOf(PracticeIssuesOf(ps), Medium) == |UnloggedAccepts(ps)|
    ensures CountOf(PracticeIssuesOf(ps), Low) == |Uncommented(ps)| + |SwitchedOff(ps)|
    ensures CountOf(PracticeIssuesOf(ps), High) == 0 && CountOf(PracticeIssuesOf(ps), Unrated) == 0
  {
    if ps != [] {
      hide PracticeIssues, CountOf, UnloggedAccepts, Uncommented, SwitchedOff;
      var front, p := ps[..|ps| - 1], ps[|ps| - 1];
      PracticeCounts(front);
      PlacesStep(ps);
      forall s: Severity
        ensures CountOf(PracticeIssuesOf(ps), s) == CountOf(PracticeIssuesOf(front), s) + CountOf(PracticeIssues(p), s)
      {
        CountOfConcat(PracticeIssuesOf(front), PracticeIssues(p), s);
      }
      CountsOfLast(ps, Medium);
      CountsOfLast(ps, Low);
      CountsOfLast(ps, High);
      CountsOfLast(ps, Unrated);
    }
  }

  /** The findings come policy by policy, and for one policy the medium one comes first. */
  lemma {:induction false} PracticesInOrder(ps: seq<Policy>, p: Policy, qs: seq<Policy>)
    ensures PracticeIssuesOf(ps + [p] + qs) == PracticeIssuesOf(ps) + PracticeIssuesOf([p]) + PracticeIssuesOf(qs)
    ensures Medium !in PracticeIssuesOf([p])[if PracticeIssuesOf([p]) == [] then 0 else 1..]
  {
    MediumFirst(p);
    hide PracticeIssuesOf, PracticeIssues;
    PracticesConcat(ps + [p], qs);
    PracticesConcat(ps, [p]);
  }

  lemma MediumFirst(p: Policy)
    ensures Medium !in PracticeIssuesOf([p])[if PracticeIssuesOf([p]) == [] then 0 else 1..]
  {
    assert [p][..0] == [];
  }

  lemma {:induction false} PracticesConcat(ps: seq<Policy>, qs: seq<Policy>)
    ensures PracticeIssuesOf(ps + qs) == PracticeIssuesOf(ps) + PracticeIssuesOf(qs)
  {
    hide PracticeIssues;
    if qs == [] {
      assert ps + qs == ps;
    } else {
      PracticesConcat(ps, qs[..|qs| - 1]);
      assert (ps + qs)[..|ps + qs| - 1] == ps + qs[..|qs| - 1];
    }
  }

  /** `check_best_practices`: up to three findings per policy, of which the score reads the severity. */
  method CheckBestPractices(policies: seq<Policy>) returns (findings: seq<Severity>)
    ensures findings == PracticeIssuesOf(policies)
    ensures CountOf(findings, Medium) == |UnloggedAccepts(policies)|
    ensures CountOf(findings, Low) == |Uncommented(policies)| + |SwitchedOff(policies)|
    ensures CountOf(findings, High) == 0
  {
    hide CountOf, UnloggedAccepts, Uncommented, SwitchedOff;
    PracticeCounts(policies);
    findings := [];
    for i := 0 to |policies|
      invariant findings == PracticeIssuesOf(policies[..i])
    {
      assert policies[..i + 1][..i] == policies[..i];
      var policy := policies[i];
      ghost var before := findings;
      if policy.action == Some("accept") && (policy.logtraffic.None? || policy.logtraffic.value == "disable") {
        findings := findings + [Medium];
      }
      if policy.comments.None? || policy.comments.value == "" {
        findings := findings + [Low];
      }
      if policy.status == Some("disable") {
        findings := findings + [Low];
      }
      assert findings == before + PracticeIssues(policy);
    }
    assert policies[..|policies|] == policies;
  }

  // ---- Unused objects ------------------------------------------------------------------------------

  function ReferencedBy(p: Policy, fields: seq<MatchField>): set<string> {
    if fields == [] then {} else ReferencedBy(p, fields[..|fields| - 1]) + NamesOf(p, fields[|fields| - 1])
  }

  function Referenced(ps: seq<Policy>, fields: seq<MatchField>): set<string> {
    if ps == [] then {} else Referenced(ps[..|ps| - 1], fields) + ReferencedBy(ps[|ps| - 1], fields)
  }

  /** The names, in order, of the objects that have one outside `referenced`. */
  function NamedOutside(objects: seq<Option<string>>, referenced: set<string>): seq<string> {
    if objects == [] then []
    else if objects[0].Some? && objects[0].value != "" && objects[0].value !in referenced
    then [objects[0].value] + NamedOutside(objects[1..], referenced)
    else NamedOutside(objects[1..], referenced)
  }

  function Unused(objects: seq<Option<string>>, ps: seq<Policy>, fields: seq<MatchField>): seq<string> {
    NamedOutside(objects, Referenced(ps, fields))
  }

  /** `find_unused`: grows the referenced names policy by policy and field by field. */
  method FindUnused(objects: seq<Option<string>>, policies: seq<Policy>, fields: seq<MatchField>)
    returns (names: seq<string>)
    ensures names == Unused(objects, policies, fields)
  {
    var referenced: set<string> := {};
    for i := 0 to |policies|
      invariant referenced == Referenced(policies[..i], fields)
    {
      assert policies[..i + 1][..i] == policies[..i];
      ghost var before := referenced;
      for j := 0 to |fields|
        invariant referenced == before + ReferencedBy(policies[i], fields[..j])
      {
        assert fields[..j + 1][..j] == fields[..j];
        referenced := referenced + NamesOf(policies[i], fields[j]);
      }
      assert fields[..|fields|] == fields;
    }
    assert policies[..|policies|] == policies;
    return NamedOutside(objects, referenced);
  }

  lemma {:induction false} ReferencedByIff(p: Policy, fields: seq<MatchField>, n: string)
    ensures n in ReferencedBy(p, fields) <==> exists f :: f in fields && n in NamesOf(p, f)
  {
    hide NamesOf;
    if fields != [] {
      var front, last := fields[..|fields| - 1], fields[|fields| - 1];
      ReferencedByIff(p, front, n);
      assert fields == front + [last];
    }
  }

  lemma {:induction false} ReferencedIff(ps: seq<Policy>, fields: seq<MatchField>, n: string)
    ensures n in Referenced(ps, fields) <==> exists i, f :: 0 <= i < |ps| && f in fields && n in NamesOf(ps[i], f)
  {
    hide NamesOf;
    if ps != [] {
      var k := |ps| - 1;
      ReferencedIff(ps[..k], fields, n);
      ReferencedByIff(ps[k], fields, n);
      if i, f :| 0 <= i < |ps| && f in fields && n in NamesOf(ps[i], f) && i < k { assert n in NamesOf(ps[..k][i], f); }
      if i, f :| 0 <= i < k && f in fields && n in NamesOf(ps[..k][i], f) { assert n in NamesOf(ps[i], f); }
    }
  }

  lemma {:induction false} NamedOutsideIff(objects: seq<Option<string>>, referenced: set<string>, n: string)
    ensures n in NamedOutside(objects, referenced) <==> Some(n) in objects && n != "" && n !in referenced
  {
    if objects != [] { NamedOutsideIff(objects[1..], referenced, n); }
  }

  /** An object is reported unused exactly when it is named and no policy names it in the given fields. */
  lemma UnusedIff(objects: seq<Option<string>>, ps: seq<Policy>, fields: seq<MatchField>, n: string)
    ensures n in Unused(objects, ps, fields)
            <==> Some(n) in objects && n != ""
                 && forall i, f :: 0 <= i < |ps| && f in fields ==> n !in NamesOf(ps[i], f)
  {
    NamedOutsideIff(objects, Referenced(ps, fields), n);
    ReferencedIff(ps, fields, n);
  }

  /** The object has a name, and no policy names it in the given fields. */
  predicate IsUnused(name: Option<string>, ps: seq<Policy>, fields: seq<MatchField>) {
    && name.Some? && name.value != ""
    && forall i, f :: 0 <= i < |ps| && f in fields ==> name.value !in NamesOf(ps[i], f)
  }

  predicate NamedAndOutside(name: Option<string>, referenced: set<string>) {
    name.Some? && name.value != "" && name.value !in referenced
  }

  lemma {:induction false} NamedOutsideIsFilter(objects: seq<Option<string>>, referenced: set<string>)
    ensures var kept := Filter(objects, o => NamedAndOutside(o, referenced));
            && |NamedOutside(objects, referenced)| == |kept|
            && forall k :: 0 <= k < |kept| ==> kept[k] == Some(NamedOutside(objects, referenced)[k])
  {
    if objects != [] {
      assert objects == [objects[0]] + objects[1..];
      FilterCons(objects[0], objects[1..], o => NamedAndOutside(o, referenced));
      NamedOutsideIsFilter(objects[1..], referenced);
    }
  }

  /** The report lists, in order and once per object, the names of exactly the unused objects. */
  lemma UnusedReportIs(objects: seq<Option<string>>, ps: seq<Policy>, fields: seq<MatchField>) returns (at: seq<nat>)
    ensures |Unused(objects, ps, fields)| == |at| && forall k, l :: 0 <= k < l < |at| ==> at[k] < at[l]
    ensures forall k :: 0 <= k < |at| ==> at[k] < |objects| && objects[at[k]] == Some(Unused(objects, ps, fields)[k])
    ensures forall i: nat :: i in at <==> i < |objects| && IsUnused(objects[i], ps, fields)
  {
    hide NamedOutside, Referenced, NamesOf;
    var referenced := Referenced(ps, fields);
    NamedOutsideIsFilter(objects, referenced);
    at := FilterSelects(objects, o => NamedAndOutside(o, referenced));
    forall i: nat | i < |objects|
      ensures NamedAndOutside(objects[i], referenced) <==> IsUnused(objects[i], ps, fields)
    {
      if objects[i].Some? { ReferencedIff(ps, fields, objects[i].value); }
    }
  }

  function Outside(names: seq<string>, others: set<string>): seq<string> {
    if names == [] then []
    else if names[0] in others then Outside(names[1..], others)
    else [names[0]] + Outside(names[1..], others)
  }

  lemma {:induction false} NamedOutsideMore(objects: seq<Option<string>>, r: set<string>, more: set<string>)
    ensures NamedOutside(objects, r + more) == Outside(NamedOutside(objects, r), more)
  {
    if objects != [] { NamedOutsideMore(objects[1..], r, more); }
  }

  /** A further policy takes out of the report exactly the objects it names. */
  lemma UnusedAppend(objects: seq<Option<string>>, ps: seq<Policy>, p: Policy, fields: seq<MatchField>)
    ensures Unused(objects, ps + [p], fields) == Outside(Unused(objects, ps, fields), ReferencedBy(p, fields))
  {
    assert (ps + [p])[..|ps|] == ps;
    NamedOutsideMore(objects, Referenced(ps, fields), ReferencedBy(p, fields));
  }

  lemma {:induction false} OutsideShrinks(names: seq<string>, others: set<string>)
    ensures |Outside(names, others)| <= |names|
    ensures Outside(names, others) == names <==> forall n :: n in names ==> n !in others
    ensures Outside(names, others) == names <==> |Outside(names, others)| == |names|
  {
    if names != [] {
      OutsideShrinks(names[1..], others);
      assert forall n :: n in names <==> n == names[0] || n in names[1..];
    }
  }
}
