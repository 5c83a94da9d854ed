/**
 Firewall policies as the analysis reads them, the wildcard-aware cover test on name sets, and
 first-match evaluation, which gives a rule list its meaning.
 */
module Policies {
  import opened Wrappers

  /** One item of a FortiOS list-of-object field. */
  datatype Entry = Named(name: string) | Unnamed | NotADict

  datatype MatchField = SrcIntf | DstIntf | SrcAddr | DstAddr | Service

  /** `id` is the policy id as text, which is how ids are compared. */
  datatype Policy = Policy(
    id: string, fields: map<MatchField, seq<Entry>>, action: Option<string>, status: Option<string>,
    schedule: Option<string>, logtraffic: Option<string>, comments: Option<string>)

  // ---- Name sets -------------------------------------------------------------------------------------

  function EntryName(e: Entry): string {
    if e.Named? then e.name else ""
  }

  /** `names(policy.get(field))`. */
  function NamesOf(p: Policy, f: MatchField): set<string> {
    if f in p.fields then set e | e in p.fields[f] && !e.NotADict? :: EntryName(e) else {}
  }

  function LowerChar(c: char): char {
    if 'A' <= c <= 'Z' then 'a' + (c - 'A') else c
  }

  function Lower(s: string): string {
    if s == [] then [] else [LowerChar(s[0])] + Lower(s[1..])
  }

  predicate IsWildcardName(n: string) {
    Lower(n) == "all" || Lower(n) == "any"
  }

  predicate IsWildcard(names: set<string>) {
    exists n :: n in names && IsWildcardName(n)
  }

  predicate FieldCovers(earlier: set<string>, later: set<string>) {
    if IsWildcard(earlier) then true
    else if IsWildcard(later) then false
    else later <= earlier
  }

  /** The names of a field: those of its dict entries, an entry without a name counting as the empty one. */
  lemma NamesOfIff(p: Policy, f: MatchField, n: string)
    ensures n in NamesOf(p, f)
            <==> f in p.fields
                 && exists i :: 0 <= i < |p.fields[f]|
                                && (p.fields[f][i] == Named(n) || (p.fields[f][i].Unnamed? && n == ""))
  {
    if f in p.fields && n in NamesOf(p, f) {
      var e :| e in p.fields[f] && !e.NotADict? && EntryName(e) == n;
      var i :| 0 <= i < |p.fields[f]| && p.fields[f][i] == e;
    }
    if f in p.fields {
      if i :| 0 <= i < |p.fields[f]| && (p.fields[f][i] == Named(n) || (p.fields[f][i].Unnamed? && n == "")) {
        assert p.fields[f][i] in p.fields[f] && EntryName(p.fields[f][i]) == n;
      }
    }
  }

  /** The words "all" and "any" in any mix of upper and lower case. */
  predicate IsAnyWord(n: string) {
    |n| == 3 && n[0] in "aA" && ((n[1] in "lL" && n[2] in "lL") || (n[1] in "nN" && n[2] in "yY"))
  }

  lemma LowerOfThree(n: string)
    requires |n| == 3
    ensures Lower(n) == [LowerChar(n[0]), LowerChar(n[1]), LowerChar(n[2])]
  {
    assert n[1..][1..] == n[2..] && n[2..][1..] == [];
    assert Lower(n[2..]) == [LowerChar(n[2])];
  }

  lemma {:induction false} LowerLength(n: string)
    ensures |Lower(n)| == |n|
  {
    if n != [] { LowerLength(n[1..]); }
  }

  lemma WildcardNameIff(n: string)
    ensures IsWildcardName(n) <==> IsAnyWord(n)
  {
    LowerLength(n);
    if |n| == 3 {
      LowerOfThree(n);
      assert Lower(n) == "all" <==> LowerChar(n[0]) == 'a' && LowerChar(n[1]) == 'l' && LowerChar(n[2]) == 'l';
      assert Lower(n) == "any" <==> LowerChar(n[0]) == 'a' && LowerChar(n[1]) == 'n' && LowerChar(n[2]) == 'y';
      assert forall c: char :: (LowerChar(c) == 'a' <==> c in "aA") && (LowerChar(c) == 'l' <==> c in "lL")
                               && (LowerChar(c) == 'n' <==> c in "nN") && (LowerChar(c) == 'y' <==> c in "yY");
    }
  }

  // ---- First-match evaluation ------------------------------------------------------------------------

  /**
   The traffic asked about: a name for each field that the question fixes. `find_matching_policy`
   fixes source and destination and optionally the service; full traffic fixes all five fields.
   */
  type Probe = map<MatchField, string>

  const ALL_FIELDS: set<MatchField> := {SrcIntf, DstIntf, SrcAddr, DstAddr, Service}

  predicate Accepts(names: set<string>, value: string) {
    IsWildcard(names) || value in names
  }

  predicate Enabled(p: Policy) {
    p.status != Some("disable")
  }

  predicate Matches(p: Policy, q: Probe) {
    forall f :: f in q ==> Accepts(NamesOf(p, f), q[f])
  }

  /** The policy is enabled and matches. */
  predicate Hits(p: Policy, q: Probe) {
    Enabled(p) && Matches(p, q)
  }

  function FirstMatch(ps: seq<Policy>, q: Probe): Option<Policy> {
    if ps == [] then None
    else if Hits(ps[0], q) then Some(ps[0])
    else FirstMatch(ps[1..], q)
  }

  function QueryFor(source: string, destination: string, service: Option<string>): Probe {
    var q: Probe := map[SrcAddr := source, DstAddr := destination];
    if service.Some? then q[Service := service.value] else q
  }

  /** Some entry of the field has the name asked for, or is a wildcard word. */
  predicate Takes(p: Policy, f: MatchField, value: string) {
    f in p.fields && exists i :: 0 <= i < |p.fields[f]| && EntryTakes(p.fields[f][i], value)
  }

  predicate EntryTakes(e: Entry, value: string) {
    match e
    case Named(n) => n == value || IsAnyWord(n)
    case Unnamed => value == ""
    case NotADict => false
  }

  /** The policy answers the question: it is not disabled, and takes every name asked about. */
  predicate Answers(p: Policy, source: string, destination: string, service: Option<string>) {
    && p.status != Some("disable") && Takes(p, SrcAddr, source) && Takes(p, DstAddr, destination)
    && (service.Some? ==> Takes(p, Service, service.value))
  }

  /** Accepting a value, told from the entries. */
  lemma AcceptsIff(p: Policy, f: MatchField, value: string)
    ensures Accepts(NamesOf(p, f), value) <==> Takes(p, f, value)
  {
    NamesOfIff(p, f, value);
    if IsWildcard(NamesOf(p, f)) {
      var n :| n in NamesOf(p, f) && IsWildcardName(n);
      WildcardNameIff(n);
      NamesOfIff(p, f, n);
      var i :| 0 <= i < |p.fields[f]| && (p.fields[f][i] == Named(n) || (p.fields[f][i].Unnamed? && n == ""));
      assert EntryTakes(p.fields[f][i], value);
    }
    if value in NamesOf(p, f) {
      var i :| 0 <= i < |p.fields[f]| && (p.fields[f][i] == Named(value) || (p.fields[f][i].Unnamed? && value == ""));
      assert EntryTakes(p.fields[f][i], value);
    }
    if Takes(p, f, value) {
      var i :| 0 <= i < |p.fields[f]| && EntryTakes(p.fields[f][i], value);
      var e := p.fields[f][i];
      if e.Named? && e.name != value {
        WildcardNameIff(e.name);
        NamesOfIff(p, f, e.name);
      }
    }
  }

  lemma HitsIff(p: Policy, source: string, destination: string, service: Option<string>)
    ensures Hits(p, QueryFor(source, destination, service)) <==> Answers(p, source, destination, service)
  {
    hide NamesOf, Takes, Accepts;
    var q := QueryFor(source, destination, service);
    AcceptsIff(p, SrcAddr, source);
    AcceptsIff(p, DstAddr, destination);
    assert q[SrcAddr] == source && q[DstAddr] == destination;
    if service.Some? {
      AcceptsIff(p, Service, service.value);
      assert q[Service] == service.value;
    }
  }

  /** The answer is the first policy that answers the question. */
  lemma AnswerIs(ps: seq<Policy>, source: string, destination: string, service: Option<string>)
    ensures match FirstMatch(ps, QueryFor(source, destination, service))
            case None => forall i :: 0 <= i < |ps| ==> !Answers(ps[i], source, destination, service)
            case Some(p) =>
              exists k :: 0 <= k < |ps| && ps[k] == p && Answers(p, source, destination, service)
                && forall i :: 0 <= i < k ==> !Answers(ps[i], source, destination, service)
  {
    hide Answers, Hits;
    var q := QueryFor(source, destination, service);
    forall i | 0 <= i < |ps| ensures Hits(ps[i], q) <==> Answers(ps[i], source, destination, service) {
      HitsIff(ps[i], source, destination, service);
    }
    NoMatchIff(ps, q);
    if FirstMatch(ps, q).Some? {
      var k := FirstMatchFound(ps, q);
      assert Answers(ps[k], source, destination, service);
    }
  }

  /** `find_matching_policy`: a search loop with early return. */
  method FindMatchingPolicy(policies: seq<Policy>, source: string, destination: string, service: Option<string>)
    returns (r: Option<Policy>)
    ensures r == FirstMatch(policies, QueryFor(source, destination, service))
    ensures match r
            case None => forall i :: 0 <= i < |policies| ==> !Answers(policies[i], source, destination, service)
            case Some(p) =>
              exists k :: 0 <= k < |policies| && policies[k] == p && Answers(p, source, destination, service)
                && forall i :: 0 <= i < k ==> !Answers(policies[i], source, destination, service)
  {
    AnswerIs(policies, source, destination, service);
    hide Answers;
    ghost var q := QueryFor(source, destination, service);
    for i := 0 to |policies|
      invariant FirstMatch(policies, q) == FirstMatch(policies[i..], q)
    {
      var policy := policies[i];
      assert policies[i..][0] == policy && policies[i..][1..] == policies[i + 1..];
      if policy.status == Some("disable") {
        continue;
      }
      if !(IsWildcard(NamesOf(policy, SrcAddr)) || source in NamesOf(policy, SrcAddr)) {
        assert !Accepts(NamesOf(policy, SrcAddr), q[SrcAddr]);
        continue;
      }
      if !(IsWildcard(NamesOf(policy, DstAddr)) || destination in NamesOf(policy, DstAddr)) {
        assert !Accepts(NamesOf(policy, DstAddr), q[DstAddr]);
        continue;
      }
      if service.Some? {
        if !(IsWildcard(NamesOf(policy, Service)) || service.value in NamesOf(policy, Service)) {
          assert !Accepts(NamesOf(policy, Service), q[Service]);
          continue;
        }
      }
      return Some(policy);
    }
    return None;
  }

  /** A first match is a hit with no hit before it. */
  lemma {:induction false} FirstMatchIff(ps: seq<Policy>, q: Probe, k: nat)
    requires k < |ps| && Hits(ps[k], q)
    requires forall i :: 0 <= i < k ==> !Hits(ps[i], q)
    ensures FirstMatch(ps, q) == Some(ps[k])
  {
    if k > 0 {
      FirstMatchIff(ps[1..], q, k - 1);
    }
  }

  lemma {:induction false} FirstMatchFound(ps: seq<Policy>, q: Probe) returns (k: nat)
    requires FirstMatch(ps, q).Some?
    ensures k < |ps| && Hits(ps[k], q) && FirstMatch(ps, q) == Some(ps[k])
    ensures forall i :: 0 <= i < k ==> !Hits(ps[i], q)
  {
    if Hits(ps[0], q) {
      k := 0;
    } else {
      var k' := FirstMatchFound(ps[1..], q);
      k := k' + 1;
      assert forall i :: 0 < i < k ==> ps[i] == ps[1..][i - 1];
    }
  }

  lemma {:induction false} NoMatchIff(ps: seq<Policy>, q: Probe)
    ensures FirstMatch(ps, q).None? <==> forall i :: 0 <= i < |ps| ==> !Hits(ps[i], q)
  {
    if ps != [] {
      NoMatchIff(ps[1..], q);
      assert forall i :: 0 < i < |ps| ==> ps[i] == ps[1..][i - 1];
      if forall i :: 0 <= i < |ps| ==> !Hits(ps[i], q) {
        assert forall i :: 0 <= i < |ps[1..]| ==> ps[1..][i] == ps[i + 1];
      }
    }
  }

  lemma {:induction false} FirstMatchConcat(a: seq<Policy>, b: seq<Policy>, q: Probe)
    ensures FirstMatch(a + b, q) == if FirstMatch(a, q).Some? then FirstMatch(a, q) else FirstMatch(b, q)
  {
    if a == [] {
      assert a + b == b;
    } else {
      assert (a + b)[1..] == a[1..] + b;
      FirstMatchConcat(a[1..], b, q);
    }
  }

  // ---- A finite set of probes decides everything --------------------------------------------------------

  /** Every name some policy of the list mentions. */
  function Mentioned(ps: seq<Policy>): set<string> {
    set i, f, n | 0 <= i < |ps| && f in ALL_FIELDS && n in NamesOf(ps[i], f) :: n
  }

  /** A name longer than every member of a set, hence outside it. */
  lemma FreshName(s: set<string>) returns (n: string)
    ensures n !in s && !IsWildcardName(n)
    ensures forall m :: m in s ==> |m| < |n|
  {
    if s == {} {
      n := "0";
      assert Lower(n)[0] == '0';
    } else {
      var m :| m in s;
      var shorter := FreshName(s - {m});
      n := seq(|shorter| + |m| + 1, _ => '0');
      assert Lower(n)[0] == '0';
    }
  }

  /** Replaces every unmentioned name in a probe by one representative. */
  function Represent(q: Probe, known: set<string>, other: string): Probe {
    map f | f in q :: if q[f] in known then q[f] else other
  }

  lemma AllFields(f: MatchField)
    ensures f in ALL_FIELDS
  {
  }

  lemma RepresentKeepsHits(ps: seq<Policy>, i: nat, q: Probe, known: set<string>, other: string)
    requires i < |ps| && Mentioned(ps) <= known && other !in known
    ensures Hits(ps[i], Represent(q, known, other)) == Hits(ps[i], q)
  {
    var q' := Represent(q, known, other);
    forall f | f in q ensures Accepts(NamesOf(ps[i], f), q'[f]) == Accepts(NamesOf(ps[i], f), q[f]) {
      AllFields(f);
      assert forall n :: n in NamesOf(ps[i], f) ==> n in Mentioned(ps);
    }
  }

  lemma {:induction false} RepresentKeepsFirstMatch(ps: seq<Policy>, q: Probe, known: set<string>, other: string)
    requires Mentioned(ps) <= known && other !in known
    ensures FirstMatch(ps, Represent(q, known, other)) == FirstMatch(ps, q)
  {
    if ps != [] {
      RepresentKeepsHits(ps, 0, q, known, other);
      assert forall i :: 0 <= i < |ps[1..]| ==> ps[1..][i] == ps[i + 1];
      assert Mentioned(ps[1..]) <= known by {
        forall n | n in Mentioned(ps[1..]) ensures n in known {
          var i, f :| 0 <= i < |ps[1..]| && f in ALL_FIELDS && n in NamesOf(ps[1..][i], f);
          assert n in NamesOf(ps[i + 1], f);
          assert n in Mentioned(ps);
        }
      }
      RepresentKeepsFirstMatch(ps[1..], q, known, other);
    }
  }

  /** The probe uses only names from a given finite set. */
  predicate Within(q: Probe, names: set<string>) {
    forall f :: f in q ==> q[f] in names
  }

  /** What the list does with the traffic: the action of the first match, if any. */
  function Decision(ps: seq<Policy>, q: Probe): Option<Option<string>> {
    match FirstMatch(ps, q)
    case None => None
    case Some(p) => Some(p.action)
  }

  /**
   Two rule lists decide all traffic alike as soon as they decide alike the finitely many probes
   built from the names they mention and one name they do not mention.
   */
  lemma FinitelyManyProbesDecide(ps: seq<Policy>, qs: seq<Policy>, fields: set<MatchField>, other: string)
    requires other !in Mentioned(ps) + Mentioned(qs)
    ensures (forall q: Probe :: q.Keys == fields ==> Decision(ps, q) == Decision(qs, q))
            <==> (forall q: Probe :: q.Keys == fields && Within(q, Mentioned(ps) + Mentioned(qs) + {other}) ==>
                    Decision(ps, q) == Decision(qs, q))
  {
    var known := Mentioned(ps) + Mentioned(qs);
    if forall q: Probe :: q.Keys == fields && Within(q, known + {other}) ==> Decision(ps, q) == Decision(qs, q) {
      forall q: Probe | q.Keys == fields ensures Decision(ps, q) == Decision(qs, q) {
        var q' := Represent(q, known, other);
        assert q'.Keys == fields && Within(q', known + {other});
        RepresentKeepsFirstMatch(ps, q, known, other);
        RepresentKeepsFirstMatch(qs, q, known, other);
      }
    }
  }
}
