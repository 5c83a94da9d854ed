/** The 0-100 security score: capped deductions per category. */
module Scoring {
  import opened Checks

  datatype Grade = F | D | C | B | A

  function GradeOf(score: int): Grade {
    if score >= 90 then A
    else if score >= 75 then B
    else if score >= 60 then C
    else if score >= 40 then D
    else F
  }

  function Rank(g: Grade): nat {
    match g
    case F => 0
    case D => 1
    case C => 2
    case B => 3
    case A => 4
  }

  /** Everything the score looks at. */
  datatype Counts = Counts(
    anyAny: int, shadowed: int, duplicates: int, unused: int,
    practices: seq<Severity>, system: seq<Severity>)

  datatype Category = AnyAnyPolicies | ShadowedPolicies | DuplicateGroups | UnusedObjects | BestPractices | SystemConfig

  datatype Deduction = Deduction(category: Category, points: int)

  datatype Score = Score(score: int, grade: Grade, deductions: seq<Deduction>)

  function Min(a: int, b: int): int { if a < b then a else b }

  function Max(a: int, b: int): int { if a < b then b else a }

  function IssuePoints(issues: seq<Severity>): int {
    Min(CountOf(issues, High) * 5 + CountOf(issues, Medium) * 2 + CountOf(issues, Low), 15)
  }

  function CountPoints(count: int, perItem: int, cap: int): int {
    if count <= 0 then 0 else Min(count * perItem, cap)
  }

  /** The points each category costs. */
  function PointsFor(c: Counts, category: Category): int {
    match category
    case AnyAnyPolicies => CountPoints(c.anyAny, 15, 40)
    case ShadowedPolicies => CountPoints(c.shadowed, 5, 20)
    case DuplicateGroups => CountPoints(c.duplicates, 3, 15)
    case UnusedObjects => CountPoints(c.unused, 1, 10)
    case BestPractices => IssuePoints(c.practices)
    case SystemConfig => IssuePoints(c.system)
  }

  function DeductionFor(c: Counts, category: Category): seq<Deduction> {
    if PointsFor(c, category) == 0 then [] else [Deduction(category, PointsFor(c, category))]
  }

  /** The categories that cost something, in the order of the checks. */
  function DeductionsOf(c: Counts): seq<Deduction> {
    DeductionFor(c, AnyAnyPolicies) + DeductionFor(c, ShadowedPolicies) + DeductionFor(c, DuplicateGroups)
    + DeductionFor(c, UnusedObjects) + DeductionFor(c, BestPractices) + DeductionFor(c, SystemConfig)
  }

  function Sum(ds: seq<Deduction>): int {
    if ds == [] then 0 else Sum(ds[..|ds| - 1]) + ds[|ds| - 1].points
  }

  lemma SumAppend(ds: seq<Deduction>, d: Deduction)
    ensures Sum(ds + [d]) == Sum(ds) + d.points
  {
    assert (ds + [d])[..|ds|] == ds;
  }

  lemma EmptySum()
    ensures Sum([]) == 0
  {
  }

  /** One `_deduct` call, or one of the two issue blocks: updates the running score and the list. */
  method Deduct(score: int, deductions: seq<Deduction>, category: Category, points: int)
    returns (score': int, deductions': seq<Deduction>)
    ensures score' == score - points
    ensures deductions' == deductions + (if points == 0 then [] else [Deduction(category, points)])
    ensures Sum(deductions') == Sum(deductions) + points
  {
    score', deductions' := score, deductions;
    if points != 0 {
      score' := score - points;
      deductions' := deductions + [Deduction(category, points)];
      SumAppend(deductions, Deduction(category, points));
    }
  }

  /** `score_security`: the score is what the listed deductions leave of 100, never below 0. */
  method ScoreSecurity(c: Counts) returns (r: Score)
    ensures r.deductions == DeductionsOf(c)
    ensures r.score == Max(0, 100 - Sum(r.deductions))
    ensures r.grade == GradeOf(r.score)
  {
    hide CountPoints, IssuePoints, Sum, Max, GradeOf;
    EmptySum();
    var score, deductions := 100, [];
    score, deductions := Deduct(score, deductions, AnyAnyPolicies, CountPoints(c.anyAny, 15, 40));
    score, deductions := Deduct(score, deductions, ShadowedPolicies, CountPoints(c.shadowed, 5, 20));
    score, deductions := Deduct(score, deductions, DuplicateGroups, CountPoints(c.duplicates, 3, 15));
    score, deductions := Deduct(score, deductions, UnusedObjects, CountPoints(c.unused, 1, 10));
    score, deductions := Deduct(score, deductions, BestPractices, IssuePoints(c.practices));
    score, deductions := Deduct(score, deductions, SystemConfig, IssuePoints(c.system));
    score := Max(0, score);
    return Score(score, GradeOf(score), deductions);
  }

  // ---- Weights, caps and thresholds ----------------------------------------------------------------

  /** The grade thresholds. */
  lemma GradeIs(score: int)
    ensures GradeOf(score) == A <==> 90 <= score
    ensures GradeOf(score) == B <==> 75 <= score < 90
    ensures GradeOf(score) == C <==> 60 <= score < 75
    ensures GradeOf(score) == D <==> 40 <= score < 60
    ensures GradeOf(score) == F <==> score < 40
  {
  }

  /** What each finding costs until its category is exhausted. */
  lemma PointsAre(c: Counts)
    ensures PointsFor(c, AnyAnyPolicies) == if c.anyAny <= 0 then 0 else if c.anyAny <= 2 then 15 * c.anyAny else 40
    ensures PointsFor(c, ShadowedPolicies)
         == if c.shadowed <= 0 then 0 else if c.shadowed <= 4 then 5 * c.shadowed else 20
    ensures PointsFor(c, DuplicateGroups)
         == if c.duplicates <= 0 then 0 else if c.duplicates <= 5 then 3 * c.duplicates else 15
    ensures PointsFor(c, UnusedObjects) == if c.unused <= 0 then 0 else if c.unused <= 10 then c.unused else 10
    ensures PointsFor(c, BestPractices) == Weighed(c.practices) && PointsFor(c, SystemConfig) == Weighed(c.system)
  {
    IssuePointsAre(c.practices);
    IssuePointsAre(c.system);
  }

  /** The places of the issues with a severity. */
  function Rated(issues: seq<Severity>, s: Severity): set<nat> {
    set i: nat | i < |issues| && issues[i] == s
  }

  /** Five points for a high issue, two for a medium one, one for a low one, fifteen at most. */
  function Weighed(issues: seq<Severity>): int {
    var total := 5 * |Rated(issues, High)| + 2 * |Rated(issues, Medium)| + |Rated(issues, Low)|;
    if total <= 15 then total else 15
  }

  lemma {:induction false} CountOfIs(issues: seq<Severity>, s: Severity)
    ensures CountOf(issues, s) == |Rated(issues, s)|
  {
    if issues != [] {
      var n := |issues| - 1;
      CountOfIs(issues[..n], s);
      assert Rated(issues, s) == Rated(issues[..n], s) + (if issues[n] == s then {n} else {});
    }
  }

  lemma IssuePointsAre(issues: seq<Severity>)
    ensures IssuePoints(issues) == Weighed(issues)
  {
    hide CountOf, Rated;
    CountOfIs(issues, High);
    CountOfIs(issues, Medium);
    CountOfIs(issues, Low);
  }

  function Position(category: Category): nat {
    match category
    case AnyAnyPolicies => 0
    case ShadowedPolicies => 1
    case DuplicateGroups => 2
    case UnusedObjects => 3
    case BestPractices => 4
    case SystemConfig => 5
  }

  /** The deductions list each category that costs something, once, with its points, in the order of the checks. */
  lemma DeductionsAre(c: Counts)
    ensures forall d :: d in DeductionsOf(c) <==> d.points == PointsFor(c, d.category) && d.points != 0
    ensures var ds := DeductionsOf(c);
            forall i, j :: 0 <= i < j < |ds| ==> Position(ds[i].category) < Position(ds[j].category)
  {
    hide PointsFor;
    var a, b, d := DeductionFor(c, AnyAnyPolicies), DeductionFor(c, ShadowedPolicies), DeductionFor(c, DuplicateGroups);
    var e, f, g := DeductionFor(c, UnusedObjects), DeductionFor(c, BestPractices), DeductionFor(c, SystemConfig);
    InOneOf(a, b, d, e, f, g);
    forall x: Deduction ensures x in DeductionsOf(c) <==> x.points == PointsFor(c, x.category) && x.points != 0 {
      assert x in DeductionsOf(c) <==> x in a || x in b || x in d || x in e || x in f || x in g;
      forall category: Category
        ensures x in DeductionFor(c, category)
                <==> x.category == category && x.points == PointsFor(c, category) && x.points != 0
      {
        assert x == Deduction(x.category, x.points);
      }
    }
  }

  lemma InOneOf(a: seq<Deduction>, b: seq<Deduction>, c: seq<Deduction>, d: seq<Deduction>, e: seq<Deduction>,
                f: seq<Deduction>)
    requires forall x :: (x in a ==> Position(x.category) == 0) && (x in b ==> Position(x.category) == 1)
                         && (x in c ==> Position(x.category) == 2) && (x in d ==> Position(x.category) == 3)
                         && (x in e ==> Position(x.category) == 4) && (x in f ==> Position(x.category) == 5)
    requires |a| <= 1 && |b| <= 1 && |c| <= 1 && |d| <= 1 && |e| <= 1 && |f| <= 1
    ensures forall x :: x in a + b + c + d + e + f <==> x in a || x in b || x in c || x in d || x in e || x in f
    ensures var ds := a + b + c + d + e + f;
            forall i, j :: 0 <= i < j < |ds| ==> Position(ds[i].category) < Position(ds[j].category)
  {
    hide Position;
    Joined(a, b, 0, 1);
    Joined(a + b, c, 1, 2);
    Joined(a + b + c, d, 2, 3);
    Joined(a + b + c + d, e, 3, 4);
    Joined(a + b + c + d + e, f, 4, 5);
  }

  predicate Rising(ds: seq<Deduction>, last: nat) {
    && (forall i, j :: 0 <= i < j < |ds| ==> Position(ds[i].category) < Position(ds[j].category))
    && (forall i :: 0 <= i < |ds| ==> Position(ds[i].category) <= last)
  }

  lemma Joined(ds: seq<Deduction>, next: seq<Deduction>, last: nat, position: nat)
    requires Rising(ds, last) && last < position && |next| <= 1
    requires forall x :: x in next ==> Position(x.category) == position
    ensures Rising(ds + next, position) && forall x :: x in ds + next <==> x in ds || x in next
  {
    assert forall i :: 0 <= i < |next| ==> next[i] in next;
  }

  // ---- Properties ----------------------------------------------------------------------------------

  function Total(c: Counts): int {
    PointsFor(c, AnyAnyPolicies) + PointsFor(c, ShadowedPolicies) + PointsFor(c, DuplicateGroups)
    + PointsFor(c, UnusedObjects) + PointsFor(c, BestPractices) + PointsFor(c, SystemConfig)
  }

  lemma SumFor(ds: seq<Deduction>, c: Counts, category: Category)
    ensures Sum(ds + DeductionFor(c, category)) == Sum(ds) + PointsFor(c, category)
  {
    hide PointsFor;
    if PointsFor(c, category) == 0 {
      assert ds + DeductionFor(c, category) == ds;
    } else {
      SumAppend(ds, Deduction(category, PointsFor(c, category)));
    }
  }

  lemma SumIsTotal(c: Counts)
    ensures Sum(DeductionsOf(c)) == Total(c)
  {
    hide PointsFor, DeductionFor;
    var a := DeductionFor(c, AnyAnyPolicies);
    var b := a + DeductionFor(c, ShadowedPolicies);
    var d := b + DeductionFor(c, DuplicateGroups);
    var e := d + DeductionFor(c, UnusedObjects);
    var f := e + DeductionFor(c, BestPractices);
    assert [] + a == a;
    SumFor([], c, AnyAnyPolicies);
    SumFor(a, c, ShadowedPolicies);
    SumFor(b, c, DuplicateGroups);
    SumFor(d, c, UnusedObjects);
    SumFor(e, c, BestPractices);
    SumFor(f, c, SystemConfig);
  }

  function ScoreOf(c: Counts): int {
    Max(0, 100 - Sum(DeductionsOf(c)))
  }

  /** No category got better. */
  predicate NoBetter(c: Counts, c': Counts) {
    && c.anyAny <= c'.anyAny && c.shadowed <= c'.shadowed && c.duplicates <= c'.duplicates && c.unused <= c'.unused
    && (forall s :: CountOf(c.practices, s) <= CountOf(c'.practices, s))
    && (forall s :: CountOf(c.system, s) <= CountOf(c'.system, s))
  }

  lemma CountPointsMonotone(n: int, n': int, perItem: nat, cap: nat)
    requires n <= n'
    ensures CountPoints(n, perItem, cap) <= CountPoints(n', perItem, cap)
  {
    if n > 0 { assert n * perItem <= n' * perItem; }
  }

  lemma PointsMonotone(c: Counts, c': Counts, category: Category)
    requires NoBetter(c, c')
    ensures PointsFor(c, category) <= PointsFor(c', category)
  {
    hide CountPoints;
    match category
    case AnyAnyPolicies => CountPointsMonotone(c.anyAny, c'.anyAny, 15, 40);
    case ShadowedPolicies => CountPointsMonotone(c.shadowed, c'.shadowed, 5, 20);
    case DuplicateGroups => CountPointsMonotone(c.duplicates, c'.duplicates, 3, 15);
    case UnusedObjects => CountPointsMonotone(c.unused, c'.unused, 1, 10);
    case _ =>
      var a, b := if category == BestPractices then c.practices else c.system,
                  if category == BestPractices then c'.practices else c'.system;
      assert CountOf(a, High) <= CountOf(b, High);
      assert CountOf(a, Medium) <= CountOf(b, Medium);
      assert CountOf(a, Low) <= CountOf(b, Low);
  }

  lemma GradeMonotone(s: int, s': int)
    requires s <= s'
    ensures Rank(GradeOf(s)) <= Rank(GradeOf(s'))
  {
  }

  /** More findings never raise the score, nor the grade. */
  lemma ScoreMonotone(c: Counts, c': Counts)
    requires NoBetter(c, c')
    ensures ScoreOf(c') <= ScoreOf(c)
    ensures Rank(GradeOf(ScoreOf(c'))) <= Rank(GradeOf(ScoreOf(c)))
  {
    hide PointsFor, NoBetter, Sum, DeductionsOf;
    SumIsTotal(c);
    SumIsTotal(c');
    forall category: Category ensures PointsFor(c, category) <= PointsFor(c', category) {
      PointsMonotone(c, c', category);
    }
    GradeMonotone(ScoreOf(c'), ScoreOf(c));
  }

  lemma PointsCapped(c: Counts)
    ensures 0 <= PointsFor(c, AnyAnyPolicies) <= 40
    ensures 0 <= PointsFor(c, ShadowedPolicies) <= 20
    ensures 0 <= PointsFor(c, DuplicateGroups) <= 15
    ensures 0 <= PointsFor(c, UnusedObjects) <= 10
    ensures 0 <= PointsFor(c, BestPractices) <= 15
    ensures 0 <= PointsFor(c, SystemConfig) <= 15
  {
  }

  /**
   The score needs clamping only when nearly everything is wrong at once: all categories but unused
   objects have findings, and the five others cost more than 85 points. Without system-config
   findings it never does.
   */
  lemma ClampedOnlyIf(c: Counts)
    requires 100 - Sum(DeductionsOf(c)) < 0
    ensures Total(c) - PointsFor(c, SystemConfig) > 85 && PointsFor(c, SystemConfig) > 0
    ensures c.anyAny >= 2 && c.shadowed >= 2 && c.duplicates >= 1
    ensures exists s :: s != Unrated && CountOf(c.practices, s) > 0
  {
    hide CountOf, Sum, DeductionsOf;
    SumIsTotal(c);
    PointsCapped(c);
    PointsZeroIff(c);
  }

  /** The caps alone keep the score within 0 and 100 when there are no system-config findings. */
  lemma UnclampedWithoutSystemIssues(c: Counts)
    ensures PointsFor(c, SystemConfig) == 0 ==> 0 <= 100 - Sum(DeductionsOf(c)) <= 100
  {
    SumIsTotal(c);
    PointsCapped(c);
  }

  /** Clamping does happen, with no unused object at all. */
  lemma ClampingHappens()
    ensures var c := Counts(3, 4, 5, 0, seq(3, _ => High), seq(3, _ => High));
            Sum(DeductionsOf(c)) == 105 && ScoreOf(c) == 0
  {
    var issues: seq<Severity> := seq(3, _ => High);
    var c := Counts(3, 4, 5, 0, issues, issues);
    assert issues[..2] == [High, High] && issues[..2][..1] == [High] && [High][..0] == [];
    assert CountOf(issues[..2], High) == 2;
    SumIsTotal(c);
  }

  /** No single category can bring the score below 60. */
  lemma OneCategoryKeepsSixty(c: Counts, category: Category)
    requires forall other: Category :: other != category ==> PointsFor(c, other) == 0
    ensures ScoreOf(c) >= 60 && Rank(GradeOf(ScoreOf(c))) >= Rank(C)
    ensures ScoreOf(c) == 60 <==> category == AnyAnyPolicies && c.anyAny >= 3
  {
    SumIsTotal(c);
    PointsCapped(c);
  }

  /** A perfect score means that there are no rated findings at all. */
  lemma PerfectIff(c: Counts)
    ensures ScoreOf(c) == 100 <==>
              c.anyAny <= 0 && c.shadowed <= 0 && c.duplicates <= 0 && c.unused <= 0
              && forall s :: s != Unrated ==> CountOf(c.practices, s) == 0 && CountOf(c.system, s) == 0
  {
    hide PointsFor, Sum, DeductionsOf, CountOf;
    SumIsTotal(c);
    PointsCapped(c);
    PointsZeroIff(c);
  }

  lemma PointsZeroIff(c: Counts)
    ensures PointsFor(c, AnyAnyPolicies) == 0 <==> c.anyAny <= 0
    ensures PointsFor(c, ShadowedPolicies) == 0 <==> c.shadowed <= 0
    ensures PointsFor(c, DuplicateGroups) == 0 <==> c.duplicates <= 0
    ensures PointsFor(c, UnusedObjects) == 0 <==> c.unused <= 0
    ensures PointsFor(c, BestPractices) == 0 <==> forall s :: s != Unrated ==> CountOf(c.practices, s) == 0
    ensures PointsFor(c, SystemConfig) == 0 <==> forall s :: s != Unrated ==> CountOf(c.system, s) == 0
  {
    IssuePointsZeroIff(c.practices);
    IssuePointsZeroIff(c.system);
  }

  lemma IssuePointsZeroIff(issues: seq<Severity>)
    ensures IssuePoints(issues) == 0 <==> forall s :: s != Unrated ==> CountOf(issues, s) == 0
  {
    hide CountOf;
    assert CountOf(issues, High) >= 0 && CountOf(issues, Medium) >= 0 && CountOf(issues, Low) >= 0;
    if IssuePoints(issues) == 0 {
      forall s: Severity | s != Unrated ensures CountOf(issues, s) == 0 { assert s == High || s == Medium || s == Low; }
    }
  }
}
