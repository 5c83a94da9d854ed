/** Why a given policy might not be matching: the diagnosis and what each finding says about traffic. */
module Diagnosis {
  import opened Wrappers
  import opened Policies
  import opened Shadowed

  datatype Issue =
    | NotFound
    | Disabled
    | ShadowedBy(id: string)
    | ScheduleRestricted(schedule: string)
    | DeniedEarlier(id: string)
    | NoObviousIssue

  function FindById(ps: seq<Policy>, id: string): Option<Policy> {
    if ps == [] then None
    else if ps[0].id == id then Some(ps[0])
    else FindById(ps[1..], id)
  }

  /** The first enabled deny policy in front of the policy `id` that covers `target`. */
  function DenyBefore(ps: seq<Policy>, id: string, target: Policy): Option<Policy> {
    if ps == [] || ps[0].id == id then None
    else if Enabled(ps[0]) && ps[0].action == Some("deny") && Shadows(ps[0], target) then Some(ps[0])
    else DenyBefore(ps[1..], id, target)
  }

  /** The first finding about the policy `id`. */
  function FindingAbout(findings: seq<Finding>, id: string): Option<Finding> {
    if findings == [] then None
    else if findings[0].shadowedId == id then Some(findings[0])
    else FindingAbout(findings[1..], id)
  }

  predicate Restricted(p: Policy) {
    p.schedule.Some? && p.schedule.value != "" && p.schedule.value != "always"
  }

  function One(x: Option<Issue>): (r: seq<Issue>)
    ensures forall y :: y in r <==> x == Some(y)
  {
    if x.Some? then [x.value] else []
  }

  /** The complaints raised, in order, or the clean bill when there is none. */
  function Complaints(disabled: Option<Issue>, shadow: Option<Issue>, schedule: Option<Issue>,
                      deny: Option<Issue>): seq<Issue> {
    var issues := One(disabled) + One(shadow) + One(schedule) + One(deny);
    if issues == [] then [NoObviousIssue] else issues
  }

  function DisabledIssue(target: Policy): Option<Issue> {
    if Enabled(target) then None else Some(Disabled)
  }

  function ShadowIssue(ps: seq<Policy>, id: string): Option<Issue> {
    match FindingAbout(FindingsOf(EnabledOf(ps)), id)
    case None => None
    case Some(x) => Some(ShadowedBy(x.byId))
  }

  function ScheduleIssue(target: Policy): Option<Issue> {
    if Restricted(target) then Some(ScheduleRestricted(target.schedule.value)) else None
  }

  function DenyIssue(ps: seq<Policy>, id: string, target: Policy): Option<Issue> {
    match DenyBefore(ps, id, target)
    case None => None
    case Some(p) => Some(DeniedEarlier(p.id))
  }

  function Diagnose(ps: seq<Policy>, id: string): seq<Issue> {
    match FindById(ps, id)
    case None => [NotFound]
    case Some(target) =>
      Complaints(DisabledIssue(target), ShadowIssue(ps, id), ScheduleIssue(target), DenyIssue(ps, id, target))
  }

  /** `_earlier_deny_covering`, for a target that exists. */
  method EarlierDenyCovering(policies: seq<Policy>, id: string, target: Policy) returns (r: Option<Policy>)
    ensures r == DenyBefore(policies, id, target)
  {
    hide Shadows;
    for i := 0 to |policies|
      invariant DenyBefore(policies, id, target) == DenyBefore(policies[i..], id, target)
    {
      var policy := policies[i];
      assert policies[i..][0] == policy && policies[i..][1..] == policies[i + 1..];
      if policy.id == id {
        return None;
      }
      if policy.status == Some("disable") || policy.action != Some("deny") {
        continue;
      }
      if Shadows(policy, target) {
        return Some(policy);
      }
    }
    return None;
  }

  /** `diagnose_policy`. */
  method DiagnosePolicy(id: string, policies: seq<Policy>) returns (issues: seq<Issue>)
    ensures issues == Diagnose(policies, id)
  {
    hide Shadows, EnabledOf, FindingsOf, FindingAbout, DenyBefore, FindById;
    var found := FindById(policies, id);
    if found.None? {
      return [NotFound];
    }
    var target := found.value;
    issues := [];
    if target.status == Some("disable") {
      issues := issues + [Disabled];
    }
    var findings := FindShadowedPolicies(policies);
    var shadow := FindingAbout(findings, id);
    if shadow.Some? {
      issues := issues + [ShadowedBy(shadow.value.byId)];
    }
    if Restricted(target) {
      issues := issues + [ScheduleRestricted(target.schedule.value)];
    }
    var deny := EarlierDenyCovering(policies, id, target);
    if deny.Some? {
      issues := issues + [DeniedEarlier(deny.value.id)];
    }
    if issues == [] {
      issues := [NoObviousIssue];
    }
  }

  // ---- What the findings mean --------------------------------------------------------------------------

  /** The policy at position `k` is the only one with its id. */
  ghost predicate OnlyAt(ps: seq<Policy>, k: nat, id: string) {
    k < |ps| && forall i :: 0 <= i < |ps| ==> (ps[i].id == id <==> i == k)
  }

  /** The target is the first policy with the id. */
  lemma {:induction false} FindByIdAt(ps: seq<Policy>, k: nat, id: string)
    requires k < |ps| && ps[k].id == id && forall i :: 0 <= i < k ==> ps[i].id != id
    ensures FindById(ps, id) == Some(ps[k])
  {
    if k > 0 { FindByIdAt(ps[1..], k - 1, id); }
  }

  /** The first enabled policy that covers the target. */
  function FirstCover(ps: seq<Policy>, target: Policy): Option<Policy> {
    if ps == [] then None
    else if Enabled(ps[0]) && Shadows(ps[0], target) then Some(ps[0])
    else FirstCover(ps[1..], target)
  }

  lemma {:induction false} FirstCoverIff(ps: seq<Policy>, target: Policy)
    ensures FirstCover(ps, target).Some? <==> exists i :: 0 <= i < |ps| && Enabled(ps[i]) && Shadows(ps[i], target)
    ensures FirstCover(ps, target).Some? ==>
              exists i :: 0 <= i < |ps| && Enabled(ps[i]) && Shadows(ps[i], target)
                          && FirstCover(ps, target).value == ps[i]
  {
    hide Shadows;
    if ps != [] {
      FirstCoverIff(ps[1..], target);
      if FirstCover(ps[1..], target).Some? {
        var i :| 0 <= i < |ps[1..]| && Enabled(ps[1..][i]) && Shadows(ps[1..][i], target)
                 && FirstCover(ps[1..], target).value == ps[1..][i];
        assert ps[i + 1] == ps[1..][i];
      }
      if i :| 0 <= i < |ps| && Enabled(ps[i]) && Shadows(ps[i], target) && i > 0 { assert ps[1..][i - 1] == ps[i]; }
    }
  }

  lemma {:induction false} FirstCoverOfEnabled(ps: seq<Policy>, target: Policy)
    ensures FirstCover(EnabledOf(ps), target) == FirstCover(ps, target)
  {
    hide Shadows;
    if ps != [] { FirstCoverOfEnabled(ps[1..], target); }
  }

  lemma {:induction false} FindingAboutConcat(a: seq<Finding>, b: seq<Finding>, id: string)
    ensures FindingAbout(a + b, id) == if FindingAbout(a, id).Some? then FindingAbout(a, id) else FindingAbout(b, id)
  {
    if a == [] {
      assert a + b == b;
    } else {
      assert (a + b)[1..] == a[1..] + b;
      FindingAboutConcat(a[1..], b, id);
    }
  }

  lemma {:induction false} FindingAboutRow(earlier: Policy, laters: seq<Policy>, k: nat, id: string)
    requires OnlyAt(laters, k, id)
    ensures FindingAbout(RowOf(earlier, laters), id)
         == if Shadows(earlier, laters[k]) then Some(Finding(id, earlier.id)) else None
  {
    hide Shadows;
    if k > 0 {
      FindingAboutRow(earlier, laters[1..], k - 1, id);
    } else {
      NoFindingInRow(earlier, laters[1..], id);
    }
  }

  lemma {:induction false} NoFindingInRow(earlier: Policy, laters: seq<Policy>, id: string)
    requires forall i :: 0 <= i < |laters| ==> laters[i].id != id
    ensures FindingAbout(RowOf(earlier, laters), id) == None
  {
    hide Shadows;
    if laters != [] { NoFindingInRow(earlier, laters[1..], id); }
  }

  lemma {:induction false} NoFindingAbout(e: seq<Policy>, id: string)
    requires forall i :: 0 < i < |e| ==> e[i].id != id
    ensures FindingAbout(FindingsOf(e), id) == None
  {
    hide Shadows;
    if e != [] {
      NoFindingInRow(e[0], e[1..], id);
      NoFindingAbout(e[1..], id);
      FindingAboutConcat(RowOf(e[0], e[1..]), FindingsOf(e[1..]), id);
    }
  }

  /** Among enabled policies the reported shadower is the first one that covers the target. */
  lemma {:induction false} FindingAboutAt(e: seq<Policy>, k: nat, id: string)
    requires OnlyAt(e, k, id) && forall i :: 0 <= i < |e| ==> Enabled(e[i])
    ensures FindingAbout(FindingsOf(e), id)
         == match FirstCover(e[..k], e[k]) case None => None case Some(p) => Some(Finding(id, p.id))
  {
    hide Shadows, Enabled;
    if k == 0 {
      NoFindingAbout(e, id);
    } else {
      FindingAboutRow(e[0], e[1..], k - 1, id);
      FindingAboutAt(e[1..], k - 1, id);
      FindingAboutConcat(RowOf(e[0], e[1..]), FindingsOf(e[1..]), id);
      assert e[..k][1..] == e[1..][..k - 1];
    }
  }

  lemma NoSuchEnabled(ps: seq<Policy>, id: string)
    requires forall i :: 0 <= i < |ps| ==> ps[i].id != id
    ensures forall i :: 0 <= i < |EnabledOf(ps)| ==> EnabledOf(ps)[i].id != id
    ensures forall i :: 0 <= i < |EnabledOf(ps)| ==> Enabled(EnabledOf(ps)[i])
  {
    forall i | 0 <= i < |EnabledOf(ps)| ensures EnabledOf(ps)[i].id != id && Enabled(EnabledOf(ps)[i]) {
      var k := EnabledMembers(ps, i);
    }
  }

  /**
   A policy is reported as shadowed exactly when it is enabled and an enabled one in front covers it; the
   first such is named.
   */
  lemma ShadowFindingIs(ps: seq<Policy>, k: nat, id: string)
    requires OnlyAt(ps, k, id)
    ensures FindingAbout(FindingsOf(EnabledOf(ps)), id)
         == if !Enabled(ps[k]) then None else
              match FirstCover(ps[..k], ps[k]) case None => None case Some(p) => Some(Finding(id, p.id))
  {
    hide Shadows;
    var pre, post := ps[..k], ps[k + 1..];
    var a, b := EnabledOf(pre), EnabledOf(post);
    assert ps == pre + ([ps[k]] + post);
    EnabledConcat(pre, [ps[k]] + post);
    EnabledConcat([ps[k]], post);
    assert EnabledOf([ps[k]]) == if Enabled(ps[k]) then [ps[k]] else [];
    NoSuchEnabled(pre, id);
    NoSuchEnabled(post, id);
    if Enabled(ps[k]) {
      var e := a + ([ps[k]] + b);
      assert EnabledOf(ps) == e && OnlyAt(e, |a|, id);
      FindingAboutAt(e, |a|, id);
      assert e[..|a|] == a;
      FirstCoverOfEnabled(pre, ps[k]);
    } else {
      assert EnabledOf(ps) == a + b;
      NoFindingAbout(a + b, id);
    }
  }

  lemma {:induction false} DenyBeforeIs(ps: seq<Policy>, k: nat, id: string)
    requires OnlyAt(ps, k, id)
    ensures DenyBefore(ps, id, ps[k]).Some?
            <==> exists i :: 0 <= i < k && Enabled(ps[i]) && ps[i].action == Some("deny") && Shadows(ps[i], ps[k])
    decreases k
  {
    hide Shadows;
    if k > 0 {
      DenyBeforeIs(ps[1..], k - 1, id);
      assert forall i :: 0 < i < |ps| ==> ps[1..][i - 1] == ps[i];
      if i :| 0 <= i < k - 1 && Enabled(ps[1..][i]) && ps[1..][i].action == Some("deny") && Shadows(ps[1..][i], ps[k]) {
        assert ps[i + 1] == ps[1..][i];
      }
    }
  }

  /** Some enabled policy in front covers the target. */
  ghost predicate CoveredEarlier(ps: seq<Policy>, k: nat)
    requires k < |ps|
  {
    exists i :: 0 <= i < k && Enabled(ps[i]) && Shadows(ps[i], ps[k])
  }

  lemma CoveredIff(ps: seq<Policy>, k: nat)
    requires k < |ps|
    ensures CoveredEarlier(ps, k) <==> FirstCover(ps[..k], ps[k]).Some?
  {
    hide Shadows;
    FirstCoverIff(ps[..k], ps[k]);
    assert forall i :: 0 <= i < k ==> ps[..k][i] == ps[i];
    if CoveredEarlier(ps, k) {
      var i :| 0 <= i < k && Enabled(ps[i]) && Shadows(ps[i], ps[k]);
      assert Enabled(ps[..k][i]) && Shadows(ps[..k][i], ps[k]);
    }
  }

  lemma ComplaintsMembers(a: Option<Issue>, b: Option<Issue>, c: Option<Issue>, d: Option<Issue>)
    requires NoObviousIssue !in One(a) + One(b) + One(c) + One(d)
    ensures a.None? && b.None? && c.None? && d.None? ==> Complaints(a, b, c, d) == [NoObviousIssue]
    ensures NoObviousIssue in Complaints(a, b, c, d) ==> a.None? && b.None? && c.None? && d.None?
    ensures forall x :: x != NoObviousIssue ==>
              (x in Complaints(a, b, c, d) <==> a == Some(x) || b == Some(x) || c == Some(x) || d == Some(x))
  {
    InConcat(One(a), One(b), One(c), One(d));
  }

  lemma InConcat(a: seq<Issue>, b: seq<Issue>, c: seq<Issue>, d: seq<Issue>)
    ensures forall x :: x in a + b + c + d <==> x in a || x in b || x in c || x in d
  {
  }

  lemma DiagnosisMembers(ps: seq<Policy>, id: string, target: Policy)
    requires FindById(ps, id) == Some(target)
    ensures NotFound !in Diagnose(ps, id)
    ensures Diagnose(ps, id) == [NoObviousIssue] <==>
              Enabled(target) && FindingAbout(FindingsOf(EnabledOf(ps)), id).None? && !Restricted(target)
              && DenyBefore(ps, id, target).None?
    ensures Disabled in Diagnose(ps, id) <==> !Enabled(target)
    ensures (exists b :: ShadowedBy(b) in Diagnose(ps, id)) <==> FindingAbout(FindingsOf(EnabledOf(ps)), id).Some?
    ensures (exists d :: DeniedEarlier(d) in Diagnose(ps, id)) <==> DenyBefore(ps, id, target).Some?
    ensures (exists c :: ScheduleRestricted(c) in Diagnose(ps, id)) <==> Restricted(target)
  {
    hide FindingsOf, EnabledOf, FindingAbout, DenyBefore, Restricted, Complaints, One;
    var a, b, c, d := DisabledIssue(target), ShadowIssue(ps, id), ScheduleIssue(target), DenyIssue(ps, id, target);
    InConcat(One(a), One(b), One(c), One(d));
    ComplaintsMembers(a, b, c, d);
    assert NoObviousIssue in [NoObviousIssue];
    if b.Some? { assert b.value in Diagnose(ps, id); }
    if c.Some? { assert c.value in Diagnose(ps, id); }
    if d.Some? { assert d.value in Diagnose(ps, id); }
  }

  /** The clean bill: enabled, unrestricted, and not covered by an enabled policy in front. */
  lemma NoObviousIssueIff(ps: seq<Policy>, k: nat, id: string)
    requires OnlyAt(ps, k, id)
    ensures Diagnose(ps, id) == [NoObviousIssue]
            <==> Enabled(ps[k]) && !Restricted(ps[k]) && !CoveredEarlier(ps, k)
  {
    hide Shadows, FindingsOf, EnabledOf, Diagnose, FindingAbout, DenyBefore;
    ShadowFindingIs(ps, k, id);
    DenyBeforeIs(ps, k, id);
    CoveredIff(ps, k);
    FindByIdAt(ps, k, id);
    DiagnosisMembers(ps, id, ps[k]);
  }

  /** Each complaint appears exactly when its cause is there. */
  lemma ComplaintsIff(ps: seq<Policy>, k: nat, id: string)
    requires OnlyAt(ps, k, id)
    ensures Disabled in Diagnose(ps, id) <==> !Enabled(ps[k])
    ensures (exists b :: ShadowedBy(b) in Diagnose(ps, id)) <==> Enabled(ps[k]) && CoveredEarlier(ps, k)
    ensures (exists d :: DeniedEarlier(d) in Diagnose(ps, id))
            <==> exists i :: 0 <= i < k && Enabled(ps[i]) && ps[i].action == Some("deny") && Shadows(ps[i], ps[k])
    ensures (exists s :: ScheduleRestricted(s) in Diagnose(ps, id)) <==> Restricted(ps[k])
  {
    hide Shadows, FindingsOf, EnabledOf, Diagnose, FindingAbout, DenyBefore;
    ShadowFindingIs(ps, k, id);
    DenyBeforeIs(ps, k, id);
    CoveredIff(ps, k);
    FindByIdAt(ps, k, id);
    DiagnosisMembers(ps, id, ps[k]);
  }

  // ---- The diagnosis in full -----------------------------------------------------------------------------

  /** The policy at `i` is enabled and covers the one at `k`. */
  predicate CoversAt(ps: seq<Policy>, i: int, k: nat)
    requires k < |ps|
  {
    0 <= i < k && ps[i].status != Some("disable") && Shadows(ps[i], ps[k])
  }

  predicate DeniesAt(ps: seq<Policy>, i: int, k: nat)
    requires k < |ps|
  {
    CoversAt(ps, i, k) && ps[i].action == Some("deny")
  }

  /** The first policy in front that is enabled and covers the one at `k`; the first that denies all it matches. */
  ghost predicate FirstCoverAt(ps: seq<Policy>, i: int, k: nat)
    requires k < |ps|
  {
    CoversAt(ps, i, k) && forall m :: 0 <= m < i ==> !CoversAt(ps, m, k)
  }

  ghost predicate FirstDenyAt(ps: seq<Policy>, i: int, k: nat)
    requires k < |ps|
  {
    DeniesAt(ps, i, k) && forall m :: 0 <= m < i ==> !DeniesAt(ps, m, k)
  }

  lemma {:induction false} FirstCoverIs(ps: seq<Policy>, k: nat)
    requires k < |ps|
    ensures match FirstCover(ps[..k], ps[k])
            case None => forall i :: !CoversAt(ps, i, k)
            case Some(p) => exists i :: FirstCoverAt(ps, i, k) && ps[i] == p
    decreases k
  {
    hide Shadows;
    if k > 0 {
      if Enabled(ps[0]) && Shadows(ps[0], ps[k]) {
        assert FirstCoverAt(ps, 0, k);
      } else {
        var rest, k' := ps[1..], k - 1;
        assert forall i :: 0 < i < |ps| ==> rest[i - 1] == ps[i];
        assert ps[..k][1..] == rest[..k'];
        FirstCoverIs(rest, k');
        forall i ensures CoversAt(ps, i, k) <==> CoversAt(rest, i - 1, k') { }
        if i :| FirstCoverAt(rest, i, k') && Some(rest[i]) == FirstCover(rest[..k'], rest[k']) {
          assert CoversAt(ps, i + 1, k);
          forall m | 0 <= m < i + 1 ensures !CoversAt(ps, m, k) { assert m > 0 ==> !CoversAt(rest, m - 1, k'); }
        }
      }
    }
  }

  lemma {:induction false} DenyBeforeFirst(ps: seq<Policy>, k: nat, id: string)
    requires OnlyAt(ps, k, id)
    ensures match DenyBefore(ps, id, ps[k])
            case None => forall i :: !DeniesAt(ps, i, k)
            case Some(p) => exists i :: FirstDenyAt(ps, i, k) && ps[i] == p
    decreases k
  {
    hide Shadows;
    if k > 0 {
      if Enabled(ps[0]) && ps[0].action == Some("deny") && Shadows(ps[0], ps[k]) {
        assert FirstDenyAt(ps, 0, k);
      } else {
        var rest, k' := ps[1..], k - 1;
        assert forall i :: 0 < i < |ps| ==> rest[i - 1] == ps[i];
        DenyBeforeFirst(rest, k', id);
        forall i ensures DeniesAt(ps, i, k) <==> DeniesAt(rest, i - 1, k') { }
        if i :| FirstDenyAt(rest, i, k') && Some(rest[i]) == DenyBefore(rest, id, rest[k']) {
          assert DeniesAt(ps, i + 1, k);
          forall m | 0 <= m < i + 1 ensures !DeniesAt(ps, m, k) { assert m > 0 ==> !DeniesAt(rest, m - 1, k'); }
        }
      }
    }
  }

  lemma ShadowIssueIs(ps: seq<Policy>, k: nat, id: string, b: string)
    requires OnlyAt(ps, k, id)
    ensures ShadowIssue(ps, id) == Some(ShadowedBy(b))
            <==> ps[k].status != Some("disable") && exists i :: FirstCoverAt(ps, i, k) && ps[i].id == b
  {
    hide Shadows, FindingsOf, EnabledOf, FindingAbout;
    ShadowFindingIs(ps, k, id);
    FirstCoverIs(ps, k);
  }

  lemma DenyIssueIs(ps: seq<Policy>, k: nat, id: string, d: string)
    requires OnlyAt(ps, k, id)
    ensures DenyIssue(ps, id, ps[k]) == Some(DeniedEarlier(d))
            <==> exists i :: FirstDenyAt(ps, i, k) && ps[i].id == d
  {
    hide Shadows, DenyBefore;
    DenyBeforeFirst(ps, k, id);
  }

  /** The order in which complaints are listed. */
  function Place(x: Issue): nat {
    match x
    case Disabled => 0
    case ShadowedBy(_) => 1
    case ScheduleRestricted(_) => 2
    case DeniedEarlier(_) => 3
    case _ => 4
  }

  lemma ComplaintsInOrder(a: Option<Issue>, b: Option<Issue>, c: Option<Issue>, d: Option<Issue>)
    requires (a.Some? ==> Place(a.value) == 0) && (b.Some? ==> Place(b.value) == 1)
    requires (c.Some? ==> Place(c.value) == 2) && (d.Some? ==> Place(d.value) == 3)
    ensures var xs := Complaints(a, b, c, d);
            && xs != [] && (NoObviousIssue in xs ==> xs == [NoObviousIssue])
            && forall i, j :: 0 <= i < j < |xs| ==> Place(xs[i]) < Place(xs[j])
  {
  }

  lemma DiagnosisLists(ps: seq<Policy>, id: string, p: Policy, text: string)
    requires FindById(ps, id) == Some(p)
    ensures var xs := Diagnose(ps, id);
            && (Disabled in xs <==> !Enabled(p))
            && (ShadowedBy(text) in xs <==> ShadowIssue(ps, id) == Some(ShadowedBy(text)))
            && (ScheduleRestricted(text) in xs <==> Restricted(p) && p.schedule == Some(text))
            && (DeniedEarlier(text) in xs <==> DenyIssue(ps, id, p) == Some(DeniedEarlier(text)))
            && NotFound !in xs && xs != [] && (NoObviousIssue in xs ==> xs == [NoObviousIssue])
            && forall i, j :: 0 <= i < j < |xs| ==> Place(xs[i]) < Place(xs[j])
  {
    DiagnosisHas(ps, id, p, Disabled);
    DiagnosisHas(ps, id, p, ShadowedBy(text));
    DiagnosisHas(ps, id, p, ScheduleRestricted(text));
    DiagnosisHas(ps, id, p, DeniedEarlier(text));
    DiagnosisHas(ps, id, p, NotFound);
    hide FindingsOf, EnabledOf, FindingAbout, DenyBefore, Complaints;
    ComplaintsInOrder(DisabledIssue(p), ShadowIssue(ps, id), ScheduleIssue(p), DenyIssue(ps, id, p));
  }

  lemma DiagnosisHas(ps: seq<Policy>, id: string, p: Policy, x: Issue)
    requires FindById(ps, id) == Some(p) && x != NoObviousIssue
    ensures x in Diagnose(ps, id)
            <==> DisabledIssue(p) == Some(x) || ShadowIssue(ps, id) == Some(x)
                 || ScheduleIssue(p) == Some(x) || DenyIssue(ps, id, p) == Some(x)
  {
    var a, b, c, d := DisabledIssue(p), ShadowIssue(ps, id), ScheduleIssue(p), DenyIssue(ps, id, p);
    hide FindingsOf, EnabledOf, FindingAbout, DenyBefore, Complaints, One, Restricted;
    InConcat(One(a), One(b), One(c), One(d));
    ComplaintsMembers(a, b, c, d);
  }

  /**
   The diagnosis of a policy with an id of its own: which complaints it lists, with the ids and the
   schedule they name, in the order disabled, shadowed, schedule, denied; and nothing else.
   */
  lemma DiagnosisIs(ps: seq<Policy>, k: nat, id: string, text: string)
    requires OnlyAt(ps, k, id)
    ensures var xs, p := Diagnose(ps, id), ps[k];
            && (Disabled in xs <==> p.status == Some("disable"))
            && (ShadowedBy(text) in xs
                <==> p.status != Some("disable") && exists i :: FirstCoverAt(ps, i, k) && ps[i].id == text)
            && (ScheduleRestricted(text) in xs <==> p.schedule == Some(text) && text != "" && text != "always")
            && (DeniedEarlier(text) in xs <==> exists i :: FirstDenyAt(ps, i, k) && ps[i].id == text)
            && NotFound !in xs && xs != [] && (NoObviousIssue in xs ==> xs == [NoObviousIssue])
            && forall i, j :: 0 <= i < j < |xs| ==> Place(xs[i]) < Place(xs[j])
  {
    hide Diagnose, ShadowIssue, DenyIssue, FirstCoverAt, FirstDenyAt;
    FindByIdAt(ps, k, id);
    DiagnosisLists(ps, id, ps[k], text);
    ShadowIssueIs(ps, k, id, text);
    DenyIssueIs(ps, k, id, text);
  }

  /** For an enabled target an earlier deny is also a shadowing, and then no question is ever answered by it. */
  lemma DeniedEarlierNeverMatches(ps: seq<Policy>, k: nat, id: string, q: Probe)
    requires OnlyAt(ps, k, id) && Enabled(ps[k])
    requires exists d :: DeniedEarlier(d) in Diagnose(ps, id)
    ensures exists b :: ShadowedBy(b) in Diagnose(ps, id)
    ensures FirstMatch(ps, q).Some? ==> FirstMatch(ps, q).value.id != id
  {
    hide Shadows, FindingsOf, EnabledOf, Diagnose;
    ComplaintsIff(ps, k, id);
    CoveredNeverMatches(ps, k, id, q);
  }

  lemma CoveredNeverMatches(ps: seq<Policy>, k: nat, id: string, q: Probe)
    requires OnlyAt(ps, k, id) && CoveredEarlier(ps, k)
    ensures FirstMatch(ps, q).Some? ==> FirstMatch(ps, q).value.id != id
  {
    hide Shadows;
    var i :| 0 <= i < k && Enabled(ps[i]) && Shadows(ps[i], ps[k]);
    if FirstMatch(ps, q).Some? {
      var m := FirstMatchFound(ps, q);
      if m == k {
        ShadowsMatches(ps[i], ps[k], q);
        assert false;
      }
    }
  }

  /** The answer "not found" is given exactly when no policy has the id. */
  lemma UnknownIdIsNotFound(ps: seq<Policy>, id: string)
    ensures Diagnose(ps, id) == [NotFound] <==> forall i :: 0 <= i < |ps| ==> ps[i].id != id
  {
    FindByIdNone(ps, id);
    if FindById(ps, id).Some? {
      DiagnosisMembers(ps, id, FindById(ps, id).value);
      assert NotFound in [NotFound];
    }
  }

  lemma {:induction false} FindByIdNone(ps: seq<Policy>, id: string)
    ensures FindById(ps, id).None? <==> forall i :: 0 <= i < |ps| ==> ps[i].id != id
  {
    if ps != [] {
      FindByIdNone(ps[1..], id);
      assert forall i :: 0 < i < |ps| ==> ps[1..][i - 1] == ps[i];
      if forall i :: 0 <= i < |ps| ==> ps[i].id != id {
        assert forall i :: 0 <= i < |ps[1..]| ==> ps[1..][i] == ps[i + 1];
      }
    }
  }
}
