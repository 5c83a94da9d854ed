/**
 Duplicate policies: equal match criteria and equal action. Which members of a group may be
 removed without changing what the rule list does.
 */
module Duplicate {
  import opened Wrappers
  import opened Policies
  import opened Selection

  datatype Key = Key(criteria: map<MatchField, set<string>>, action: Option<string>)

  function KeyOf(p: Policy): Key {
    Key(map f | f in ALL_FIELDS :: NamesOf(p, f), p.action)
  }

  /** The members of a group in list order. */
  function GroupOf(ps: seq<Policy>, key: Key): seq<Policy> {
    if ps == [] then [] else
      var last := ps[|ps| - 1];
      GroupOf(ps[..|ps| - 1], key) + (if KeyOf(last) == key then [last] else [])
  }

  /** The keys in order of first appearance. */
  function KeysOf(ps: seq<Policy>): seq<Key> {
    if ps == [] then [] else
      var earlier, key := KeysOf(ps[..|ps| - 1]), KeyOf(ps[|ps| - 1]);
      if key in earlier then earlier else earlier + [key]
  }

  datatype Report = Report(ids: seq<string>, key: Key)

  function Ids(group: seq<Policy>): seq<string> {
    seq(|group|, i requires 0 <= i < |group| => group[i].id)
  }

  function ReportsOf(ps: seq<Policy>, keys: seq<Key>): seq<Report> {
    if keys == [] then [] else
      var key := keys[|keys| - 1];
      ReportsOf(ps, keys[..|keys| - 1])
      + (if |GroupOf(ps, key)| > 1 then [Report(Ids(GroupOf(ps, key)), key)] else [])
  }

  /** The first loop of `find_duplicate_policies`: grows the groups; `order` is the dict's insertion order. */
  method Groups(policies: seq<Policy>) returns (groups: map<Key, seq<Policy>>, order: seq<Key>)
    ensures order == KeysOf(policies)
    ensures forall k :: k in groups <==> k in order
    ensures forall k :: k in groups ==> groups[k] == GroupOf(policies, k)
  {
    hide KeyOf;
    groups, order := map[], [];
    for i := 0 to |policies|
      invariant order == KeysOf(policies[..i])
      invariant forall k :: k in groups <==> k in order
      invariant forall k :: k in groups ==> groups[k] == GroupOf(policies[..i], k)
    {
      var policy := policies[i];
      var key := KeyOf(policy);
      GroupStep(policies, i);
      if key !in groups {
        NoGroup(policies[..i], key);
        groups := groups[key := []];
        order := order + [key];
      }
      groups := groups[key := groups[key] + [policy]];
    }
    assert policies[..|policies|] == policies;
  }

  /** `find_duplicate_policies`. */
  method FindDuplicatePolicies(policies: seq<Policy>) returns (duplicates: seq<Report>)
    ensures duplicates == ReportsOf(policies, KeysOf(policies))
  {
    hide GroupOf, KeysOf;
    var groups, order := Groups(policies);
    duplicates := [];
    for i := 0 to |order|
      invariant duplicates == ReportsOf(policies, order[..i])
    {
      assert order[..i + 1][..i] == order[..i];
      var group := groups[order[i]];
      if |group| > 1 {
        duplicates := duplicates + [Report(Ids(group), order[i])];
      }
    }
    assert order[..|order|] == order;
  }

  lemma GroupStep(ps: seq<Policy>, i: nat)
    requires i < |ps|
    ensures KeysOf(ps[..i + 1])
         == if KeyOf(ps[i]) in KeysOf(ps[..i]) then KeysOf(ps[..i]) else KeysOf(ps[..i]) + [KeyOf(ps[i])]
    ensures forall k :: GroupOf(ps[..i + 1], k) == GroupOf(ps[..i], k) + (if KeyOf(ps[i]) == k then [ps[i]] else [])
  {
    assert ps[..i + 1][..i] == ps[..i];
  }

  lemma {:induction false} NoGroup(ps: seq<Policy>, key: Key)
    requires key !in KeysOf(ps)
    ensures GroupOf(ps, key) == []
  {
    hide KeyOf;
    if ps != [] { NoGroup(ps[..|ps| - 1], key); }
  }

  lemma {:induction false} KeysIff(ps: seq<Policy>, key: Key)
    ensures key in KeysOf(ps) <==> exists i :: 0 <= i < |ps| && KeyOf(ps[i]) == key
    ensures forall i, j :: 0 <= i < j < |KeysOf(ps)| ==> KeysOf(ps)[i] != KeysOf(ps)[j]
  {
    hide KeyOf;
    if ps != [] {
      var front := ps[..|ps| - 1];
      KeysIff(front, key);
      assert forall i :: 0 <= i < |front| ==> front[i] == ps[i];
      if i :| 0 <= i < |ps| && KeyOf(ps[i]) == key && i < |front| { assert front[i] == ps[i]; }
    }
  }

  lemma {:induction false} GroupSizeIff(ps: seq<Policy>, key: Key)
    ensures |GroupOf(ps, key)| > 0 <==> exists i :: 0 <= i < |ps| && KeyOf(ps[i]) == key
    ensures |GroupOf(ps, key)| > 1 <==> exists i, j :: 0 <= i < j < |ps| && KeyOf(ps[i]) == key && KeyOf(ps[j]) == key
  {
    hide KeyOf;
    if ps != [] {
      var n := |ps| - 1;
      var front := ps[..n];
      GroupSizeIff(front, key);
      assert forall i :: 0 <= i < n ==> front[i] == ps[i];
      if i :| 0 <= i < n && KeyOf(ps[i]) == key { assert KeyOf(front[i]) == key; }
      if i, j :| 0 <= i < j < n && KeyOf(ps[i]) == key && KeyOf(ps[j]) == key {
        assert KeyOf(front[i]) == key && KeyOf(front[j]) == key;
      }
    }
  }

  lemma {:induction false} ReportsIff(ps: seq<Policy>, keys: seq<Key>, r: Report)
    ensures r in ReportsOf(ps, keys)
            <==> r.key in keys && |GroupOf(ps, r.key)| > 1 && r.ids == Ids(GroupOf(ps, r.key))
  {
    hide GroupOf, Ids;
    if keys != [] {
      ReportsIff(ps, keys[..|keys| - 1], r);
      assert keys == keys[..|keys| - 1] + [keys[|keys| - 1]];
    }
  }

  /** A key is reported exactly when two policies share it, together with the ids of all that do. */
  lemma {:induction false} ReportedIff(ps: seq<Policy>, r: Report)
    ensures r in ReportsOf(ps, KeysOf(ps))
            <==> r.ids == Ids(GroupOf(ps, r.key))
                 && exists i, j :: 0 <= i < j < |ps| && KeyOf(ps[i]) == r.key && KeyOf(ps[j]) == r.key
  {
    hide KeyOf, GroupOf, Ids;
    ReportsIff(ps, KeysOf(ps), r);
    KeysIff(ps, r.key);
    GroupSizeIff(ps, r.key);
  }

  /** Two policies have the same key exactly when they agree on the names of all five fields and on the action. */
  lemma KeysEqualIff(p: Policy, p': Policy)
    ensures KeyOf(p) == KeyOf(p')
            <==> p.action == p'.action && forall f: MatchField, n :: n in NamesOf(p, f) <==> n in NamesOf(p', f)
  {
    hide NamesOf;
    if KeyOf(p) == KeyOf(p') {
      forall f: MatchField ensures NamesOf(p, f) == NamesOf(p', f) {
        AllFields(f);
        assert KeyOf(p).criteria[f] == NamesOf(p, f) && KeyOf(p').criteria[f] == NamesOf(p', f);
      }
    }
    if forall f: MatchField, n :: n in NamesOf(p, f) <==> n in NamesOf(p', f) {
      forall f: MatchField ensures NamesOf(p, f) == NamesOf(p', f) {
        assert forall n :: n in NamesOf(p, f) <==> n in NamesOf(p', f);
      }
      assert KeyOf(p).criteria == KeyOf(p').criteria;
    }
  }

  predicate HasKey(p: Policy, key: Key) {
    KeyOf(p) == key
  }

  lemma {:induction false} GroupIsFilter(ps: seq<Policy>, key: Key)
    ensures GroupOf(ps, key) == Filter(ps, p => HasKey(p, key))
  {
    hide KeyOf;
    if ps != [] { GroupIsFilter(ps[..|ps| - 1], key); }
  }

  /** A report names, in list order, all policies that agree with its first one, of which there are at least two. */
  lemma ReportedIds(ps: seq<Policy>, r: Report) returns (at: seq<nat>)
    requires r in ReportsOf(ps, KeysOf(ps))
    ensures |at| >= 2 && |r.ids| == |at|
    ensures forall k :: 0 <= k < |at| ==> at[k] < |ps| && r.ids[k] == ps[at[k]].id && KeyOf(ps[at[k]]) == r.key
    ensures forall k, l :: 0 <= k < l < |at| ==> at[k] < at[l]
    ensures forall i: nat :: i in at <==> i < |ps| && KeyOf(ps[i]) == KeyOf(ps[at[0]])
  {
    hide KeyOf, GroupOf, ReportsOf, KeysOf;
    ReportsIff(ps, KeysOf(ps), r);
    GroupIsFilter(ps, r.key);
    at := FilterSelects(ps, p => HasKey(p, r.key));
    assert forall k :: 0 <= k < |at| ==> at[k] in at;
  }

  /** The groups come in the order of their first members. */
  lemma {:induction false} KeysInOrder(ps: seq<Policy>) returns (at: seq<nat>)
    ensures |at| == |KeysOf(ps)|
    ensures forall k, l :: 0 <= k < l < |at| ==> at[k] < at[l]
    ensures forall k :: 0 <= k < |at| ==>
              && at[k] < |ps| && KeyOf(ps[at[k]]) == KeysOf(ps)[k]
              && forall i :: 0 <= i < at[k] ==> KeyOf(ps[i]) != KeysOf(ps)[k]
  {
    hide KeyOf;
    at := [];
    if ps != [] {
      var n := |ps| - 1;
      var key := KeyOf(ps[n]);
      at := KeysInOrder(ps[..n]);
      KeysIff(ps[..n], key);
      assert forall i :: 0 <= i < n ==> ps[..n][i] == ps[i];
      if key !in KeysOf(ps[..n]) { at := at + [n]; }
    }
  }

  /** The reports come in the order of their keys, one for each key with two members or more. */
  lemma {:induction false} ReportedKeys(ps: seq<Policy>, keys: seq<Key>)
    ensures KeysReported(ReportsOf(ps, keys)) == Filter(keys, key => |GroupOf(ps, key)| > 1)
  {
    hide GroupOf;
    if keys != [] { ReportedKeys(ps, keys[..|keys| - 1]); }
  }

  function KeysReported(reports: seq<Report>): seq<Key> {
    seq(|reports|, k requires 0 <= k < |reports| => reports[k].key)
  }

  // ---- Removing members of a group ------------------------------------------------------------------------

  /** The list without the members of a group other than its first enabled one. */
  function KeepFirstEnabled(ps: seq<Policy>, key: Key, kept: bool): seq<Policy> {
    if ps == [] then []
    else if KeyOf(ps[0]) != key then [ps[0]] + KeepFirstEnabled(ps[1..], key, kept)
    else if kept || !Enabled(ps[0]) then KeepFirstEnabled(ps[1..], key, kept)
    else [ps[0]] + KeepFirstEnabled(ps[1..], key, true)
  }

  lemma SameKeySameMatches(p: Policy, p': Policy, q: Probe)
    requires KeyOf(p).criteria == KeyOf(p').criteria
    ensures Matches(p, q) == Matches(p', q)
  {
    forall f | f in q ensures NamesOf(p, f) == NamesOf(p', f) {
      AllFields(f);
      assert KeyOf(p).criteria[f] == NamesOf(p, f) && KeyOf(p').criteria[f] == NamesOf(p', f);
    }
  }

  lemma {:induction false} KeepFirstEnabledFrom(ps: seq<Policy>, key: Key, kept: bool, q: Probe)
    requires kept ==> forall p: Policy :: KeyOf(p) == key ==> !Matches(p, q)
    ensures FirstMatch(KeepFirstEnabled(ps, key, kept), q) == FirstMatch(ps, q)
  {
    hide KeyOf, Matches;
    if ps != [] {
      if KeyOf(ps[0]) == key && Enabled(ps[0]) && !kept {
        if !Matches(ps[0], q) {
          forall p: Policy | KeyOf(p) == key ensures !Matches(p, q) { SameKeySameMatches(p, ps[0], q); }
          KeepFirstEnabledFrom(ps[1..], key, true, q);
        }
      } else {
        KeepFirstEnabledFrom(ps[1..], key, kept, q);
      }
    }
  }

  /** Dropping every member of a group but the first enabled one changes the answer to no question. */
  lemma KeepingFirstEnabledKeepsMeaning(ps: seq<Policy>, key: Key, q: Probe)
    ensures FirstMatch(KeepFirstEnabled(ps, key, false), q) == FirstMatch(ps, q)
  {
    KeepFirstEnabledFrom(ps, key, false, q);
  }

  /**
   Every enabled policy between the two members that acts differently is screened: whatever it
   shares with the group is taken by an earlier policy.
   */
  ghost predicate Screened(pre: seq<Policy>, member: Policy, mid: seq<Policy>, fields: set<MatchField>) {
    forall m, q: Probe :: 0 <= m < |mid| && mid[m].action != member.action && q.Keys == fields
                          && Hits(mid[m], q) && Hits(member, q) ==>
                            FirstMatch(pre + mid[..m], q).Some?
  }

  lemma {:induction false} MidDecides(mid: seq<Policy>, rest: seq<Policy>, q: Probe, action: Option<string>)
    requires Decision(rest, q) == Some(action)
    ensures Decision(mid + rest, q) == Some(action)
            <==> forall m :: 0 <= m < |mid| && Hits(mid[m], q) && mid[m].action != action ==>
                   FirstMatch(mid[..m], q).Some?
  {
    FirstMatchConcat(mid, rest, q);
    if FirstMatch(mid, q).Some? {
      var k := FirstMatchFound(mid, q);
      NoMatchIff(mid[..k], q);
      assert forall i :: 0 <= i < k ==> mid[..k][i] == mid[i];
      forall m | 0 <= m < |mid| && Hits(mid[m], q) && m != k ensures FirstMatch(mid[..m], q).Some? {
        assert k < m && mid[..m][k] == mid[k];
        NoMatchIff(mid[..m], q);
      }
    } else {
      NoMatchIff(mid, q);
    }
  }

  /** The list without its k-th policy. */
  function Dropped(ps: seq<Policy>, k: nat): seq<Policy>
    requires k < |ps|
  {
    ps[..k] + ps[k + 1..]
  }

  /** Dropping the k-th policy has no effect on traffic handling. */
  ghost predicate NoEffect(ps: seq<Policy>, k: nat, fields: set<MatchField>)
    requires k < |ps|
  {
    forall q: Probe :: q.Keys == fields ==> Decision(Dropped(ps, k), q) == Decision(ps, q)
  }

  /** What reaches the member is decided alike by the policies behind it. */
  ghost predicate BackedUp(pre: seq<Policy>, member: Policy, rest: seq<Policy>, fields: set<MatchField>) {
    forall q: Probe :: q.Keys == fields && FirstMatch(pre, q).None? && Hits(member, q) ==>
                         Decision(rest, q) == Some(member.action)
  }

  /** The index of the first enabled policy with the key, or the length of the list. */
  function FirstTwin(ps: seq<Policy>, key: Key): (i: nat)
    ensures i <= |ps| && forall j :: 0 <= j < i ==> !(Enabled(ps[j]) && KeyOf(ps[j]) == key)
    ensures i < |ps| ==> Enabled(ps[i]) && KeyOf(ps[i]) == key
  {
    if ps == [] || (Enabled(ps[0]) && KeyOf(ps[0]) == key) then 0 else 1 + FirstTwin(ps[1..], key)
  }

  lemma DroppingForOne(ps: seq<Policy>, k: nat, q: Probe)
    requires k < |ps|
    ensures Decision(Dropped(ps, k), q) == Decision(ps, q)
            <==> (FirstMatch(ps[..k], q).None? && Hits(ps[k], q) ==> Decision(ps[k + 1..], q) == Some(ps[k].action))
  {
    var pre, rest := ps[..k], ps[k + 1..];
    assert ps == pre + ([ps[k]] + rest);
    FirstMatchConcat(pre, rest, q);
    FirstMatchConcat(pre, [ps[k]] + rest, q);
    assert ([ps[k]] + rest)[0] == ps[k] && ([ps[k]] + rest)[1..] == rest;
  }

  /** Dropping any policy has no effect exactly when what reaches it is backed up. */
  lemma DroppingIff(ps: seq<Policy>, k: nat, fields: set<MatchField>)
    requires k < |ps|
    ensures NoEffect(ps, k, fields) <==> BackedUp(ps[..k], ps[k], ps[k + 1..], fields)
  {
    hide Decision, Hits, Dropped;
    forall q: Probe ensures Decision(Dropped(ps, k), q) == Decision(ps, q)
                            <==> (FirstMatch(ps[..k], q).None? && Hits(ps[k], q) ==>
                                    Decision(ps[k + 1..], q) == Some(ps[k].action))
    {
      DroppingForOne(ps, k, q);
    }
  }

  /** Behind an enabled twin nothing reaches the member. */
  lemma NothingReaches(pre: seq<Policy>, member: Policy, i: nat, q: Probe)
    requires i < |pre| && Enabled(pre[i]) && KeyOf(pre[i]) == KeyOf(member)
    ensures FirstMatch(pre, q).None? ==> !Hits(member, q)
  {
    SameKeySameMatches(pre[i], member, q);
    NoMatchIff(pre, q);
  }

  /** In front of an enabled twin, being backed up means that the policies in between are screened. */
  lemma BackedUpByTwinIff(pre: seq<Policy>, member: Policy, mid: seq<Policy>, behind: seq<Policy>,
                          fields: set<MatchField>)
    requires behind != [] && Enabled(behind[0]) && KeyOf(behind[0]) == KeyOf(member)
    ensures BackedUp(pre, member, mid + behind, fields) <==> Screened(pre, member, mid, fields)
  {
    forall q: Probe | Hits(member, q)
      ensures (FirstMatch(pre, q).None? ==> Decision(mid + behind, q) == Some(member.action))
              <==> forall m :: 0 <= m < |mid| && mid[m].action != member.action && Hits(mid[m], q) ==>
                                 FirstMatch(pre + mid[..m], q).Some?
    {
      SameKeySameMatches(member, behind[0], q);
      MidDecides(mid, behind, q, member.action);
      forall m | 0 <= m < |mid| ensures FirstMatch(pre + mid[..m], q).Some? <==>
                                          FirstMatch(pre, q).Some? || FirstMatch(mid[..m], q).Some?
      {
        FirstMatchConcat(pre, mid[..m], q);
      }
    }
  }

  /**
   Dropping one member of a group, the k-th policy of the list, has no effect exactly when the
   member is disabled, or an enabled twin stands in front of it, or the differing policies up to the
   next enabled twin are screened, or, with no enabled twin left, the other policies back it up.
   */
  lemma DroppingMemberIff(ps: seq<Policy>, k: nat, fields: set<MatchField>)
    requires k < |ps|
    ensures var pre, member, rest := ps[..k], ps[k], ps[k + 1..];
            var j := FirstTwin(rest, KeyOf(member));
            NoEffect(ps, k, fields)
            <==> || !Enabled(member)
                 || FirstTwin(pre, KeyOf(member)) < |pre|
                 || (if j < |rest| then Screened(pre, member, rest[..j], fields)
                     else BackedUp(pre, member, rest, fields))
  {
    hide Decision, Matches, KeyOf, Screened, FirstTwin, Dropped;
    var pre, member, rest := ps[..k], ps[k], ps[k + 1..];
    var i, j := FirstTwin(pre, KeyOf(member)), FirstTwin(rest, KeyOf(member));
    DroppingIff(ps, k, fields);
    if Enabled(member) {
      if i < |pre| {
        forall q | FirstMatch(pre, q).None? ensures !Hits(member, q) { NothingReaches(pre, member, i, q); }
      } else if j < |rest| {
        assert rest == rest[..j] + rest[j..];
        BackedUpByTwinIff(pre, member, rest[..j], rest[j..], fields);
      }
    }
  }

  /** A member behind an enabled twin can always go, and not even the answering policy changes. */
  lemma LaterMemberCanGo(ps: seq<Policy>, i: nat, k: nat, q: Probe)
    requires i < k < |ps| && Enabled(ps[i]) && KeyOf(ps[i]) == KeyOf(ps[k])
    ensures FirstMatch(Dropped(ps, k), q) == FirstMatch(ps, q)
  {
    var pre, rest := ps[..k], ps[k + 1..];
    assert ps == pre + ([ps[k]] + rest);
    FirstMatchConcat(pre, rest, q);
    FirstMatchConcat(pre, [ps[k]] + rest, q);
    assert ([ps[k]] + rest)[0] == ps[k] && ([ps[k]] + rest)[1..] == rest;
    NothingReaches(pre, ps[k], i, q);
  }

  /** When nothing between a member and a later enabled one acts differently, the earlier one can go. */
  lemma SameActionBetween(ps: seq<Policy>, k: nat, fields: set<MatchField>)
    requires k < |ps|
    requires var rest, j := ps[k + 1..], FirstTwin(ps[k + 1..], KeyOf(ps[k]));
             j < |rest| && forall m :: 0 <= m < j && Enabled(rest[m]) ==> rest[m].action == ps[k].action
    ensures NoEffect(ps, k, fields)
  {
    hide KeyOf, NoEffect, FirstTwin;
    DroppingMemberIff(ps, k, fields);
  }

  /** Being backed up has to be checked only for the finitely many probes over the names mentioned and one more. */
  lemma BackedUpOnFinitelyMany(pre: seq<Policy>, member: Policy, rest: seq<Policy>, fields: set<MatchField>,
                               other: string)
    requires other !in Mentioned(pre + [member] + rest)
    ensures BackedUp(pre, member, rest, fields)
            <==> forall q: Probe :: q.Keys == fields && Within(q, Mentioned(pre + [member] + rest) + {other})
                                    && FirstMatch(pre, q).None? && Hits(member, q) ==>
                                      Decision(rest, q) == Some(member.action)
  {
    var all := pre + [member] + rest;
    var known := Mentioned(all);
    if forall q: Probe :: q.Keys == fields && Within(q, known + {other})
                          && FirstMatch(pre, q).None? && Hits(member, q) ==>
                            Decision(rest, q) == Some(member.action)
    {
      forall q: Probe | q.Keys == fields && FirstMatch(pre, q).None? && Hits(member, q)
        ensures Decision(rest, q) == Some(member.action)
      {
        var q' := Represent(q, known, other);
        assert q'.Keys == fields && Within(q', known + {other});
        assert all[|pre|] == member && all[..|pre|] == pre && all[|pre| + 1..] == rest;
        RepresentKeepsHits(all, |pre|, q, known, other);
        MentionedSlice(all, 0, |pre|);
        MentionedSlice(all, |pre| + 1, |all|);
        RepresentKeepsFirstMatch(pre, q, known, other);
        RepresentKeepsFirstMatch(rest, q, known, other);
      }
    }
  }

  /** Screening has to be checked only for the finitely many probes over the names mentioned and one more. */
  lemma ScreenedOnFinitelyMany(pre: seq<Policy>, member: Policy, mid: seq<Policy>, fields: set<MatchField>,
                               other: string)
    requires other !in Mentioned(pre + mid + [member])
    ensures Screened(pre, member, mid, fields)
            <==> forall m, q: Probe :: 0 <= m < |mid| && mid[m].action != member.action && q.Keys == fields
                                       && Within(q, Mentioned(pre + mid + [member]) + {other})
                                       && Hits(mid[m], q) && Hits(member, q) ==>
                                         FirstMatch(pre + mid[..m], q).Some?
  {
    hide Hits, FirstMatch, Mentioned;
    var all := pre + mid + [member];
    var known := Mentioned(all);
    if forall m, q: Probe :: 0 <= m < |mid| && mid[m].action != member.action && q.Keys == fields
                             && Within(q, known + {other}) && Hits(mid[m], q) && Hits(member, q) ==>
                               FirstMatch(pre + mid[..m], q).Some?
    {
      forall m, q: Probe | 0 <= m < |mid| && mid[m].action != member.action && q.Keys == fields
                           && Hits(mid[m], q) && Hits(member, q)
        ensures FirstMatch(pre + mid[..m], q).Some?
      {
        var q' := Represent(q, known, other);
        assert q'.Keys == fields && Within(q', known + {other});
        assert all[|pre| + m] == mid[m] && all[|all| - 1] == member;
        RepresentKeepsHits(all, |pre| + m, q, known, other);
        RepresentKeepsHits(all, |all| - 1, q, known, other);
        assert pre + mid[..m] == all[..|pre| + m];
        assert all[0..|pre| + m] == all[..|pre| + m];
        MentionedSlice(all, 0, |pre| + m);
        RepresentKeepsFirstMatch(pre + mid[..m], q, known, other);
      }
    }
  }

  lemma MentionedSlice(ps: seq<Policy>, lo: nat, hi: nat)
    requires lo <= hi <= |ps|
    ensures Mentioned(ps[lo..hi]) <= Mentioned(ps)
  {
    forall x | x in Mentioned(ps[lo..hi]) ensures x in Mentioned(ps) {
      var i, f :| 0 <= i < hi - lo && f in ALL_FIELDS && x in NamesOf(ps[lo..hi][i], f);
      assert x in NamesOf(ps[lo + i], f);
    }
  }

  // ---- Where "removing either one has zero effect" fails -----------------------------------------------

  const LAN := map[SrcIntf := [Named("LAN")], DstIntf := [Named("LAN")], SrcAddr := [Named("LAN")],
                   DstAddr := [Named("LAN")], Service := [Named("LAN")]]
  const ACCEPT := Policy("1", LAN, Some("accept"), None, None, None, None)
  const DENY := Policy("2", LAN, Some("deny"), None, None, None, None)
  const TWIN := Policy("3", LAN, Some("accept"), None, None, None, None)
  const DISABLED_TWIN := Policy("3", LAN, Some("accept"), Some("disable"), None, None, None)

  const FROM_LAN: Probe := map[SrcIntf := "LAN", DstIntf := "LAN", SrcAddr := "LAN", DstAddr := "LAN", Service := "LAN"]

  lemma LanMatches(p: Policy)
    requires p.fields == LAN
    ensures Matches(p, FROM_LAN)
  {
    forall f | f in FROM_LAN ensures "LAN" in NamesOf(p, f) {
      assert p.fields[f][0] == Named("LAN") && EntryName(Named("LAN")) == "LAN";
    }
  }

  lemma GroupOfPair(p: Policy, p': Policy, key: Key)
    requires KeyOf(p) == KeyOf(p') == key
    ensures GroupOf([p, p'], key) == [p, p']
  {
    hide KeyOf;
    assert [p, p'][..1] == [p] && [p][..0] == [];
    assert GroupOf([p], key) == [p];
  }

  lemma GroupAround(p: Policy, other: Policy, p': Policy, key: Key)
    requires KeyOf(p) == KeyOf(p') == key && KeyOf(other) != key
    ensures GroupOf([p, other, p'], key) == [p, p']
  {
    hide KeyOf;
    assert [p, other, p'][..2] == [p, other] && [p, other][..1] == [p] && [p][..0] == [];
    assert GroupOf([p], key) == [p] && GroupOf([p, other], key) == [p];
  }

  /** Accept, deny, accept on the same criteria: dropping the first of the two reported flips the decision. */
  lemma EarlierMemberCannotAlwaysGo()
    ensures Report(["1", "3"], KeyOf(ACCEPT)) in ReportsOf([ACCEPT, DENY, TWIN], KeysOf([ACCEPT, DENY, TWIN]))
    ensures Decision([ACCEPT, DENY, TWIN], FROM_LAN) == Some(Some("accept"))
    ensures Decision(Dropped([ACCEPT, DENY, TWIN], 0), FROM_LAN) == Some(Some("deny"))
  {
    SameKey(ACCEPT, TWIN);
    assert KeyOf(DENY).action != KeyOf(ACCEPT).action;
    hide KeyOf, Matches, GroupOf, ReportsOf, KeysOf;
    var ps := [ACCEPT, DENY, TWIN];
    GroupAround(ACCEPT, DENY, TWIN, KeyOf(ACCEPT));
    ReportedPair(ps, 0, 2, KeyOf(ACCEPT));
    assert Ids([ACCEPT, TWIN]) == ["1", "3"];
    LanMatches(ACCEPT);
    LanMatches(DENY);
    assert Dropped(ps, 0) == [DENY, TWIN];
  }

  lemma LoneDisabled(p: Policy, q: Probe)
    requires !Enabled(p)
    ensures FirstMatch([p], q) == None
  {
    hide Matches;
    assert FirstMatch([p][1..], q) == None;
  }

  /** Two reported policies with nothing in between: dropping the enabled one loses the traffic. */
  lemma DisabledTwinIsNoBackup()
    ensures Report(["1", "3"], KeyOf(ACCEPT)) in ReportsOf([ACCEPT, DISABLED_TWIN], KeysOf([ACCEPT, DISABLED_TWIN]))
    ensures Decision([ACCEPT, DISABLED_TWIN], FROM_LAN) == Some(Some("accept"))
    ensures Decision(Dropped([ACCEPT, DISABLED_TWIN], 0), FROM_LAN) == None
  {
    SameKey(ACCEPT, DISABLED_TWIN);
    LanMatches(ACCEPT);
    LoneDisabled(DISABLED_TWIN, FROM_LAN);
    hide KeyOf, Matches, GroupOf, ReportsOf, KeysOf;
    var ps := [ACCEPT, DISABLED_TWIN];
    GroupOfPair(ACCEPT, DISABLED_TWIN, KeyOf(ACCEPT));
    ReportedPair(ps, 0, 1, KeyOf(ACCEPT));
    assert Ids(ps) == ["1", "3"];
    assert FirstMatch(ps, FROM_LAN) == Some(ACCEPT);
    assert Dropped(ps, 0) == [DISABLED_TWIN];
  }

  lemma SameKey(p: Policy, p': Policy)
    requires p.fields == p'.fields && p.action == p'.action
    ensures KeyOf(p) == KeyOf(p')
  {
    forall f | f in ALL_FIELDS ensures NamesOf(p, f) == NamesOf(p', f) {}
    assert KeyOf(p).criteria == KeyOf(p').criteria;
  }

  lemma ReportedPair(ps: seq<Policy>, i: nat, j: nat, key: Key)
    requires i < j < |ps| && KeyOf(ps[i]) == key && KeyOf(ps[j]) == key
    ensures Report(Ids(GroupOf(ps, key)), key) in ReportsOf(ps, KeysOf(ps))
  {
    hide KeyOf, GroupOf, Ids, ReportsOf, KeysOf;
    ReportedIff(ps, Report(Ids(GroupOf(ps, key)), key));
  }
}
