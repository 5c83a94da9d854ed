/**
 Copying objects between devices: `sync_objects` for one type and one destination, and
 `replicate_config` for several of each. Dry run, attempts, and what a following dry run shows.

 A device is identified by its id; its name is unique within its site only. It holds, per resource
 type, the list its list endpoint returns. Whether a list can be read and whether a create is
 accepted is decided by the environment, attempt by attempt.
 */
module FleetService {
  import opened Wrappers
  import opened Json
  import opened ModePolicy
  import opened ChangeDispatch
  import opened Selection

  type Items = seq<Dict>

  /** Per device id and resource type. */
  type Store = map<(string, string), Items>

  predicate HasList(rtype: string) {
    rtype in CRUD_TYPES || rtype in NO_GETTER_TYPES || rtype == "vdom_link"
  }

  function ItemsAt(store: Store, device: string, rtype: string): Items {
    if (device, rtype) in store then store[(device, rtype)] else []
  }

  /** An item's name; names are compared with Python's equality. */
  function NameOf(item: Dict): Json {
    Norm(Get(item, "name"))
  }

  function NamesIn(items: Items): set<Json> {
    set item | item in items :: NameOf(item)
  }

  /** The source items, in order, whose name the destination lacks. */
  function Missing(source: Items, names: set<Json>): Items {
    if source == [] then [] else
      var last := source[|source| - 1];
      Missing(source[..|source| - 1], names) + (if NameOf(last) in names then [] else [last])
  }

  /** How the device answers the k-th create of a call: None is success, otherwise the error text. */
  type Replies = nat -> Option<string>

  datatype Outcome = Outcome(name: Json, error: Option<string>)

  /** The attempts for the first n items. */
  function OutcomesFor(items: Items, replies: Replies): seq<Outcome> {
    seq(|items|, k requires 0 <= k < |items| => Outcome(Get(items[k], "name"), replies(k)))
  }

  /** The items whose create succeeded. */
  function Created(items: Items, replies: Replies): Items {
    if items == [] then [] else
      var k := |items| - 1;
      Created(items[..k], replies) + (if replies(k).None? then [items[k]] else [])
  }

  lemma NoAttempts(replies: Replies)
    ensures OutcomesFor([], replies) == [] && Created([], replies) == []
  {
  }

  lemma AttemptStep(items: Items, k: nat, replies: Replies)
    requires k < |items|
    ensures OutcomesFor(items[..k + 1], replies)
         == OutcomesFor(items[..k], replies) + [Outcome(Get(items[k], "name"), replies(k))]
    ensures Created(items[..k + 1], replies)
         == Created(items[..k], replies) + (if replies(k).None? then [items[k]] else [])
  {
    assert items[..k + 1][..k] == items[..k];
  }

  datatype SyncError = ListUnsupported | ListFailed | SyncModeViolation

  datatype SyncReport =
    | Failed(error: SyncError)
    | Plan(names: seq<Json>)
    | Done(outcomes: seq<Outcome>)

  function RawNames(items: Items): seq<Json> {
    seq(|items|, k requires 0 <= k < |items| => Get(items[k], "name"))
  }

  function PlanFor(store: Store, source: string, dest: string, rtype: string): Items {
    Missing(ItemsAt(store, source, rtype), NamesIn(ItemsAt(store, dest, rtype)))
  }

  /** One type on one destination, its lists having been read. */
  function SyncStep(store: Store, mode: OperatingMode, source: string, dest: string, rtype: string, confirm: bool,
                    replies: Replies): (Store, SyncReport)
  {
    if !HasList(rtype) then (store, Failed(ListUnsupported)) else
      var missing := PlanFor(store, source, dest, rtype);
      if !confirm then (store, Plan(RawNames(missing)))
      else if !Permits(mode, Create) then (store, Failed(SyncModeViolation))
      else (store[(dest, rtype) := ItemsAt(store, dest, rtype) + Created(missing, replies)],
            Done(OutcomesFor(missing, replies)))
  }

  // ---- The service -----------------------------------------------------------------------------------

  class Fleet {
    var store: Store
    const mode: OperatingMode

    constructor (store: Store, mode: OperatingMode)
      ensures this.store == store && this.mode == mode
    {
      this.store, this.mode := store, mode;
    }

    /** The create loop shared by both operations: one attempt per item, failures do not stop it. */
    method CreateAll(dest: string, rtype: string, items: Items, replies: Replies) returns (results: seq<Outcome>)
      modifies this
      ensures results == OutcomesFor(items, replies)
      ensures store == old(store)[(dest, rtype) := ItemsAt(old(store), dest, rtype) + Created(items, replies)]
    {
      hide OutcomesFor, Created;
      NoAttempts(replies);
      results := [];
      ghost var start := ItemsAt(store, dest, rtype);
      store := store[(dest, rtype) := ItemsAt(store, dest, rtype)];
      ghost var base := store;
      assert items[..0] == [];
      for k := 0 to |items|
        invariant results == OutcomesFor(items[..k], replies)
        invariant (dest, rtype) in store && store[(dest, rtype)] == start + Created(items[..k], replies)
        invariant store == base[(dest, rtype) := store[(dest, rtype)]]
      {
        AttemptStep(items, k, replies);
        var reply := replies(k);
        if reply.None? {
          store := store[(dest, rtype) := store[(dest, rtype)] + [items[k]]];
        }
        results := results + [Outcome(Get(items[k], "name"), reply)];
      }
      assert items[..|items|] == items;
    }

    /** `sync_objects` once both devices are connected; a list that cannot be read raises out of it. */
    method SyncObjects(source: string, dest: string, rtype: string, confirm: bool, listed: bool, replies: Replies)
      returns (report: SyncReport)
      modifies this
      ensures if HasList(rtype) && !listed
              then store == old(store) && report == Failed(ListFailed)
              else (store, report) == SyncStep(old(store), mode, source, dest, rtype, confirm, replies)
    {
      if !HasList(rtype) {
        return Failed(ListUnsupported);
      }
      if !listed {
        return Failed(ListFailed);
      }
      var sourceItems, destItems := ItemsAt(store, source, rtype), ItemsAt(store, dest, rtype);
      var missing := Missing(sourceItems, NamesIn(destItems));
      if !confirm {
        return Plan(RawNames(missing));
      }
      if !Permits(mode, Create) {
        return Failed(SyncModeViolation);
      }
      var results := CreateAll(dest, rtype, missing, replies);
      return Done(results);
    }

    /** One round of the inner loop of `replicate_config`, its lists having been read. */
    method SyncList(source: string, dest: string, rtype: string, confirm: bool, replies: Replies)
      returns (line: SyncReport)
      modifies this
      ensures (store, line) == SyncStep(old(store), Full, source, dest, rtype, confirm, replies)
    {
      if !HasList(rtype) {
        return Failed(ListUnsupported);
      }
      var missing := Missing(ItemsAt(store, source, rtype), NamesIn(ItemsAt(store, dest, rtype)));
      if !confirm {
        return Plan(RawNames(missing));
      }
      var results := CreateAll(dest, rtype, missing, replies);
      return Done(results);
    }

    /** The inner loop of `replicate_config`: every resource type on one destination. */
    method ReplicateTo(source: string, dest: string, rtypes: seq<string>, confirm: bool, i: nat, answers: Answers)
      returns (lines: Option<map<string, SyncReport>>)
      modifies this
      ensures (store, lines) == DeviceStep(old(store), source, dest, rtypes, confirm, i, answers)
    {
      hide SyncStep, HasList;
      var done: map<string, SyncReport> := map[];
      for j := 0 to |rtypes|
        invariant (store, Some(done)) == DeviceStep(old(store), source, dest, rtypes[..j], confirm, i, answers)
      {
        DeviceRound(old(store), source, dest, rtypes, j, confirm, i, answers);
        if HasList(rtypes[j]) && !answers.listed(i, j) {
          DeviceRaisedStays(old(store), source, dest, rtypes, j + 1, confirm, i, answers);
          return None;
        }
        var line := SyncList(source, dest, rtypes[j], confirm, answers.creates(i, j));
        done := done[rtypes[j] := line];
      }
      assert rtypes[..|rtypes|] == rtypes;
      return Some(done);
    }

    /** `replicate_config`: every destination not named like the source, every resource type. */
    method ReplicateConfig(source: DeviceRow, dests: seq<DeviceRow>, reachable: set<string>,
                           resourceTypes: seq<string>, confirm: bool, answers: Answers)
      returns (report: ReplicateReport)
      modifies this
      ensures if confirm && !Permits(mode, Create)
              then store == old(store) && report == Refused
              else var (store', reports) :=
                     FleetStep(old(store), source, dests, reachable,
                               if resourceTypes == [] then ["address_object", "service_object"] else resourceTypes,
                               confirm, answers);
                   store == store' && report == (if reports.Some? then Devices(reports.value) else Raised)
    {
      hide DeviceStep;
      var rtypes := TypesOf(resourceTypes);
      if confirm && !Permits(mode, Create) {
        return Refused;
      }
      var reports: seq<DeviceReport> := [];
      for i := 0 to |dests|
        invariant (store, Some(reports))
               == FleetStep(old(store), source, dests[..i], reachable, rtypes, confirm, answers)
      {
        FleetRound(old(store), source, dests, i, reachable, rtypes, confirm, answers);
        if dests[i].name == source.name {
          continue;
        }
        if dests[i].id !in reachable {
          reports := reports + [Unreachable(dests[i].name)];
          continue;
        }
        var lines := ReplicateTo(source.id, dests[i].id, rtypes, confirm, i, answers);
        if lines.None? {
          FleetRaisedStays(old(store), source, dests, i + 1, reachable, rtypes, confirm, answers);
          return Raised;
        }
        reports := reports + [Reached(dests[i].name, lines.value)];
      }
      assert dests[..|dests|] == dests;
      return Devices(reports);
    }
  }

  // ---- What one sync does ------------------------------------------------------------------------------

  lemma HasListIff(rtype: string)
    ensures HasList(rtype) <==> rtype in RESOURCE_OPS && "list" in RESOURCE_OPS[rtype]
  {
    assert "list" in CRUD_VERBS;
  }

  /** No item of the list has a name equal to this one's. */
  predicate IsMissing(item: Dict, items: Items) {
    forall i :: 0 <= i < |items| ==> !PyEq(Get(items[i], "name"), Get(item, "name"))
  }

  lemma {:induction false} MissingIsFilter(source: Items, items: Items)
    ensures Missing(source, NamesIn(items)) == Filter(source, item => IsMissing(item, items))
  {
    hide IsMissing, NamesIn;
    if source != [] {
      MissingIsFilter(source[..|source| - 1], items);
      NameIsIn(source[|source| - 1], items);
    }
  }

  lemma NameIsIn(item: Dict, items: Items)
    ensures NameOf(item) in NamesIn(items) <==> !IsMissing(item, items)
  {
    if NameOf(item) in NamesIn(items) {
      var other :| other in items && NameOf(other) == NameOf(item);
      var i :| 0 <= i < |items| && items[i] == other;
      assert PyEq(Get(items[i], "name"), Get(item, "name"));
    }
    if i :| 0 <= i < |items| && PyEq(Get(items[i], "name"), Get(item, "name")) { assert items[i] in items; }
  }

  /** The plan: the source items, in order and as often as they occur, that the destination has no namesake of. */
  lemma PlanIs(store: Store, source: string, dest: string, rtype: string) returns (at: seq<nat>)
    ensures var items := if (source, rtype) in store then store[(source, rtype)] else [];
            var others := if (dest, rtype) in store then store[(dest, rtype)] else [];
            var plan := PlanFor(store, source, dest, rtype);
            && |plan| == |at| && (forall k, l :: 0 <= k < l < |at| ==> at[k] < at[l])
            && (forall k :: 0 <= k < |at| ==> at[k] < |items| && plan[k] == items[at[k]])
            && (forall i: nat :: i in at <==> i < |items| && IsMissing(items[i], others))
  {
    hide NamesIn, Missing, IsMissing;
    var items, others := ItemsAt(store, source, rtype), ItemsAt(store, dest, rtype);
    MissingIsFilter(items, others);
    at := FilterSelects(items, item => IsMissing(item, others));
  }

  lemma {:induction false} CreatedPlaces(items: Items, replies: Replies) returns (at: seq<nat>)
    ensures |Created(items, replies)| == |at| && forall k, l :: 0 <= k < l < |at| ==> at[k] < at[l]
    ensures forall k :: 0 <= k < |at| ==> at[k] < |items| && Created(items, replies)[k] == items[at[k]]
    ensures forall i: nat :: i in at <==> i < |items| && replies(i).None?
  {
    at := [];
    if items != [] {
      var n := |items| - 1;
      var front := CreatedPlaces(items[..n], replies);
      assert forall k :: 0 <= k < |front| ==> front[k] in front;
      at := front + (if replies(n).None? then [n] else []);
    }
  }

  /**
   One sync: refused for a type without a list; without confirmation the names of the plan and no
   write; refused in read-only mode, again without a write; otherwise one attempt per planned item,
   in order, with the answer it got.
   */
  lemma SyncReportIs(store: Store, mode: OperatingMode, source: string, dest: string, rtype: string, confirm: bool,
                     replies: Replies)
    ensures var plan := PlanFor(store, source, dest, rtype);
            var (store', report) := SyncStep(store, mode, source, dest, rtype, confirm, replies);
            var listable := rtype in RESOURCE_OPS && "list" in RESOURCE_OPS[rtype];
            && (report == Failed(ListUnsupported) <==> !listable)
            && (report == Failed(SyncModeViolation) <==> listable && confirm && mode == ReadOnly)
            && (report.Plan? <==> listable && !confirm)
            && (report.Plan? ==> |report.names| == |plan|
                                 && forall k :: 0 <= k < |plan| ==> report.names[k] == Get(plan[k], "name"))
            && (!report.Done? ==> store' == store && report != Failed(ListFailed))
            && (report.Done? ==>
                  && |report.outcomes| == |plan|
                  && forall k :: 0 <= k < |plan| ==> report.outcomes[k] == Outcome(Get(plan[k], "name"), replies(k)))
  {
    hide Missing, NamesIn, Created;
    HasListIff(rtype);
  }

  /** What is written: the planned items whose attempt had no error, in order, behind what was there; nothing else. */
  lemma SyncWrites(store: Store, mode: OperatingMode, source: string, dest: string, rtype: string, replies: Replies)
    returns (created: seq<nat>)
    requires SyncStep(store, mode, source, dest, rtype, true, replies).1.Done?
    ensures var plan := PlanFor(store, source, dest, rtype);
            var (store', report) := SyncStep(store, mode, source, dest, rtype, true, replies);
            var before, after := ItemsAt(store, dest, rtype), ItemsAt(store', dest, rtype);
            && (forall i: nat :: i in created <==> i < |plan| && replies(i).None?)
            && (forall k, l :: 0 <= k < l < |created| ==> created[k] < created[l])
            && |after| == |before| + |created| && before <= after
            && (forall k :: 0 <= k < |created| ==> created[k] < |plan| && after[|before| + k] == plan[created[k]])
            && (forall key :: key != (dest, rtype) ==>
                  (key in store' <==> key in store) && (key in store ==> store'[key] == store[key]))
  {
    var plan, before := PlanFor(store, source, dest, rtype), ItemsAt(store, dest, rtype);
    assert SyncStep(store, mode, source, dest, rtype, true, replies).0
        == store[(dest, rtype) := before + Created(plan, replies)];
    hide Missing, NamesIn, Created, PlanFor, SyncStep;
    created := CreatedPlaces(plan, replies);
  }

  // ---- One sync ----------------------------------------------------------------------------------------

  /** The confirmed run attempts exactly what the dry run lists, in order, one outcome each. */
  lemma ConfirmedAttemptsThePlan(store: Store, mode: OperatingMode, source: string, dest: string, rtype: string,
                                 replies: Replies)
    ensures var dry, wet := SyncStep(store, mode, source, dest, rtype, false, replies),
                            SyncStep(store, mode, source, dest, rtype, true, replies);
            && dry.0 == store
            && (wet.1.Done? ==> dry.1.Plan? && |wet.1.outcomes| == |dry.1.names|
                                && forall k :: 0 <= k < |dry.1.names| ==> wet.1.outcomes[k].name == dry.1.names[k])
            && (dry.1.Plan? && Permits(mode, Create) ==> wet.1.Done?)
  {
  }

  lemma {:induction false} MissingIff(source: Items, names: set<Json>, item: Dict)
    ensures item in Missing(source, names) <==> item in source && NameOf(item) !in names
  {
    hide NameOf;
    if source != [] {
      MissingIff(source[..|source| - 1], names, item);
      assert source == source[..|source| - 1] + [source[|source| - 1]];
    }
  }

  lemma {:induction false} CreatedIff(items: Items, replies: Replies, item: Dict)
    ensures item in Created(items, replies) <==> exists k :: 0 <= k < |items| && replies(k).None? && items[k] == item
  {
    if items != [] {
      var n := |items| - 1;
      CreatedIff(items[..n], replies, item);
      assert forall k :: 0 <= k < n ==> items[..n][k] == items[k];
      if k :| 0 <= k < |items| && replies(k).None? && items[k] == item && k < n { assert items[..n][k] == item; }
    }
  }

  /** A sync only ever adds: what was on the destination stays where it was, and no other list is touched. */
  lemma SyncOnlyAdds(store: Store, mode: OperatingMode, source: string, dest: string, rtype: string, confirm: bool,
                     replies: Replies)
    ensures var store' := SyncStep(store, mode, source, dest, rtype, confirm, replies).0;
            && ItemsAt(store, dest, rtype) <= ItemsAt(store', dest, rtype)
            && (forall d, t :: (d, t) != (dest, rtype) ==> ItemsAt(store', d, t) == ItemsAt(store, d, t))
            && (forall item :: item in ItemsAt(store', dest, rtype) && item !in ItemsAt(store, dest, rtype) ==>
                  item in ItemsAt(store, source, rtype) && NameOf(item) !in NamesIn(ItemsAt(store, dest, rtype)))
  {
    hide NameOf, NamesIn;
    var store' := SyncStep(store, mode, source, dest, rtype, confirm, replies).0;
    var missing := PlanFor(store, source, dest, rtype);
    forall item | item in ItemsAt(store', dest, rtype) && item !in ItemsAt(store, dest, rtype)
      ensures item in ItemsAt(store, source, rtype) && NameOf(item) !in NamesIn(ItemsAt(store, dest, rtype))
    {
      CreatedIff(missing, replies, item);
      MissingIff(ItemsAt(store, source, rtype), NamesIn(ItemsAt(store, dest, rtype)), item);
    }
  }

  /** Some create for an item of this name went through. */
  predicate NameCreated(items: Items, replies: Replies, name: Json) {
    exists k :: 0 <= k < |items| && replies(k).None? && NameOf(items[k]) == name
  }

  lemma NamesAfter(dest: Items, items: Items, replies: Replies, name: Json)
    ensures name in NamesIn(dest + Created(items, replies))
            <==> name in NamesIn(dest) || NameCreated(items, replies, name)
  {
    hide NameOf;
    var after := dest + Created(items, replies);
    if item :| item in after && NameOf(item) == name && item !in dest { CreatedIff(items, replies, item); }
    if item :| item in dest && NameOf(item) == name { assert item in after; }
    if k :| 0 <= k < |items| && replies(k).None? && NameOf(items[k]) == name {
      CreatedIff(items, replies, items[k]);
      assert items[k] in after;
    }
  }

  lemma MissingSnoc(front: Items, last: Dict, names: set<Json>)
    ensures Missing(front + [last], names) == Missing(front, names) + (if NameOf(last) in names then [] else [last])
  {
    assert (front + [last])[..|front|] == front;
  }

  /** Looking for what two sets of names lack is filtering twice. */
  lemma {:induction false} MissingTwice(source: Items, names: set<Json>, more: set<Json>)
    ensures Missing(source, names + more) == Missing(Missing(source, names), more)
  {
    hide NameOf;
    if source != [] {
      var front, last := source[..|source| - 1], source[|source| - 1];
      MissingTwice(front, names, more);
      MissingSnoc(Missing(front, names), last, more);
      assert Missing(front, names) + [] == Missing(front, names);
    }
  }

  /**
   A following dry run lists exactly the planned items, in their order and as often as before,
   whose name was not among the objects created.
   */
  lemma NextPlanIs(store: Store, mode: OperatingMode, source: string, dest: string, rtype: string, replies: Replies)
    requires source != dest && Permits(mode, Create) && HasList(rtype)
    ensures var plan := PlanFor(store, source, dest, rtype);
            var store' := SyncStep(store, mode, source, dest, rtype, true, replies).0;
            PlanFor(store', source, dest, rtype) == Missing(plan, NamesIn(Created(plan, replies)))
  {
    hide NameOf, Missing;
    var plan := PlanFor(store, source, dest, rtype);
    var items, created := ItemsAt(store, dest, rtype), Created(plan, replies);
    assert NamesIn(items + created) == NamesIn(items) + NamesIn(created);
    MissingTwice(ItemsAt(store, source, rtype), NamesIn(items), NamesIn(created));
  }

  /** A following dry run lists exactly the planned items none of whose namesakes was created. */
  lemma NextPlanIff(store: Store, mode: OperatingMode, source: string, dest: string, rtype: string,
                    replies: Replies, item: Dict)
    requires source != dest && Permits(mode, Create) && HasList(rtype)
    ensures var plan := PlanFor(store, source, dest, rtype);
            var store' := SyncStep(store, mode, source, dest, rtype, true, replies).0;
            item in PlanFor(store', source, dest, rtype) <==> item in plan && !NameCreated(plan, replies, NameOf(item))
  {
    hide NameOf, NamesIn, NameCreated;
    var plan := PlanFor(store, source, dest, rtype);
    var store' := SyncStep(store, mode, source, dest, rtype, true, replies).0;
    assert ItemsAt(store', source, rtype) == ItemsAt(store, source, rtype);
    MissingIff(ItemsAt(store, source, rtype), NamesIn(ItemsAt(store, dest, rtype)), item);
    MissingIff(ItemsAt(store, source, rtype), NamesIn(ItemsAt(store', dest, rtype)), item);
    NamesAfter(ItemsAt(store, dest, rtype), plan, replies, NameOf(item));
  }

  /** The sync has converged exactly when for every planned name some create succeeded. */
  lemma {:induction false} ConvergedIff(store: Store, mode: OperatingMode, source: string, dest: string, rtype: string,
                                        replies: Replies)
    requires source != dest && Permits(mode, Create) && HasList(rtype)
    ensures var plan := PlanFor(store, source, dest, rtype);
            var store' := SyncStep(store, mode, source, dest, rtype, true, replies).0;
            PlanFor(store', source, dest, rtype) == [] <==>
              forall k :: 0 <= k < |plan| ==> NameCreated(plan, replies, NameOf(plan[k]))
  {
    hide NameOf, NameCreated, SyncStep, PlanFor;
    var plan := PlanFor(store, source, dest, rtype);
    var store' := SyncStep(store, mode, source, dest, rtype, true, replies).0;
    var plan' := PlanFor(store', source, dest, rtype);
    forall item ensures item in plan' <==> item in plan && !NameCreated(plan, replies, NameOf(item)) {
      NextPlanIff(store, mode, source, dest, rtype, replies, item);
    }
    if plan' != [] { assert plan'[0] in plan'; }
    if k :| 0 <= k < |plan| && !NameCreated(plan, replies, NameOf(plan[k])) { assert plan[k] in plan'; }
  }

  /** A device synced with itself has nothing to do. */
  lemma SelfSyncIsEmpty(store: Store, device: string, rtype: string)
    ensures PlanFor(store, device, device, rtype) == []
  {
    hide NameOf;
    var items := ItemsAt(store, device, rtype);
    var plan := PlanFor(store, device, device, rtype);
    if plan != [] {
      MissingIff(items, NamesIn(items), plan[0]);
    }
  }

  // ---- Replication ---------------------------------------------------------------------------------------

  const DEFAULT_TYPES := ["address_object", "service_object"]

  /** `resource_types or [...]`. */
  function TypesOf(resourceTypes: seq<string>): seq<string> {
    if resourceTypes == [] then DEFAULT_TYPES else resourceTypes
  }

  /** A row of the inventory. */
  datatype DeviceRow = DeviceRow(id: string, name: string)

  /** The id is the primary key: rows that share it are the same row. */
  predicate KeyedById(source: DeviceRow, dests: seq<DeviceRow>) {
    && (forall d :: d in dests && d.id == source.id ==> d == source)
    && (forall d, e :: d in dests && e in dests && d.id == e.id ==> d == e)
  }

  /** For the i-th destination and the j-th type: can the lists be read, and how are creates answered. */
  datatype Answers = Answers(listed: (nat, nat) -> bool, creates: (nat, nat) -> Replies)

  /** The report on one destination: a line per resource type, or that it could not be reached. */
  datatype DeviceReport = Unreachable(device: string) | Reached(device: string, lines: map<string, SyncReport>)

  datatype ReplicateReport = Refused | Raised | Devices(reports: seq<DeviceReport>)

  /**
   The i-th destination: its types one after the other, a repeated type overwriting its line. None
   where a list cannot be read, which raises out of both loops.
   */
  function DeviceStep(store: Store, source: string, dest: string, rtypes: seq<string>, confirm: bool, i: nat,
                      answers: Answers): (Store, Option<map<string, SyncReport>>)
  {
    if rtypes == [] then (store, Some(map[])) else
      var j := |rtypes| - 1;
      var (mid, lines) := DeviceStep(store, source, dest, rtypes[..j], confirm, i, answers);
      if lines.None? || (HasList(rtypes[j]) && !answers.listed(i, j)) then (mid, None) else
        var (after, line) := SyncStep(mid, Full, source, dest, rtypes[j], confirm, answers.creates(i, j));
        (after, Some(lines.value[rtypes[j] := line]))
  }

  /** All destinations one after the other, those named like the source left out. */
  function FleetStep(store: Store, source: DeviceRow, dests: seq<DeviceRow>, reachable: set<string>,
                     rtypes: seq<string>, confirm: bool, answers: Answers): (Store, Option<seq<DeviceReport>>)
  {
    if dests == [] then (store, Some([])) else
      var i := |dests| - 1;
      var (mid, reports) := FleetStep(store, source, dests[..i], reachable, rtypes, confirm, answers);
      if reports.None? || dests[i].name == source.name then (mid, reports)
      else if dests[i].id !in reachable then (mid, Some(reports.value + [Unreachable(dests[i].name)]))
      else
        var (after, lines) := DeviceStep(mid, source.id, dests[i].id, rtypes, confirm, i, answers);
        (after, if lines.None? then None else Some(reports.value + [Reached(dests[i].name, lines.value)]))
  }

  lemma DeviceRound(store: Store, source: string, dest: string, rtypes: seq<string>, j: nat, confirm: bool, i: nat,
                    answers: Answers)
    requires j < |rtypes|
    ensures var (mid, lines) := DeviceStep(store, source, dest, rtypes[..j], confirm, i, answers);
            DeviceStep(store, source, dest, rtypes[..j + 1], confirm, i, answers)
            == if lines.None? || (HasList(rtypes[j]) && !answers.listed(i, j)) then (mid, None) else
                 var (after, line) := SyncStep(mid, Full, source, dest, rtypes[j], confirm, answers.creates(i, j));
                 (after, Some(lines.value[rtypes[j] := line]))
  {
    assert rtypes[..j + 1][..j] == rtypes[..j];
  }

  lemma {:induction false} DeviceRaisedStays(store: Store, source: string, dest: string, rtypes: seq<string>, j: nat,
                                             confirm: bool, i: nat, answers: Answers)
    requires j <= |rtypes| && DeviceStep(store, source, dest, rtypes[..j], confirm, i, answers).1.None?
    ensures DeviceStep(store, source, dest, rtypes, confirm, i, answers)
         == DeviceStep(store, source, dest, rtypes[..j], confirm, i, answers)
  {
    hide SyncStep;
    if j == |rtypes| {
      assert rtypes[..j] == rtypes;
    } else {
      assert rtypes[..|rtypes| - 1][..j] == rtypes[..j];
      DeviceRaisedStays(store, source, dest, rtypes[..|rtypes| - 1], j, confirm, i, answers);
    }
  }

  lemma FleetRound(store: Store, source: DeviceRow, dests: seq<DeviceRow>, i: nat, reachable: set<string>,
                   rtypes: seq<string>, confirm: bool, answers: Answers)
    requires i < |dests|
    ensures var (mid, reports) := FleetStep(store, source, dests[..i], reachable, rtypes, confirm, answers);
            var (after, lines) := DeviceStep(mid, source.id, dests[i].id, rtypes, confirm, i, answers);
            FleetStep(store, source, dests[..i + 1], reachable, rtypes, confirm, answers)
            == if reports.None? || dests[i].name == source.name then (mid, reports)
               else if dests[i].id !in reachable then (mid, Some(reports.value + [Unreachable(dests[i].name)]))
               else (after, if lines.None? then None else Some(reports.value + [Reached(dests[i].name, lines.value)]))
  {
    hide DeviceStep;
    assert dests[..i + 1][..i] == dests[..i];
  }

  lemma {:induction false} FleetRaisedStays(store: Store, source: DeviceRow, dests: seq<DeviceRow>, i: nat,
                                            reachable: set<string>, rtypes: seq<string>, confirm: bool,
                                            answers: Answers)
    requires i <= |dests| && FleetStep(store, source, dests[..i], reachable, rtypes, confirm, answers).1.None?
    ensures FleetStep(store, source, dests, reachable, rtypes, confirm, answers)
         == FleetStep(store, source, dests[..i], reachable, rtypes, confirm, answers)
  {
    hide DeviceStep;
    if i == |dests| {
      assert dests[..i] == dests;
    } else {
      assert dests[..|dests| - 1][..i] == dests[..i];
      FleetRaisedStays(store, source, dests[..|dests| - 1], i, reachable, rtypes, confirm, answers);
    }
  }

  // ---- What is reported on -------------------------------------------------------------------------------

  /** The destinations that are visited. */
  function Others(dests: seq<DeviceRow>, source: DeviceRow): seq<DeviceRow> {
    if dests == [] then [] else
      var last := dests[|dests| - 1];
      Others(dests[..|dests| - 1], source) + (if last.name == source.name then [] else [last])
  }

  lemma {:induction false} LinesIff(store: Store, source: string, dest: string, rtypes: seq<string>, confirm: bool,
                                    i: nat, answers: Answers)
    ensures var lines := DeviceStep(store, source, dest, rtypes, confirm, i, answers).1;
            lines.Some? ==> forall t :: t in lines.value <==> t in rtypes
  {
    hide SyncStep;
    if rtypes != [] {
      LinesIff(store, source, dest, rtypes[..|rtypes| - 1], confirm, i, answers);
      assert rtypes == rtypes[..|rtypes| - 1] + [rtypes[|rtypes| - 1]];
    }
  }

  /**
   One report per destination not named like the source, in order and under its name, with a line
   per type if it was reached.
   */
  lemma {:induction false} ReportsIff(store: Store, source: DeviceRow, dests: seq<DeviceRow>, reachable: set<string>,
                                      rtypes: seq<string>, confirm: bool, answers: Answers)
    ensures var (result, others) :=
              (FleetStep(store, source, dests, reachable, rtypes, confirm, answers).1, Others(dests, source));
            result.Some? ==>
              && |result.value| == |others|
              && forall k :: 0 <= k < |others| ==>
                   && result.value[k].device == others[k].name
                   && (result.value[k].Reached? <==> others[k].id in reachable)
                   && (result.value[k].Reached? ==> forall t :: t in result.value[k].lines <==> t in rtypes)
  {
    hide DeviceStep;
    if dests != [] {
      var i := |dests| - 1;
      ReportsIff(store, source, dests[..i], reachable, rtypes, confirm, answers);
      var mid := FleetStep(store, source, dests[..i], reachable, rtypes, confirm, answers).0;
      LinesIff(mid, source.id, dests[i].id, rtypes, confirm, i, answers);
    }
  }

  /** The j-th type is read from and to the i-th destination, and a list cannot be read. */
  predicate ListLost(source: DeviceRow, dests: seq<DeviceRow>, reachable: set<string>, rtypes: seq<string>,
                     answers: Answers, i: int, j: int) {
    && 0 <= i < |dests| && dests[i].name != source.name && dests[i].id in reachable
    && 0 <= j < |rtypes| && HasList(rtypes[j]) && !answers.listed(i, j)
  }

  lemma {:induction false} DeviceRaisedIff(store: Store, source: string, dest: string, rtypes: seq<string>,
                                           confirm: bool, i: nat, answers: Answers)
    ensures DeviceStep(store, source, dest, rtypes, confirm, i, answers).1.None?
            <==> exists j :: 0 <= j < |rtypes| && HasList(rtypes[j]) && !answers.listed(i, j)
  {
    hide SyncStep, HasList;
    if rtypes != [] {
      var n := |rtypes| - 1;
      DeviceRaisedIff(store, source, dest, rtypes[..n], confirm, i, answers);
      assert forall j :: 0 <= j < n ==> rtypes[..n][j] == rtypes[j];
      if j :| 0 <= j < n && HasList(rtypes[j]) && !answers.listed(i, j) { assert HasList(rtypes[..n][j]); }
    }
  }

  /** The call raises, without any report, exactly when some list of a visited destination cannot be read. */
  lemma {:induction false} RaisedIff(store: Store, source: DeviceRow, dests: seq<DeviceRow>, reachable: set<string>,
                                     rtypes: seq<string>, confirm: bool, answers: Answers)
    ensures FleetStep(store, source, dests, reachable, rtypes, confirm, answers).1.None?
            <==> exists i, j :: ListLost(source, dests, reachable, rtypes, answers, i, j)
  {
    hide DeviceStep, HasList;
    if dests != [] {
      var n := |dests| - 1;
      RaisedIff(store, source, dests[..n], reachable, rtypes, confirm, answers);
      var mid := FleetStep(store, source, dests[..n], reachable, rtypes, confirm, answers).0;
      DeviceRaisedIff(mid, source.id, dests[n].id, rtypes, confirm, n, answers);
      if i, j :| ListLost(source, dests[..n], reachable, rtypes, answers, i, j) {
        assert ListLost(source, dests, reachable, rtypes, answers, i, j);
      }
      if i, j :| ListLost(source, dests, reachable, rtypes, answers, i, j) {
        if i < n {
          assert ListLost(source, dests[..n], reachable, rtypes, answers, i, j);
        } else {
          assert ListLost(source, dests, reachable, rtypes, answers, n, j);
        }
      }
      if j :| 0 <= j < |rtypes| && HasList(rtypes[j]) && !answers.listed(n, j)
              && dests[n].name != source.name && dests[n].id in reachable
      {
        assert ListLost(source, dests, reachable, rtypes, answers, n, j);
      }
    }
  }

  /**
   A call that raises has done all its work on the destinations in front of the one it raised at,
   part of its work there, and nothing behind.
   */
  lemma {:induction false} RaisedMidway(store: Store, source: DeviceRow, dests: seq<DeviceRow>, reachable: set<string>,
                                        rtypes: seq<string>, confirm: bool, answers: Answers) returns (i: nat)
    requires FleetStep(store, source, dests, reachable, rtypes, confirm, answers).1.None?
    ensures i < |dests|
    ensures var (mid, reports) := FleetStep(store, source, dests[..i], reachable, rtypes, confirm, answers);
            var (after, lines) := DeviceStep(mid, source.id, dests[i].id, rtypes, confirm, i, answers);
            && reports.Some? && lines.None?
            && FleetStep(store, source, dests, reachable, rtypes, confirm, answers).0 == after
  {
    hide DeviceStep;
    var n := |dests| - 1;
    if FleetStep(store, source, dests[..n], reachable, rtypes, confirm, answers).1.None? {
      i := RaisedMidway(store, source, dests[..n], reachable, rtypes, confirm, answers);
      assert dests[..n][..i] == dests[..i];
    } else {
      i := n;
    }
  }

  // ---- What is written -----------------------------------------------------------------------------------

  lemma {:induction false} DeviceOnlyAdds(store: Store, source: string, dest: string, rtypes: seq<string>,
                                          confirm: bool, i: nat, answers: Answers, device: string, rtype: string)
    ensures var store' := DeviceStep(store, source, dest, rtypes, confirm, i, answers).0;
            && ItemsAt(store, device, rtype) <= ItemsAt(store', device, rtype)
            && (!(confirm && device == dest && rtype in rtypes) ==>
                  ItemsAt(store', device, rtype) == ItemsAt(store, device, rtype))
  {
    hide Missing, Created, NamesIn, HasList;
    if rtypes != [] {
      var j := |rtypes| - 1;
      DeviceOnlyAdds(store, source, dest, rtypes[..j], confirm, i, answers, device, rtype);
      var mid := DeviceStep(store, source, dest, rtypes[..j], confirm, i, answers).0;
      SyncOnlyAdds(mid, Full, source, dest, rtypes[j], confirm, answers.creates(i, j));
      if !confirm { DryRunWritesNothing(mid, source, dest, rtypes[j], answers.creates(i, j)); }
    }
  }

  lemma DryRunWritesNothing(store: Store, source: string, dest: string, rtype: string, replies: Replies)
    ensures SyncStep(store, Full, source, dest, rtype, false, replies).0 == store
  {
  }

  /** Some destination that is visited and reached is this device. */
  predicate Visited(source: DeviceRow, dests: seq<DeviceRow>, reachable: set<string>, device: string) {
    exists d :: d in dests && d.name != source.name && d.id == device && device in reachable
  }

  /**
   Lists only grow, and no list changes but those of the given types on the devices visited; an
   unconfirmed call changes none. The same holds for a call that raises.
   */
  lemma {:induction false} ReplicationOnlyAdds(store: Store, source: DeviceRow, dests: seq<DeviceRow>,
                                               reachable: set<string>, rtypes: seq<string>, confirm: bool,
                                               answers: Answers, device: string, rtype: string)
    ensures var store' := FleetStep(store, source, dests, reachable, rtypes, confirm, answers).0;
            && ItemsAt(store, device, rtype) <= ItemsAt(store', device, rtype)
            && (!(confirm && Visited(source, dests, reachable, device) && rtype in rtypes) ==>
                  ItemsAt(store', device, rtype) == ItemsAt(store, device, rtype))
  {
    hide DeviceStep, ItemsAt;
    if dests != [] {
      var i := |dests| - 1;
      ReplicationOnlyAdds(store, source, dests[..i], reachable, rtypes, confirm, answers, device, rtype);
      var mid := FleetStep(store, source, dests[..i], reachable, rtypes, confirm, answers).0;
      DeviceOnlyAdds(mid, source.id, dests[i].id, rtypes, confirm, i, answers, device, rtype);
      assert Visited(source, dests[..i], reachable, device) ==> Visited(source, dests, reachable, device);
    }
  }

  lemma {:induction false} DeviceConverges(store: Store, source: string, dest: string, rtypes: seq<string>, i: nat,
                                           answers: Answers, t: string)
    requires dest != source && t in rtypes && HasList(t)
    requires forall k, l, n :: answers.creates(k, l)(n).None?
    requires DeviceStep(store, source, dest, rtypes, true, i, answers).1.Some?
    ensures PlanFor(DeviceStep(store, source, dest, rtypes, true, i, answers).0, source, dest, t) == []
  {
    hide HasList, NameOf, NamesIn, Missing, SyncStep;
    var j := |rtypes| - 1;
    var mid := DeviceStep(store, source, dest, rtypes[..j], true, i, answers).0;
    if t == rtypes[j] {
      AllCreated(PlanFor(mid, source, dest, t), answers.creates(i, j));
      ConvergedIff(mid, Full, source, dest, t, answers.creates(i, j));
    } else {
      assert t in rtypes[..j];
      DeviceConverges(store, source, dest, rtypes[..j], i, answers, t);
      SyncOnlyAdds(mid, Full, source, dest, rtypes[j], true, answers.creates(i, j));
    }
  }

  lemma {:induction false} VisitedConverges(store: Store, source: DeviceRow, dests: seq<DeviceRow>,
                                            reachable: set<string>, rtypes: seq<string>, answers: Answers,
                                            dest: DeviceRow, t: string)
    requires KeyedById(source, dests) && dest in dests && dest.name != source.name && dest.id in reachable
    requires t in rtypes && HasList(t)
    requires forall k, l, n :: answers.creates(k, l)(n).None?
    requires FleetStep(store, source, dests, reachable, rtypes, true, answers).1.Some?
    ensures PlanFor(FleetStep(store, source, dests, reachable, rtypes, true, answers).0, source.id, dest.id, t) == []
  {
    hide HasList, NameOf, NamesIn, Missing, DeviceStep;
    var i := |dests| - 1;
    var mid := FleetStep(store, source, dests[..i], reachable, rtypes, true, answers).0;
    if dest == dests[i] {
      DeviceConverges(mid, source.id, dest.id, rtypes, i, answers, t);
    } else {
      assert dest in dests[..i];
      VisitedConverges(store, source, dests[..i], reachable, rtypes, answers, dest, t);
      DeviceOnlyAdds(mid, source.id, dests[i].id, rtypes, true, i, answers, dest.id, t);
      DeviceOnlyAdds(mid, source.id, dests[i].id, rtypes, true, i, answers, source.id, t);
    }
  }

  /**
   When every list is read and every create succeeds, nothing of a given type is missing on a
   destination that can be reached exactly when it is not named like the source or nothing was
   missing there before: a namesake of the source at another site is left as it is.
   */
  lemma {:induction false} ReplicationConvergesIff(store: Store, source: DeviceRow, dests: seq<DeviceRow>,
                                                   reachable: set<string>, rtypes: seq<string>, answers: Answers,
                                                   dest: DeviceRow, t: string)
    requires KeyedById(source, dests) && dest in dests && dest.id in reachable && t in rtypes && HasList(t)
    requires forall k, l, n :: answers.creates(k, l)(n).None?
    requires FleetStep(store, source, dests, reachable, rtypes, true, answers).1.Some?
    ensures var store' := FleetStep(store, source, dests, reachable, rtypes, true, answers).0;
            PlanFor(store', source.id, dest.id, t) == []
            <==> dest.name != source.name || PlanFor(store, source.id, dest.id, t) == []
  {
    hide FleetStep, Missing, NamesIn, ItemsAt, HasList;
    if dest.name != source.name {
      VisitedConverges(store, source, dests, reachable, rtypes, answers, dest, t);
    } else {
      NamesakeIsLeftAlone(store, source, dests, reachable, rtypes, true, answers, dest, t);
      NamesakeIsLeftAlone(store, source, dests, reachable, rtypes, true, answers, source, t);
    }
  }

  /** No list of the source, nor of a destination named like it, is ever written. */
  lemma NamesakeIsLeftAlone(store: Store, source: DeviceRow, dests: seq<DeviceRow>, reachable: set<string>,
                            rtypes: seq<string>, confirm: bool, answers: Answers, dest: DeviceRow, t: string)
    requires KeyedById(source, dests) && (dest == source || dest in dests) && dest.name == source.name
    ensures var store' := FleetStep(store, source, dests, reachable, rtypes, confirm, answers).0;
            ItemsAt(store', dest.id, t) == ItemsAt(store, dest.id, t)
  {
    hide FleetStep, ItemsAt;
    ReplicationOnlyAdds(store, source, dests, reachable, rtypes, confirm, answers, dest.id, t);
  }

  /** Two devices named fw01 at two sites: asked to replicate the first to the second, the call does nothing. */
  lemma NamesakeKeepsMissing(item: Dict, answers: Answers)
    ensures var source, dest := DeviceRow("dev_1", "fw01"), DeviceRow("dev_2", "fw01");
            var store: Store := map[("dev_1", "address_object") := [item]];
            && KeyedById(source, [dest])
            && FleetStep(store, source, [dest], {"dev_2"}, DEFAULT_TYPES, true, answers) == (store, Some([]))
            && PlanFor(store, "dev_1", "dev_2", "address_object") == [item]
  {
    var source, dest := DeviceRow("dev_1", "fw01"), DeviceRow("dev_2", "fw01");
    var store: Store := map[("dev_1", "address_object") := [item]];
    assert [dest][..0] == [];
    assert FleetStep(store, source, [dest][..0], {"dev_2"}, DEFAULT_TYPES, true, answers) == (store, Some([]));
    assert NamesIn(ItemsAt(store, "dev_2", "address_object")) == {};
    assert [item][..0] == [] && Missing([item], {}) == [item];
  }

  lemma AllCreated(plan: Items, replies: Replies)
    requires forall k :: replies(k).None?
    ensures forall k :: 0 <= k < |plan| ==> NameCreated(plan, replies, NameOf(plan[k]))
  {
  }

  // ---- The fleet-wide dry run is the plan of the confirmed run --------------------------------------------

  /** The confirmed line carries out the planned one: the same objects in order, one outcome each. */
  predicate CarriesOut(plan: SyncReport, line: SyncReport) {
    match plan
    case Plan(names) =>
      && line.Done? && |line.outcomes| == |names|
      && forall k :: 0 <= k < |names| ==> line.outcomes[k].name == names[k]
    case _ => line == plan
  }

  lemma SyncCarriesOut(base: Store, store: Store, source: string, dest: string, rtype: string, replies: Replies,
                       dry: Replies)
    requires ItemsAt(base, source, rtype) == ItemsAt(store, source, rtype)
    requires ItemsAt(base, dest, rtype) == ItemsAt(store, dest, rtype)
    ensures CarriesOut(SyncStep(base, Full, source, dest, rtype, false, dry).1,
                       SyncStep(store, Full, source, dest, rtype, true, replies).1)
  {
    hide Missing, NamesIn;
  }

  predicate DistinctTypes(rtypes: seq<string>) {
    forall i, j :: 0 <= i < j < |rtypes| ==> rtypes[i] != rtypes[j]
  }

  predicate DistinctRows(dests: seq<DeviceRow>) {
    forall i, j :: 0 <= i < j < |dests| ==> dests[i].id != dests[j].id
  }

  lemma {:induction false} DeviceCarriesOut(base: Store, store: Store, source: string, dest: string,
                                            rtypes: seq<string>, i: nat, before: Answers, answers: Answers, t: string)
    requires dest != source && DistinctTypes(rtypes) && t in rtypes
    requires forall u :: ItemsAt(base, source, u) == ItemsAt(store, source, u)
    requires forall u :: ItemsAt(base, dest, u) == ItemsAt(store, dest, u)
    ensures var plan, done := DeviceStep(base, source, dest, rtypes, false, i, before).1,
                              DeviceStep(store, source, dest, rtypes, true, i, answers).1;
            plan.Some? && done.Some? ==>
              t in plan.value && t in done.value && CarriesOut(plan.value[t], done.value[t])
  {
    hide ItemsAt, SyncStep, CarriesOut, HasList;
    var j := |rtypes| - 1;
    var front, last := rtypes[..j], rtypes[j];
    if t == last {
      assert last !in front;
      DeviceOnlyAdds(base, source, dest, front, false, i, before, source, t);
      DeviceOnlyAdds(base, source, dest, front, false, i, before, dest, t);
      DeviceOnlyAdds(store, source, dest, front, true, i, answers, source, t);
      DeviceOnlyAdds(store, source, dest, front, true, i, answers, dest, t);
      SyncCarriesOut(DeviceStep(base, source, dest, front, false, i, before).0,
                     DeviceStep(store, source, dest, front, true, i, answers).0,
                     source, dest, t, answers.creates(i, j), before.creates(i, j));
    } else {
      assert t in front;
      DeviceCarriesOut(base, store, source, dest, front, i, before, answers, t);
    }
  }

  /**
   Confirming a replication does what its dry run announced on every destination: each line attempts
   exactly the objects planned, in order. Both calls read all lists they need and no type is named
   twice; names of destinations may repeat.
   */
  lemma {:induction false} ReplicationCarriesOutPlan(store: Store, source: DeviceRow, dests: seq<DeviceRow>,
                                                     reachable: set<string>, rtypes: seq<string>,
                                                     before: Answers, answers: Answers, k: nat, t: string)
    requires KeyedById(source, dests) && DistinctRows(dests) && DistinctTypes(rtypes) && t in rtypes
    requires k < |Others(dests, source)|
    requires FleetStep(store, source, dests, reachable, rtypes, false, before).1.Some?
    requires FleetStep(store, source, dests, reachable, rtypes, true, answers).1.Some?
    ensures var plan, done := FleetStep(store, source, dests, reachable, rtypes, false, before).1.value,
                              FleetStep(store, source, dests, reachable, rtypes, true, answers).1.value;
            && |plan| == |done| == |Others(dests, source)| && done[k].device == plan[k].device
            && (plan[k].Reached? <==> done[k].Reached?)
            && (plan[k].Reached? ==>
                  t in plan[k].lines && t in done[k].lines && CarriesOut(plan[k].lines[t], done[k].lines[t]))
  {
    hide DeviceStep, ItemsAt, CarriesOut;
    ReportsIff(store, source, dests, reachable, rtypes, false, before);
    ReportsIff(store, source, dests, reachable, rtypes, true, answers);
    var i := |dests| - 1;
    var front := dests[..i];
    ReportsIff(store, source, front, reachable, rtypes, false, before);
    ReportsIff(store, source, front, reachable, rtypes, true, answers);
    if k < |Others(front, source)| {
      ReplicationCarriesOutPlan(store, source, front, reachable, rtypes, before, answers, k, t);
    } else if dests[i].id in reachable {
      var dry := FleetStep(store, source, front, reachable, rtypes, false, before).0;
      var wet := FleetStep(store, source, front, reachable, rtypes, true, answers).0;
      SameListsSoFar(store, source, dests, i, reachable, rtypes, before, answers);
      DeviceCarriesOut(dry, wet, source.id, dests[i].id, rtypes, i, before, answers, t);
    }
  }

  lemma SameListsSoFar(store: Store, source: DeviceRow, dests: seq<DeviceRow>, i: nat, reachable: set<string>,
                       rtypes: seq<string>, before: Answers, answers: Answers)
    requires KeyedById(source, dests) && DistinctRows(dests) && i < |dests|
    ensures var dry := FleetStep(store, source, dests[..i], reachable, rtypes, false, before).0;
            var wet := FleetStep(store, source, dests[..i], reachable, rtypes, true, answers).0;
            forall u ::
              && ItemsAt(dry, source.id, u) == ItemsAt(wet, source.id, u)
              && ItemsAt(dry, dests[i].id, u) == ItemsAt(wet, dests[i].id, u)
  {
    hide FleetStep, ItemsAt;
    var front := dests[..i];
    var dry := FleetStep(store, source, front, reachable, rtypes, false, before).0;
    var wet := FleetStep(store, source, front, reachable, rtypes, true, answers).0;
    forall u
      ensures ItemsAt(dry, source.id, u) == ItemsAt(wet, source.id, u)
      ensures ItemsAt(dry, dests[i].id, u) == ItemsAt(wet, dests[i].id, u)
    {
      ReplicationOnlyAdds(store, source, front, reachable, rtypes, false, before, source.id, u);
      ReplicationOnlyAdds(store, source, front, reachable, rtypes, true, answers, source.id, u);
      ReplicationOnlyAdds(store, source, front, reachable, rtypes, false, before, dests[i].id, u);
      ReplicationOnlyAdds(store, source, front, reachable, rtypes, true, answers, dests[i].id, u);
    }
  }

  /** A type named twice is reported as if nothing had been created: the second round overwrites the line. */
  lemma RepeatedTypeHidesCreates(store: Store, source: string, dest: string, t: string, i: nat, answers: Answers)
    requires dest != source && HasList(t)
    requires forall k, l, n :: answers.creates(k, l)(n).None?
    ensures var lines := DeviceStep(store, source, dest, [t, t], true, i, answers).1;
            lines.Some? ==> t in lines.value && lines.value[t] == Done([])
  {
    hide HasList, NameOf, NamesIn, Missing;
    assert [t, t][..1] == [t];
    if DeviceStep(store, source, dest, [t, t], true, i, answers).1.Some? {
      DeviceConverges(store, source, dest, [t], i, answers, t);
    }
  }
}
