/**
 The connection manager: a dictionary of session objects that its calls update in place, with the
 insertion order that iterating over it follows. Each call is proved to be the step of the same name
 on the values in the dictionary.
 */
module ConnectionManager {
  import opened Wrappers
  import opened SessionCache

  /** The keys of a list that are in a set, in list order; and those that are not. */
  function Those(order: seq<Key>, keys: set<Key>): seq<Key> {
    if order == [] then [] else
      var last := order[|order| - 1];
      Those(order[..|order| - 1], keys) + (if last in keys then [last] else [])
  }

  function Except(order: seq<Key>, keys: set<Key>): seq<Key> {
    if order == [] then [] else
      var last := order[|order| - 1];
      Except(order[..|order| - 1], keys) + (if last in keys then [] else [last])
  }

  ghost predicate Lists(order: seq<Key>, keys: set<Key>) {
    (forall k :: k in order <==> k in keys) && forall i, j :: 0 <= i < j < |order| ==> order[i] != order[j]
  }

  lemma {:induction false} ExceptIff(order: seq<Key>, gone: set<Key>)
    ensures forall k :: k in Except(order, gone) <==> k in order && k !in gone
  {
    if order != [] {
      ExceptIff(order[..|order| - 1], gone);
      assert order == order[..|order| - 1] + [order[|order| - 1]];
    }
  }

  lemma {:induction false} ExceptLists(order: seq<Key>, keys: set<Key>, gone: set<Key>)
    requires Lists(order, keys)
    ensures Lists(Except(order, gone), keys - gone)
  {
    ExceptIff(order, gone);
    if order != [] {
      var front, last := order[..|order| - 1], order[|order| - 1];
      assert order == front + [last];
      ExceptIff(front, gone);
      ExceptLists(front, keys - {last}, gone);
      assert forall i :: 0 <= i < |Except(front, gone)| ==> Except(front, gone)[i] in Except(front, gone);
    }
  }

  lemma ListsAdd(order: seq<Key>, keys: set<Key>, key: Key)
    requires Lists(order, keys) && key !in keys
    ensures Lists(order + [key], keys + {key})
  {
    assert forall i :: 0 <= i < |order| ==> order[i] in order;
  }

  lemma {:induction false} ExceptTwice(order: seq<Key>, gone: set<Key>, more: set<Key>)
    ensures Except(Except(order, gone), more) == Except(order, gone + more)
  {
    if order != [] {
      var front, last := order[..|order| - 1], order[|order| - 1];
      ExceptTwice(front, gone, more);
      var kept := Except(front, gone);
      assert (kept + [last])[..|kept|] == kept && kept + [] == kept;
    }
  }

  lemma {:induction false} ExceptNothing(order: seq<Key>)
    ensures Except(order, {}) == order
  {
    if order != [] { ExceptNothing(order[..|order| - 1]); }
  }

  lemma ThoseStep(order: seq<Key>, i: nat, keys: set<Key>)
    requires i < |order|
    ensures Those(order[..i + 1], keys) == Those(order[..i], keys) + (if order[i] in keys then [order[i]] else [])
  {
    assert order[..i + 1][..i] == order[..i];
  }

  class Session {
    const deviceId: string
    const vdom: string
    const adapter: nat
    var lastUsedAt: int

    constructor (deviceId: string, vdom: string, adapter: nat, now: int)
      ensures this.deviceId == deviceId && this.vdom == vdom && this.adapter == adapter && lastUsedAt == now
    {
      this.deviceId, this.vdom, this.adapter, lastUsedAt := deviceId, vdom, adapter, now;
    }

    ghost function Abs(): Entry
      reads this
    {
      Entry(deviceId, vdom, adapter, lastUsedAt)
    }

    method Touch(now: int)
      modifies this
      ensures lastUsedAt == now
    {
      lastUsedAt := now;
    }
  }

  class ConnectionManager {
    var sessions: map<Key, Session>
    var order: seq<Key>
    var built: nat
    ghost var closed: set<nat>
    ghost var handedBack: set<nat>

    ghost function Entries(): map<Key, Entry>
      reads this, sessions.Values
    {
      map k | k in sessions :: sessions[k].Abs()
    }

    ghost function Abs(): Cache
      reads this, sessions.Values
    {
      Cache(Entries(), built, closed, handedBack)
    }

    ghost predicate Valid()
      reads this, sessions.Values
    {
      Conserved(Abs()) && Lists(order, sessions.Keys)
    }

    constructor ()
      ensures Valid() && Abs() == EMPTY
    {
      sessions, order, built, closed, handedBack := map[], [], 0, {}, {};
      new;
      assert Abs() == EMPTY;
    }

    /** Two keys never share a session object: they would share its adapter. */
    lemma SessionsAreDistinct(k: Key, l: Key)
      requires Valid() && k in sessions && l in sessions && sessions[k] == sessions[l]
      ensures k == l
    {
      assert Entries()[k].adapter == Entries()[l].adapter;
    }

    /** `_build_session`: a new adapter, closed again at once when the health probe fails. */
    method BuildSession(device: DeviceRow, vdom: string, now: int, probeOk: bool)
      returns (r: Result<Session, ConnectError>)
      modifies this`built, this`closed
      ensures !device.provisioned ==> r == Err(CredentialNotProvisioned) && built == old(built) && closed == old(closed)
      ensures device.provisioned && !probeOk ==>
                r == Err(ConnectionFailed) && built == old(built) + 1 && closed == old(closed) + {old(built)}
      ensures device.provisioned && probeOk ==>
                && r.Ok? && fresh(r.value) && r.value.Abs() == Entry(device.id, vdom, old(built), now)
                && built == old(built) + 1 && closed == old(closed)
    {
      if !device.provisioned {
        return Err(CredentialNotProvisioned);
      }
      var adapter := built;
      built := built + 1;
      if !probeOk {
        closed := closed + {adapter};
        return Err(ConnectionFailed);
      }
      var session := new Session(device.id, vdom, adapter, now);
      return Ok(session);
    }

    /** A cache hit: the session found is stamped, the others keep their last use. */
    method TouchCached(key: Key, now: int)
      requires Valid() && key in sessions
      modifies sessions[key]
      ensures Entries() == old(Entries())[key := old(Entries())[key].(lastUsed := now)]
    {
      hide Conserved;
      forall k | k in sessions && sessions[k] == sessions[key] ensures k == key { SessionsAreDistinct(k, key); }
      sessions[key].Touch(now);
    }

    /** A first store under a key puts it last in the order. */
    method Insert(key: Key, session: Session)
      requires Lists(order, sessions.Keys) && key !in sessions
      modifies this`sessions, this`order
      ensures sessions == old(sessions)[key := session] && order == old(order) + [key]
      ensures Lists(order, sessions.Keys)
    {
      ListsAdd(order, sessions.Keys, key);
      sessions, order := sessions[key := session], order + [key];
      assert sessions.Keys == old(sessions).Keys + {key};
    }

    /** A cache miss: the session built is stored under its key. */
    method BuildAndStore(device: DeviceRow, key: Key, now: int, probeOk: bool)
      returns (r: Result<Session, ConnectError>)
      requires Lists(order, sessions.Keys) && key !in sessions && key.0 == device.id
      modifies this`sessions, this`order, this`built, this`closed
      ensures Lists(order, sessions.Keys) && order == old(order) + (if r.Ok? then [key] else [])
      ensures !device.provisioned ==> r == Err(CredentialNotProvisioned) && Abs() == old(Abs())
      ensures device.provisioned && !probeOk ==>
                && r == Err(ConnectionFailed)
                && Abs() == old(Abs()).(built := old(built) + 1, closed := old(closed) + {old(built)})
      ensures device.provisioned && probeOk ==>
                && r.Ok? && key in sessions && sessions[key] == r.value
                && r.value.Abs() == SessionCache.Entry(key.0, key.1, old(built), now)
                && Abs() == old(Abs()).(entries := old(Entries())[key := r.value.Abs()], built := old(built) + 1)
    {
      hide Lists;
      ghost var before := Entries();
      r := BuildSession(device, key.1, now, probeOk);
      if r.Ok? {
        Insert(key, r.value);
        assert Entries() == before[key := r.value.Abs()];
      } else {
        assert Entries() == before;
      }
    }

    method GetSession(device: DeviceRow, vdom: Option<string>, now: int, probeOk: bool)
      returns (r: Result<Session, ConnectError>)
      requires Valid()
      modifies this, sessions.Values
      ensures Valid() && Abs() == GetStep(old(Abs()), device, vdom, now, probeOk).0
      ensures match GetStep(old(Abs()), device, vdom, now, probeOk).1
              case Ok(entry) => r.Ok? && r.value in sessions.Values && r.value.Abs() == entry
              case Err(e) => r == Err(e)
      ensures (device.id, EffectiveVdom(device, vdom)) in old(sessions) ==>
                r == Ok(old(sessions)[(device.id, EffectiveVdom(device, vdom))])
      ensures var key := (device.id, EffectiveVdom(device, vdom));
              order == old(order) + (if r.Ok? && key !in old(sessions) then [key] else [])
    {
      hide Conserved, Lists;
      ghost var before := Abs();
      GetKeeps(before, device, vdom, now, probeOk);
      var key := (device.id, EffectiveVdom(device, vdom));
      if key in sessions {
        TouchCached(key, now);
        assert Entries()[key] == sessions[key].Abs();
        return Ok(sessions[key]);
      }
      r := BuildAndStore(device, key, now, probeOk);
    }

    /** `_sessions.pop(key)`. */
    method Pop(key: Key) returns (session: Session)
      requires key in sessions
      modifies this`sessions, this`order
      ensures session == old(sessions)[key]
      ensures sessions == old(sessions) - {key} && order == Except(old(order), {key})
    {
      session := sessions[key];
      sessions, order := sessions - {key}, Except(order, {key});
    }

    lemma SameAdapters()
      ensures Entries().Keys == sessions.Keys
      ensures forall k :: k in sessions ==> Entries()[k].adapter == sessions[k].adapter
    {
    }

    /** The loop of both disconnects: pops the keys one by one, closing the adapter of each session found. */
    method PopAndClose(keys: seq<Key>, ghost entries: map<Key, Entry>)
      requires Lists(order, sessions.Keys) && entries.Keys == sessions.Keys
      requires forall k :: k in sessions ==> entries[k].adapter == sessions[k].adapter
      modifies this`sessions, this`order, this`closed
      ensures sessions == old(sessions) - KeySet(keys) && order == Except(old(order), KeySet(keys))
      ensures closed == old(closed) + AdaptersAt(entries, KeySet(keys))
    {
      hide AdaptersAt, Lists, Except, Taken, KeySet;
      NothingTaken(sessions, order, keys, entries);
      for i := 0 to |keys|
        invariant Taken(old(sessions), old(order), keys[..i], sessions, order)
        invariant closed == old(closed) + AdaptersAt(entries, KeySet(keys[..i]))
      {
        var key := keys[i];
        TakeNext(old(sessions), old(order), keys, i, sessions, order, entries);
        if key in sessions {
          var session := Pop(key);
          closed := closed + {session.adapter};
        }
      }
      AllTaken(old(sessions), old(order), keys, sessions, order);
    }

    /** Taking sessions out of the dictionary leaves the values of the others alone. */
    twostate lemma EntriesWithout(gone: set<Key>)
      requires sessions == old(sessions) - gone
      requires forall k :: k in sessions ==> unchanged(sessions[k])
      ensures Entries() == old(Entries()) - gone
      ensures sessions.Keys == old(sessions).Keys - gone
    {
    }

    method CloseAll(keys: seq<Key>)
      requires Valid()
      modifies this`sessions, this`order, this`closed
      ensures Valid() && Abs() == CloseKeys(old(Abs()), KeySet(keys)) && order == Except(old(order), KeySet(keys))
    {
      ghost var before := Abs();
      RemoveKeeps(before, KeySet(keys), before.closed + AdaptersAt(before.entries, KeySet(keys)), before.handedBack);
      ExceptLists(order, sessions.Keys, KeySet(keys));
      SameAdapters();
      hide Conserved, AdaptersAt, Lists, Except, KeySet, Entries;
      PopAndClose(keys, before.entries);
      EntriesWithout(KeySet(keys));
    }

    method Disconnect(deviceId: string, vdom: Option<string>)
      requires Valid()
      modifies this
      ensures Valid() && Abs() == DisconnectStep(old(Abs()), deviceId, vdom)
      ensures order == Except(old(order), KeysFor(old(Entries()), deviceId, vdom))
    {
      hide Conserved;
      var keys: seq<Key>;
      if vdom.None? {
        keys := Those(order, set k | k in sessions && k.0 == deviceId);
        ThoseIff(order, set k | k in sessions && k.0 == deviceId);
      } else {
        keys := [(deviceId, vdom.value)];
      }
      assert KeySet(keys) == KeysFor(Entries(), deviceId, vdom);
      CloseAll(keys);
    }

    method DisconnectEverything()
      requires Valid()
      modifies this
      ensures Valid() && Abs() == Next(old(Abs()), DisconnectAll) && order == []
    {
      hide Conserved;
      assert KeySet(order) == Entries().Keys;
      CloseAll(order);
      assert sessions.Keys == Entries().Keys;
      NoneListed(order, sessions.Keys);
    }

    /** The loop of `evict_idle`: one pass over the sessions in insertion order, popping the idle ones. */
    method PopIdle(timeout: int, now: int, ghost idle: set<Key>) returns (evicted: seq<Session>)
      requires Lists(order, sessions.Keys)
      requires idle == set k | k in sessions && now - sessions[k].lastUsedAt > timeout
      modifies this`sessions, this`order
      ensures sessions == old(sessions) - idle && order == Except(old(order), idle)
      ensures SessionsOf(old(sessions), Those(old(order), idle), evicted)
    {
      assert forall k :: k in order <==> k in sessions;
      hide Lists, Popped;
      var keys := order;
      evicted := [];
      NothingPopped(sessions, order, idle);
      for i := 0 to |keys|
        invariant Popped(old(sessions), keys, idle, i, sessions, order, evicted)
      {
        PopNext(old(sessions), keys, idle, i, sessions, order, evicted);
        if now - sessions[keys[i]].lastUsedAt > timeout {
          var session := Pop(keys[i]);
          evicted := evicted + [session];
        }
      }
      AllPopped(old(sessions), keys, idle, sessions, order, evicted);
    }

    lemma IdleHere(timeout: int, now: int)
      ensures IdleKeys(Abs(), timeout, now) == set k | k in sessions && now - sessions[k].lastUsedAt > timeout
    {
    }

    /** `evict_idle`: the idle sessions leave the cache unclosed. */
    method EvictIdleSessions(timeout: int, now: int) returns (evicted: seq<Session>)
      requires Valid()
      modifies this`sessions, this`order, this`handedBack
      ensures Valid() && Abs() == EvictStep(old(Abs()), timeout, now)
      ensures order == Except(old(order), IdleKeys(old(Abs()), timeout, now))
         // exactly the idle sessions, each once, in insertion order
      ensures SessionsOf(old(sessions), Those(old(order), IdleKeys(old(Abs()), timeout, now)), evicted)
    {
      ghost var before, idle := Abs(), IdleKeys(Abs(), timeout, now);
      IdleHere(timeout, now);
      RemoveKeeps(before, idle, before.closed, before.handedBack + AdaptersAt(before.entries, idle));
      ExceptLists(order, sessions.Keys, idle);
      hide Conserved, AdaptersAt, Lists, Except, Those, SessionsOf, IdleKeys, Entries;
      evicted := PopIdle(timeout, now, idle);
      handedBack := handedBack + AdaptersAt(before.entries, idle);
      EntriesWithout(idle);
    }
  }

  function KeySet(keys: seq<Key>): set<Key> {
    set k | k in keys
  }

  /** The session objects under the keys, in order. */
  ghost predicate SessionsOf(sessions: map<Key, Session>, keys: seq<Key>, found: seq<Session>) {
    |found| == |keys| && forall i :: 0 <= i < |keys| ==> keys[i] in sessions && found[i] == sessions[keys[i]]
  }

  lemma {:induction false} ThoseIff(order: seq<Key>, keys: set<Key>)
    ensures forall k :: k in Those(order, keys) <==> k in order && k in keys
  {
    if order != [] {
      ThoseIff(order[..|order| - 1], keys);
      assert order == order[..|order| - 1] + [order[|order| - 1]];
    }
  }

  /** A key that is not listed has nothing to be taken out. */
  lemma {:induction false} NotListed(order: seq<Key>, keys: set<Key>, gone: set<Key>, key: Key)
    requires forall k :: k in order ==> k in keys
    requires key !in keys || key in gone
    ensures Except(order, gone + {key}) == Except(order, gone)
  {
    if order != [] { NotListed(order[..|order| - 1], keys, gone, key); }
  }

  lemma NoneListed(order: seq<Key>, keys: set<Key>)
    requires Lists(order, keys)
    ensures keys == {} ==> order == []
  {
    assert order != [] ==> order[0] in keys;
  }

  // ---- The loop of the disconnects -----------------------------------------------------------------------

  /** The keys have been taken out of the dictionary and of its order. */
  ghost predicate Taken(before: map<Key, Session>, order0: seq<Key>, keys: seq<Key>,
                        sessions: map<Key, Session>, order: seq<Key>) {
    sessions == before - KeySet(keys) && order == Except(order0, KeySet(keys))
  }

  lemma NothingTaken(before: map<Key, Session>, order0: seq<Key>, keys: seq<Key>, entries: map<Key, Entry>)
    ensures Taken(before, order0, keys[..0], before, order0) && AdaptersAt(entries, KeySet(keys[..0])) == {}
  {
    ExceptNothing(order0);
    assert KeySet(keys[..0]) == {};
  }

  lemma TakeNext(before: map<Key, Session>, order0: seq<Key>, keys: seq<Key>, i: nat,
                 sessions: map<Key, Session>, order: seq<Key>, entries: map<Key, Entry>)
    requires i < |keys| && Lists(order0, before.Keys) && entries.Keys == before.Keys
    requires forall k :: k in before ==> entries[k].adapter == before[k].adapter
    requires Taken(before, order0, keys[..i], sessions, order)
    ensures var key, done := keys[i], AdaptersAt(entries, KeySet(keys[..i]));
            if key in sessions
            then && sessions[key] == before[key]
                 && Taken(before, order0, keys[..i + 1], sessions - {key}, Except(order, {key}))
                 && AdaptersAt(entries, KeySet(keys[..i + 1])) == done + {before[key].adapter}
            else && Taken(before, order0, keys[..i + 1], sessions, order)
                 && AdaptersAt(entries, KeySet(keys[..i + 1])) == done
  {
    hide Except, AdaptersAt;
    var key, done := keys[i], KeySet(keys[..i]);
    assert keys[..i + 1] == keys[..i] + [key] && KeySet(keys[..i + 1]) == done + {key};
    AdaptersAtAdd(entries, done, key);
    ExceptTwice(order0, done, {key});
    if key in sessions {
      assert sessions - {key} == before - (done + {key});
    } else {
      NotListed(order0, before.Keys, done, key);
      if key in before { AlreadyThere(entries, done, key); }
      assert sessions == before - (done + {key});
    }
  }

  lemma AlreadyThere(entries: map<Key, Entry>, keys: set<Key>, key: Key)
    requires key in keys && key in entries
    ensures entries[key].adapter in AdaptersAt(entries, keys)
  {
  }

  lemma AllTaken(before: map<Key, Session>, order0: seq<Key>, keys: seq<Key>,
                 sessions: map<Key, Session>, order: seq<Key>)
    requires Taken(before, order0, keys[..|keys|], sessions, order)
    ensures sessions == before - KeySet(keys) && order == Except(order0, KeySet(keys)) && keys[..|keys|] == keys
  {
    assert keys[..|keys|] == keys;
  }

  // ---- The loop of the eviction --------------------------------------------------------------------------

  /** The idle ones among the first n keys have been popped, and their sessions collected. */
  ghost predicate Popped(before: map<Key, Session>, keys: seq<Key>, idle: set<Key>, n: nat,
                         sessions: map<Key, Session>, order: seq<Key>, evicted: seq<Session>)
    requires n <= |keys|
  {
    var gone := Those(keys[..n], idle);
    && sessions == before - KeySet(gone) && order == Except(keys, KeySet(gone))
    && SessionsOf(before, gone, evicted)
  }

  lemma NothingPopped(before: map<Key, Session>, keys: seq<Key>, idle: set<Key>)
    ensures Popped(before, keys, idle, 0, before, keys, [])
  {
    ExceptNothing(keys);
    assert Those(keys[..0], idle) == [] && KeySet([]) == {};
  }

  lemma PopNext(before: map<Key, Session>, keys: seq<Key>, idle: set<Key>, n: nat,
                sessions: map<Key, Session>, order: seq<Key>, evicted: seq<Session>)
    requires n < |keys| && Lists(keys, before.Keys) && Popped(before, keys, idle, n, sessions, order, evicted)
    ensures var key := keys[n];
            && key in sessions && sessions[key] == before[key]
            && if key in idle
               then Popped(before, keys, idle, n + 1, sessions - {key}, Except(order, {key}), evicted + [sessions[key]])
               else Popped(before, keys, idle, n + 1, sessions, order, evicted)
  {
    hide Except, Those;
    var key, gone := keys[n], Those(keys[..n], idle);
    ThoseStep(keys, n, idle);
    ThoseIff(keys[..n], idle);
    assert keys[n] in keys && key !in keys[..n];
    if key in idle {
      ExceptTwice(keys, KeySet(gone), {key});
      assert KeySet(gone + [key]) == KeySet(gone) + {key};
      assert sessions - {key} == before - KeySet(gone + [key]);
    } else {
      assert gone + [] == gone;
    }
  }

  lemma AllPopped(before: map<Key, Session>, keys: seq<Key>, idle: set<Key>,
                  sessions: map<Key, Session>, order: seq<Key>, evicted: seq<Session>)
    requires Popped(before, keys, idle, |keys|, sessions, order, evicted)
    requires forall k :: k in idle ==> k in keys
    ensures sessions == before - idle && order == Except(keys, idle) && SessionsOf(before, Those(keys, idle), evicted)
  {
    assert keys[..|keys|] == keys;
    ThoseIff(keys, idle);
    assert KeySet(Those(keys, idle)) == idle;
  }
}
