/**
 The session cache as a state machine over values: which adapters have been built, and where each of
 them is now. Calls are serialised; time and the outcome of a health probe come from outside.
 */
module SessionCache {
  import opened Wrappers

  type Key = (string, string)

  datatype Entry = Entry(device: string, vdom: string, adapter: nat, lastUsed: int)

  /** Adapters are numbered in the order they are built. */
  datatype Cache = Cache(entries: map<Key, Entry>, built: nat, closed: set<nat>, handedBack: set<nat>)

  datatype DeviceRow = DeviceRow(id: string, defaultVdom: string, provisioned: bool)

  datatype ConnectError = CredentialNotProvisioned | ConnectionFailed

  /** `vdom or device.default_vdom`. */
  function EffectiveVdom(device: DeviceRow, vdom: Option<string>): string {
    if vdom.Some? && vdom.value != "" then vdom.value else device.defaultVdom
  }

  /** `get_session`. */
  function GetStep(c: Cache, device: DeviceRow, vdom: Option<string>, now: int, probeOk: bool)
    : (Cache, Result<Entry, ConnectError>)
  {
    var key := (device.id, EffectiveVdom(device, vdom));
    if key in c.entries then
      var entry := c.entries[key].(lastUsed := now);
      (c.(entries := c.entries[key := entry]), Ok(entry))
    else if !device.provisioned then (c, Err(CredentialNotProvisioned))
    else if !probeOk then (c.(built := c.built + 1, closed := c.closed + {c.built}), Err(ConnectionFailed))
    else
      var entry := Entry(key.0, key.1, c.built, now);
      (c.(entries := c.entries[key := entry], built := c.built + 1), Ok(entry))
  }

  function AdaptersAt(entries: map<Key, Entry>, keys: set<Key>): set<nat> {
    set k | k in keys && k in entries :: entries[k].adapter
  }

  lemma AdaptersAtAdd(entries: map<Key, Entry>, keys: set<Key>, key: Key)
    ensures AdaptersAt(entries, keys + {key})
         == AdaptersAt(entries, keys) + (if key in entries then {entries[key].adapter} else {})
  {
  }

  function CloseKeys(c: Cache, keys: set<Key>): Cache {
    c.(entries := c.entries - keys, closed := c.closed + AdaptersAt(c.entries, keys))
  }

  /** The sessions that `disconnect` is about. */
  function KeysFor(entries: map<Key, Entry>, device: string, vdom: Option<string>): set<Key> {
    match vdom
    case None => set k | k in entries && k.0 == device
    case Some(v) => {(device, v)}
  }

  function DisconnectStep(c: Cache, device: string, vdom: Option<string>): Cache {
    CloseKeys(c, KeysFor(c.entries, device, vdom))
  }

  function IdleKeys(c: Cache, timeout: int, now: int): set<Key> {
    set k | k in c.entries && now - c.entries[k].lastUsed > timeout
  }

  /** `evict_idle`: drops the idle sessions and hands them back unclosed. */
  function EvictStep(c: Cache, timeout: int, now: int): Cache {
    var keys := IdleKeys(c, timeout, now);
    c.(entries := c.entries - keys, handedBack := c.handedBack + AdaptersAt(c.entries, keys))
  }

  datatype Step =
    | Connect(device: DeviceRow, vdom: Option<string>, now: int, probeOk: bool)
    | Disconnect(deviceId: string, only: Option<string>)
    | DisconnectAll
    | EvictIdle(timeout: int, at: int)

  function Next(c: Cache, step: Step): Cache {
    match step
    case Connect(device, vdom, now, probeOk) => GetStep(c, device, vdom, now, probeOk).0
    case Disconnect(deviceId, only) => DisconnectStep(c, deviceId, only)
    case DisconnectAll => CloseKeys(c, c.entries.Keys)
    case EvictIdle(timeout, at) => EvictStep(c, timeout, at)
  }

  function Run(c: Cache, steps: seq<Step>): Cache
    decreases |steps|
  {
    if steps == [] then c else Run(Next(c, steps[0]), steps[1..])
  }

  const EMPTY := Cache(map[], 0, {}, {})

  // ---- Conservation of adapters --------------------------------------------------------------------------

  /** The adapter is held open by a cached session. */
  ghost predicate Cached(c: Cache, adapter: nat) {
    exists k :: k in c.entries && c.entries[k].adapter == adapter
  }

  /** Every adapter built is in exactly one place, and every session is cached under its own key. */
  ghost predicate Conserved(c: Cache) {
    && (forall k :: k in c.entries ==> k == (c.entries[k].device, c.entries[k].vdom))
    && (forall k, l :: k in c.entries && l in c.entries && c.entries[k].adapter == c.entries[l].adapter ==> k == l)
    && (forall k :: k in c.entries ==> c.entries[k].adapter < c.built)
    && (forall a :: a in c.closed || a in c.handedBack ==> a < c.built && !Cached(c, a))
    && c.closed !! c.handedBack
    && (forall a: nat :: a < c.built ==> Cached(c, a) || a in c.closed || a in c.handedBack)
  }

  lemma RemoveKeeps(c: Cache, keys: set<Key>, closed: set<nat>, handedBack: set<nat>)
    requires Conserved(c)
    requires var gone := AdaptersAt(c.entries, keys);
             || (closed == c.closed + gone && handedBack == c.handedBack)
             || (closed == c.closed && handedBack == c.handedBack + gone)
    ensures Conserved(Cache(c.entries - keys, c.built, closed, handedBack))
  {
    var c' := Cache(c.entries - keys, c.built, closed, handedBack);
    forall a | Cached(c', a) ensures Cached(c, a) && a !in AdaptersAt(c.entries, keys) {
      var k :| k in c'.entries && c'.entries[k].adapter == a;
      assert k in c.entries && c.entries[k].adapter == a && k !in keys;
    }
    forall a | Cached(c, a) && !Cached(c', a) ensures a in AdaptersAt(c.entries, keys) {
      var k :| k in c.entries && c.entries[k].adapter == a;
      assert k in c'.entries || k in keys;
    }
    forall a | a in AdaptersAt(c.entries, keys) ensures Cached(c, a) && a < c.built {
      var k :| k in keys && k in c.entries && c.entries[k].adapter == a;
    }
  }

  lemma GetKeeps(c: Cache, device: DeviceRow, vdom: Option<string>, now: int, probeOk: bool)
    requires Conserved(c)
    ensures Conserved(GetStep(c, device, vdom, now, probeOk).0)
  {
    var c' := GetStep(c, device, vdom, now, probeOk).0;
    var key := (device.id, EffectiveVdom(device, vdom));
    assert forall k :: k in c.entries ==> k in c'.entries && c'.entries[k].adapter == c.entries[k].adapter;
    forall a | Cached(c, a) ensures Cached(c', a) {
      var k :| k in c.entries && c.entries[k].adapter == a;
      assert k in c'.entries && c'.entries[k].adapter == a;
    }
    forall a | Cached(c', a) && !Cached(c, a) ensures a == c.built && a !in c'.closed {
      var k :| k in c'.entries && c'.entries[k].adapter == a;
      assert k == key;
    }
    if key in c'.entries && key !in c.entries { assert c'.entries[key].adapter == c.built; assert Cached(c', c.built); }
  }

  lemma NextKeeps(c: Cache, step: Step)
    requires Conserved(c)
    ensures Conserved(Next(c, step))
  {
    hide Conserved;
    match step
    case Connect(device, vdom, now, probeOk) => GetKeeps(c, device, vdom, now, probeOk);
    case Disconnect(deviceId, only) =>
      var keys := KeysFor(c.entries, deviceId, only);
      RemoveKeeps(c, keys, c.closed + AdaptersAt(c.entries, keys), c.handedBack);
    case DisconnectAll =>
      RemoveKeeps(c, c.entries.Keys, c.closed + AdaptersAt(c.entries, c.entries.Keys), c.handedBack);
    case EvictIdle(timeout, at) =>
      var keys := IdleKeys(c, timeout, at);
      RemoveKeeps(c, keys, c.closed, c.handedBack + AdaptersAt(c.entries, keys));
  }

  lemma {:induction false} RunKeeps(c: Cache, steps: seq<Step>)
    requires Conserved(c)
    ensures Conserved(Run(c, steps))
    decreases |steps|
  {
    hide Conserved, Next;
    if steps != [] {
      NextKeeps(c, steps[0]);
      RunKeeps(Next(c, steps[0]), steps[1..]);
    }
  }

  /** In every run no adapter is lost, none is closed while in use, and none is in two places. */
  lemma AdaptersAreConserved(steps: seq<Step>)
    ensures Conserved(Run(EMPTY, steps))
  {
    RunKeeps(EMPTY, steps);
  }

  /** What is closed stays closed, and what was handed back is never closed or cached by the manager again. */
  lemma {:induction false} FatesAreFinal(c: Cache, steps: seq<Step>)
    requires Conserved(c)
    ensures c.closed <= Run(c, steps).closed && c.handedBack <= Run(c, steps).handedBack
    ensures c.built <= Run(c, steps).built
    ensures forall a :: a in c.closed || a in c.handedBack ==> !Cached(Run(c, steps), a)
    decreases |steps|
  {
    RunKeeps(c, steps);
    if steps != [] {
      NextKeeps(c, steps[0]);
      FatesAreFinal(Next(c, steps[0]), steps[1..]);
    }
  }

  // ---- What a caller gets ----------------------------------------------------------------------------------

  /** The key of a connect: the vdom asked for, or the device's default when none or an empty one is. */
  predicate IsKeyFor(k: Key, device: DeviceRow, vdom: Option<string>) {
    && k.0 == device.id
    && (vdom.Some? && vdom.value != "" ==> k.1 == vdom.value)
    && (vdom.None? || vdom.value == "" ==> k.1 == device.defaultVdom)
  }

  /** A connect finds, refuses, fails or builds, and touches nothing but the one session and its adapter. */
  lemma ConnectIs(c: Cache, device: DeviceRow, vdom: Option<string>, now: int, probeOk: bool, k: Key)
    requires IsKeyFor(k, device, vdom)
    ensures var (c', r) := GetStep(c, device, vdom, now, probeOk);
            && (k in c.entries ==>
                  && r == Ok(Entry(c.entries[k].device, c.entries[k].vdom, c.entries[k].adapter, now))
                  && c' == c.(entries := c.entries[k := r.value]))
            && (k !in c.entries && !device.provisioned ==> r == Err(CredentialNotProvisioned) && c' == c)
            && (k !in c.entries && device.provisioned && !probeOk ==>
                  && r == Err(ConnectionFailed)
                  && c' == c.(built := c.built + 1, closed := c.closed + {c.built}))
            && (k !in c.entries && device.provisioned && probeOk ==>
                  && r == Ok(Entry(k.0, k.1, c.built, now))
                  && c' == c.(entries := c.entries[k := r.value], built := c.built + 1))
  {
  }

  /** The step is a connect for the key that succeeds. */
  predicate Connects(c: Cache, step: Step, k: Key) {
    step.Connect? && IsKeyFor(k, step.device, step.vdom)
    && (k in c.entries || (step.device.provisioned && step.probeOk))
  }

  /** The time of the last successful connect for the key. */
  function LastConnect(c: Cache, steps: seq<Step>, k: Key, before: Option<int>): Option<int>
    decreases |steps|
  {
    if steps == [] then before
    else LastConnect(Next(c, steps[0]), steps[1..], k, if Connects(c, steps[0], k) then Some(steps[0].now) else before)
  }

  /** In every run each cached session is stamped with the time of the last connect that gave it out. */
  lemma {:induction false} LastUsedIsLastConnect(c: Cache, steps: seq<Step>, k: Key, before: Option<int>)
    requires k in c.entries ==> before == Some(c.entries[k].lastUsed)
    ensures var c' := Run(c, steps);
            k in c'.entries ==> LastConnect(c, steps, k, before) == Some(c'.entries[k].lastUsed)
    decreases |steps|
  {
    if steps != [] {
      var step := steps[0];
      if step.Connect? { ConnectStamps(c, step, k); }
      LastUsedIsLastConnect(Next(c, step), steps[1..], k, if Connects(c, step, k) then Some(step.now) else before);
    }
  }

  lemma ConnectStamps(c: Cache, step: Step, k: Key)
    requires step.Connect?
    ensures var c' := Next(c, step);
            if Connects(c, step, k) then k in c'.entries && c'.entries[k].lastUsed == step.now
            else (k in c'.entries <==> k in c.entries) && (k in c.entries ==> c'.entries[k] == c.entries[k])
  {
    var key := (step.device.id, EffectiveVdom(step.device, step.vdom));
    ConnectIs(c, step.device, step.vdom, step.now, step.probeOk, key);
    assert IsKeyFor(k, step.device, step.vdom) <==> k == key;
  }

  /** A session handed out is open: cached under its key, its adapter neither closed nor given back. */
  lemma ConnectGivesOpenSession(c: Cache, device: DeviceRow, vdom: Option<string>, now: int, probeOk: bool)
    requires Conserved(c) && GetStep(c, device, vdom, now, probeOk).1.Ok?
    ensures var (c', r) := GetStep(c, device, vdom, now, probeOk);
            && (device.id, EffectiveVdom(device, vdom)) in c'.entries
            && c'.entries[(device.id, EffectiveVdom(device, vdom))] == r.value
            && r.value.adapter !in c'.closed && r.value.adapter !in c'.handedBack
  {
    GetKeeps(c, device, vdom, now, probeOk);
    var (c', r) := GetStep(c, device, vdom, now, probeOk);
    assert Cached(c', r.value.adapter);
  }

  /** Connecting again builds nothing: same adapter, whatever the probe would now say. */
  lemma ReconnectReuses(c: Cache, device: DeviceRow, vdom: Option<string>, now: int, ok: bool, later: int, ok': bool)
    requires GetStep(c, device, vdom, now, ok).1.Ok?
    ensures var (c1, r1) := GetStep(c, device, vdom, now, ok);
            var (c2, r2) := GetStep(c1, device, vdom, later, ok');
            r2.Ok? && r2.value.adapter == r1.value.adapter && c2.built == c1.built && c2.closed == c1.closed
            && c2.entries.Keys == c1.entries.Keys
  {
  }

  /**
   Disconnecting with the arguments of a successful connect removes that session, except for an
   explicitly empty vdom: connect reads it as the default, disconnect takes it literally.
   */
  lemma DisconnectUndoesConnectIff(c: Cache, device: DeviceRow, vdom: Option<string>, now: int, ok: bool)
    requires GetStep(c, device, vdom, now, ok).1.Ok?
    ensures var c1 := GetStep(c, device, vdom, now, ok).0;
            (device.id, EffectiveVdom(device, vdom)) !in DisconnectStep(c1, device.id, vdom).entries
            <==> vdom != Some("") || device.defaultVdom == ""
  {
  }

  /**
   Disconnecting closes exactly the adapters of the device's sessions, or of its one session in the
   vdom given, and leaves every other session alone.
   */
  lemma DisconnectIsLocal(c: Cache, device: string, vdom: Option<string>)
    requires Conserved(c)
    ensures var c' := DisconnectStep(c, device, vdom);
            && (forall k :: k in c'.entries
                            <==> k in c.entries && !(k.0 == device && (vdom.None? || vdom == Some(k.1))))
            && (forall k :: k in c'.entries ==> c'.entries[k] == c.entries[k])
            && (forall a :: a in c'.closed && a !in c.closed
                            <==> exists k :: k in c.entries && k.0 == device && (vdom.None? || vdom == Some(k.1))
                                             && c.entries[k].adapter == a)
            && c'.handedBack == c.handedBack && c'.built == c.built
  {
    forall k | k in c.entries ensures c.entries[k].adapter !in c.closed { assert Cached(c, c.entries[k].adapter); }
  }

  /** After disconnecting everything, every adapter ever built is closed, except those handed back. */
  lemma DisconnectAllClosesEverything(c: Cache)
    requires Conserved(c)
    ensures var c' := Next(c, DisconnectAll);
            c'.entries == map[] && forall a: nat :: a < c'.built ==> (a in c'.closed <==> a !in c.handedBack)
  {
    NextKeeps(c, DisconnectAll);
    var c' := Next(c, DisconnectAll);
    assert forall a :: !Cached(c', a);
  }

  /** A session survives eviction exactly when it was used within the timeout. */
  lemma EvictionIff(c: Cache, timeout: int, now: int, k: Key)
    requires Conserved(c) && k in c.entries
    ensures k in EvictStep(c, timeout, now).entries <==> now - c.entries[k].lastUsed <= timeout
    ensures c.entries[k].adapter in EvictStep(c, timeout, now).handedBack <==> now - c.entries[k].lastUsed > timeout
    ensures EvictStep(c, timeout, now).closed == c.closed
  {
    assert Cached(c, c.entries[k].adapter);
  }
}
