/**
 Generic read and write of one resource by type: which operations each type supports, how a GET
 response is unwrapped, and what a write does to the device.

 The device is a map from slots to the object stored there. Which response a request gets, and
 whether it fails, is decided by the environment and passed in.
 */
module ChangeDispatch {
  import opened Wrappers
  import opened Json
  import opened ModePolicy

  // ---- The operation table -----------------------------------------------------------------------

  const CRUD_TYPES := {
    "firewall_policy", "static_route", "virtual_ip", "ipsec_phase1", "ipsec_phase2",
    "snmp_community", "admin", "interface", "zone", "dhcp_server"
  }
  const NO_GETTER_TYPES := {"address_object", "service_object"}
  const SINGLETON_TYPES := {"dns", "ntp", "syslog", "snmp_sysinfo", "system_global", "ha"}
  const GLOBAL_TYPES := {"vdom", "vdom_link"}

  predicate Known(rtype: string) {
    rtype in CRUD_TYPES || rtype in NO_GETTER_TYPES || rtype in SINGLETON_TYPES || rtype in GLOBAL_TYPES
  }

  predicate HasGetter(rtype: string) {
    rtype in CRUD_TYPES || rtype in SINGLETON_TYPES || rtype == "vdom_link"
  }

  predicate Supports(rtype: string, op: OperationType) {
    match op
    case Update => rtype in CRUD_TYPES || rtype in NO_GETTER_TYPES || rtype in SINGLETON_TYPES
    case _ => rtype in CRUD_TYPES || rtype in NO_GETTER_TYPES || rtype in GLOBAL_TYPES
  }

  const CRUD_VERBS := {"list", "create", "update", "delete"}

  /** `_RESOURCE_OPS` as the source has it: the verbs each resource type maps to an adapter method. */
  const RESOURCE_OPS: map<string, set<string>> := map[
    "firewall_policy" := CRUD_VERBS + {"get"}, "address_object" := CRUD_VERBS, "service_object" := CRUD_VERBS,
    "static_route" := CRUD_VERBS + {"get"}, "virtual_ip" := CRUD_VERBS + {"get"},
    "ipsec_phase1" := CRUD_VERBS + {"get"}, "ipsec_phase2" := CRUD_VERBS + {"get"},
    "dns" := {"get", "update"}, "ntp" := {"get", "update"}, "syslog" := {"get", "update"},
    "snmp_sysinfo" := {"get", "update"}, "system_global" := {"get", "update"}, "ha" := {"get", "update"},
    "snmp_community" := CRUD_VERBS + {"get"}, "admin" := CRUD_VERBS + {"get"},
    "vdom" := {"create", "delete"}, "vdom_link" := {"list", "get", "create", "delete"},
    "interface" := CRUD_VERBS + {"get"}, "zone" := CRUD_VERBS + {"get"}, "dhcp_server" := CRUD_VERBS + {"get"}
  ]

  function Verb(op: OperationType): string {
    match op
    case Create => "create"
    case Update => "update"
    case Delete => "delete"
  }

  /** The type sets say what the table says. */
  lemma TableIff(rtype: string)
    ensures Known(rtype) <==> rtype in RESOURCE_OPS
    ensures HasGetter(rtype) <==> rtype in RESOURCE_OPS && "get" in RESOURCE_OPS[rtype]
    ensures forall op :: Supports(rtype, op) <==> rtype in RESOURCE_OPS && Verb(op) in RESOURCE_OPS[rtype]
    ensures rtype in SINGLETON_TYPES <==> rtype in RESOURCE_OPS && RESOURCE_OPS[rtype] == {"get", "update"}
    ensures rtype in GLOBAL_TYPES <==> rtype in RESOURCE_OPS && "update" !in RESOURCE_OPS[rtype]
  {
    assert "list" in CRUD_VERBS && "get" !in CRUD_VERBS;
  }

  // ---- Responses ---------------------------------------------------------------------------------

  /** `unwrap_single`. */
  function UnwrapSingle(response: Json): Json {
    if response.Obj? && "results" in response.fields then
      var results := response.fields["results"];
      if results.Arr? then (if results.items != [] then results.items[0] else Null) else results
    else
      response
  }

  /** The first item of a list of results, a single result, or the response itself when it has none. */
  lemma UnwrapIs(fields: Dict, first: Json, rest: seq<Json>)
    ensures UnwrapSingle(Obj(fields["results" := Arr([first] + rest)])) == first
    ensures UnwrapSingle(Obj(fields["results" := Arr([])])) == Null
    ensures !first.Arr? ==> UnwrapSingle(Obj(fields["results" := first])) == first
    ensures "results" !in fields ==> UnwrapSingle(Obj(fields)) == Obj(fields)
    ensures !first.Obj? ==> UnwrapSingle(first) == first
  {
  }

  /** The three shapes in which a GET returns an object. */
  datatype Envelope = Bare | InResults | InList

  function Wrap(shape: Envelope, fields: Dict): Json {
    match shape
    case Bare => Obj(fields)
    case InResults => Obj(map["results" := Obj(fields)])
    case InList => Obj(map["results" := Arr([Obj(fields)])])
  }

  /** Unwrapping recovers the object, except a bare one that itself has a key called "results". */
  lemma UnwrapRecoversIff(shape: Envelope, fields: Dict)
    ensures UnwrapSingle(Wrap(shape, fields)) == Obj(fields) <==> !(shape.Bare? && "results" in fields)
  {
    if shape.Bare? && "results" in fields {
      var results := fields["results"];
      assert results < Obj(fields);
      if results.Arr? && results.items != [] {
        assert results.items[0] < results;
      }
    }
  }

  function Digit(d: nat): char
    requires d < 10
  {
    "0123456789"[d]
  }

  function Decimal(n: nat): string {
    if n < 10 then [Digit(n)] else Decimal(n / 10) + [Digit(n % 10)]
  }

  /** The number a decimal text stands for. */
  function Value(digits: string): int {
    if digits == [] then 0 else Value(digits[..|digits| - 1]) * 10 + (digits[|digits| - 1] as int - '0' as int)
  }

  lemma DigitValue(d: nat)
    requires d < 10
    ensures Digit(d) as int - '0' as int == d
  {
  }

  /** Distinct numeric keys have distinct texts: the text reads back as the number. */
  lemma {:induction false} DecimalRoundTrip(n: nat)
    ensures Value(Decimal(n)) == n
  {
    DigitValue(n % 10);
    if n >= 10 {
      DecimalRoundTrip(n / 10);
      assert Decimal(n)[..|Decimal(n)| - 1] == Decimal(n / 10);
    }
  }

  /** Python's `str(j)` for the scalars a create response can carry as its key. */
  function PyStr(j: Json): string {
    match j
    case Null => "None"
    case Bool(b) => if b then "True" else "False"
    case Num(n) => if n < 0 then "-" + Decimal(-n) else Decimal(n)
    case Str(s) => s
    case Arr(_) => "[...]"
    case Obj(_) => "{...}"
  }

  /** `extract_created_resource_id`. */
  function ExtractCreatedId(response: Json): Option<string> {
    if response.Obj? && Get(response.fields, "mkey") != Null
    then Some(PyStr(response.fields["mkey"]))
    else None
  }

  /** The text of a number is its digits, without leading zeros. */
  lemma {:induction false} DecimalIsCanonical(n: nat)
    ensures forall i :: 0 <= i < |Decimal(n)| ==> '0' <= Decimal(n)[i] <= '9'
    ensures Decimal(n)[0] == '0' <==> n == 0
  {
    assert forall d: nat :: d < 10 ==> '0' <= Digit(d) <= '9' && (Digit(d) == '0' <==> d == 0);
    if n >= 10 { DecimalIsCanonical(n / 10); }
  }

  /** A create response names the object by its mkey: a text as it is, a number in digits; without one, not at all. */
  lemma CreatedIdIs(fields: Dict, s: string, n: nat)
    ensures ExtractCreatedId(Obj(fields["mkey" := Str(s)])) == Some(s)
    ensures ExtractCreatedId(Obj(fields["mkey" := Num(n)])) == Some(Decimal(n)) && Value(Decimal(n)) == n
    ensures n > 0 ==> ExtractCreatedId(Obj(fields["mkey" := Num(0 - n)])) == Some("-" + Decimal(n))
    ensures ExtractCreatedId(Obj(fields["mkey" := Bool(true)])) == Some("True")
    ensures ExtractCreatedId(Obj(fields["mkey" := Bool(false)])) == Some("False")
    ensures ExtractCreatedId(Obj(fields["mkey" := Null])) == None
    ensures "mkey" !in fields ==> ExtractCreatedId(Obj(fields)) == None
    ensures forall j: Json :: !j.Obj? ==> ExtractCreatedId(j) == None
  {
    DecimalRoundTrip(n);
  }

  // ---- The device --------------------------------------------------------------------------------

  /** Where an object lives: a VDOM or a VDOM link is in no VDOM, a singleton has no id. */
  datatype Slot = Slot(device: string, vdom: Option<string>, rtype: string, id: Option<string>)

  type Device = map<Slot, Dict>

  /** What PUT does with the keys the request leaves out. */
  datatype PutSemantics = Replace | Merge

  /** The resource a call addresses. */
  datatype Address = Address(device: string, vdom: string, rtype: string)

  /** The adapter ignores the vdom it is given for the global types. */
  function SlotAt(at: Address, id: Option<string>): Slot {
    Slot(at.device, if at.rtype in GLOBAL_TYPES then None else Some(at.vdom), at.rtype,
         if at.rtype in SINGLETON_TYPES then None else id)
  }

  /** The object in a slot as Python sees it: a dict, or None. */
  function Live(device: Device, slot: Slot): Json {
    if slot in device then Obj(device[slot]) else Null
  }

  datatype ReadReply = ReadFails | Returns(response: Json)

  datatype WriteReply = WriteFails | Accepts(response: Json, assignedId: string)

  datatype DispatchError = UnknownType | UnsupportedOperation | WriteFailed

  /** `fetch_current`: best effort, None whenever nothing could be read. */
  function FetchCurrent(rtype: string, id: Option<string>, reply: ReadReply): Result<Json, DispatchError> {
    if !Known(rtype) then Err(UnknownType)
    else if !HasGetter(rtype) then Ok(Null)
    else if rtype !in SINGLETON_TYPES && id.None? then Ok(Null)
    else
      match reply
      case ReadFails => Ok(Null)
      case Returns(response) => Ok(UnwrapSingle(response))
  }

  /** `fetch_current` sends a GET: the type has a getter and there is something to address. */
  predicate Reads(rtype: string, id: Option<string>) {
    HasGetter(rtype) && (rtype in SINGLETON_TYPES || id.Some?)
  }

  /** True where `fetch_current` reads the device and the answer is what the slot holds. */
  predicate Captures(at: Address, id: Option<string>, reply: ReadReply, device: Device) {
    && Reads(at.rtype, id)
    && reply.Returns?
    && UnwrapSingle(reply.response) == Live(device, SlotAt(at, id))
  }

  /**
   A GET answered with the object in the slot, in any envelope, is captured, except for a bare
   object that itself has a key called "results".
   */
  lemma FaithfulReadCapturesIff(at: Address, id: Option<string>, shape: Envelope, device: Device)
    requires Reads(at.rtype, id)
    requires SlotAt(at, id) in device
    ensures Captures(at, id, Returns(Wrap(shape, device[SlotAt(at, id)])), device)
            <==> !(shape.Bare? && "results" in device[SlotAt(at, id)])
  {
    UnwrapRecoversIff(shape, device[SlotAt(at, id)]);
  }

  function Stored(put: PutSemantics, live: Dict, body: Dict): Dict {
    match put
    case Replace => body
    case Merge => live + body
  }

  /**
   A write that the device accepts. A missing body is sent as an empty one; the device refuses to
   create over an existing object and to change or delete a missing one.
   */
  function Write(device: Device, put: PutSemantics, at: Address, op: OperationType, id: Option<string>,
                 data: Json, assignedId: string): Option<Device>
  {
    var body := OrEmpty(data);
    var slot := SlotAt(at, if op == Create then Some(assignedId) else id);
    if (op != Delete && !body.Obj?) || (op == Create) == (slot in device) then None else
      match op
      case Create => Some(device[slot := body.fields])
      case Update => Some(device[slot := Stored(put, device[slot], body.fields)])
      case Delete => Some(device - {slot})
  }

  /** `execute`: the device afterwards and the response, or the exception raised. */
  function Execute(device: Device, put: PutSemantics, at: Address, op: OperationType, id: Option<string>,
                   data: Json, reply: WriteReply): Result<(Device, Json), DispatchError>
  {
    if !Known(at.rtype) then Err(UnknownType)
    else if !Supports(at.rtype, op) then Err(UnsupportedOperation)
    else
      match reply
      case WriteFails => Err(WriteFailed)
      case Accepts(response, assignedId) =>
        match Write(device, put, at, op, id, data, assignedId)
        case None => Err(WriteFailed)
        case Some(device') => Ok((device', response))
  }

  /** A write changes no slot but the one it addresses. */
  lemma WriteFrame(device: Device, put: PutSemantics, at: Address, op: OperationType, id: Option<string>,
                   data: Json, assignedId: string, other: Slot)
    requires Write(device, put, at, op, id, data, assignedId).Some?
    requires other != SlotAt(at, if op == Create then Some(assignedId) else id)
    ensures Live(Write(device, put, at, op, id, data, assignedId).value, other) == Live(device, other)
  {
  }

  /** The adapter through which a service reaches the devices. */
  class Adapter {
    var device: Device
    const put: PutSemantics

    constructor (put: PutSemantics, device: Device)
      ensures this.put == put && this.device == device
    {
      this.put := put;
      this.device := device;
    }

    method ExecuteOn(at: Address, op: OperationType, id: Option<string>, data: Json, reply: WriteReply)
      returns (r: Result<Json, DispatchError>)
      modifies this
      ensures match Execute(old(device), put, at, op, id, data, reply)
              case Err(e) => device == old(device) && r == Err(e)
              case Ok((device', response)) => device == device' && r == Ok(response)
    {
      if !Known(at.rtype) {
        return Err(UnknownType);
      }
      if !Supports(at.rtype, op) {
        return Err(UnsupportedOperation);
      }
      var body := OrEmpty(data);
      if reply.WriteFails? || (op != Delete && !body.Obj?) {
        return Err(WriteFailed);
      }
      var slot := SlotAt(at, if op == Create then Some(reply.assignedId) else id);
      if (op == Create) == (slot in device) {
        return Err(WriteFailed);
      }
      match op {
        case Create => device := device[slot := body.fields];
        case Update => device := device[slot := Stored(put, device[slot], body.fields)];
        case Delete => device := device - {slot};
      }
      return Ok(reply.response);
    }
  }
}
