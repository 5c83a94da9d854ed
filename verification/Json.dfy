/**
 JSON values as the services handle them after parsing, Python's equality and truth test on them,
 and the canonical text that drift detection compares.
 Null stands for Python's None. Text is modelled as the sequence of JSON tokens.
 */
module Json {
  import opened Wrappers
  import opened Ordering

  datatype Json =
    | Null
    | Bool(b: bool)
    | Num(n: int)
    | Str(s: string)
    | Arr(items: seq<Json>)
    | Obj(fields: Dict)

  type Dict = map<string, Json>

  /** Python's `bool(j)`. */
  predicate Truthy(j: Json) {
    match j
    case Null => false
    case Bool(b) => b
    case Num(n) => n != 0
    case Str(s) => s != ""
    case Arr(items) => items != []
    case Obj(fields) => fields != map[]
  }

  /** Python's `j or {}`. */
  function OrEmpty(j: Json): Json {
    if Truthy(j) then j else Obj(map[])
  }

  /** Python's `d.get(key)`. */
  function Get(d: Dict, key: string): Json {
    if key in d then d[key] else Null
  }

  /** Replaces True and False by 1 and 0 throughout: Python's `==` cannot tell them apart. */
  function Norm(j: Json): Json {
    match j
    case Bool(b) => Num(if b then 1 else 0)
    case Arr(items) => Arr(seq(|items|, i requires 0 <= i < |items| => Norm(items[i])))
    case Obj(fields) => Obj(map k | k in fields :: Norm(fields[k]))
    case _ => j
  }

  /** Python's `a == b`. */
  predicate PyEq(a: Json, b: Json) {
    Norm(a) == Norm(b)
  }

  /** `j or {}` is the empty dict exactly for the falsy values, and `j` for all others. */
  lemma OrEmptyIs(j: Json)
    ensures OrEmpty(j) == if j in {Null, Bool(false), Num(0), Str(""), Arr([])} then Obj(map[]) else j
  {
  }

  /** Dicts are equal when they have the same keys with equal values. */
  lemma PyEqDicts(a: Dict, b: Dict)
    ensures PyEq(Obj(a), Obj(b)) <==> a.Keys == b.Keys && forall k :: k in a && k in b ==> PyEq(a[k], b[k])
  {
    var na, nb := map k | k in a :: Norm(a[k]), map k | k in b :: Norm(b[k]);
    assert Norm(Obj(a)) == Obj(na) && Norm(Obj(b)) == Obj(nb);
    assert na.Keys == a.Keys && nb.Keys == b.Keys;
    if a.Keys == b.Keys && forall k :: k in a && k in b ==> PyEq(a[k], b[k]) {
      forall k | k in na ensures na[k] == nb[k] { assert PyEq(a[k], b[k]); }
      assert na == nb;
    }
    if PyEq(Obj(a), Obj(b)) {
      forall k | k in a && k in b ensures PyEq(a[k], b[k]) { assert na[k] == nb[k]; }
    }
  }

  /** Lists are equal when they have the same length and equal items. */
  lemma PyEqLists(a: seq<Json>, b: seq<Json>)
    ensures PyEq(Arr(a), Arr(b)) <==> |a| == |b| && forall i :: 0 <= i < |a| && i < |b| ==> PyEq(a[i], b[i])
  {
    var na, nb := Norm(Arr(a)).items, Norm(Arr(b)).items;
    assert |na| == |a| && |nb| == |b|;
    if PyEq(Arr(a), Arr(b)) {
      forall i | 0 <= i < |a| && i < |b| ensures PyEq(a[i], b[i]) { assert na[i] == nb[i]; }
    }
    if |a| == |b| && forall i :: 0 <= i < |a| && i < |b| ==> PyEq(a[i], b[i]) {
      forall i | 0 <= i < |na| ensures na[i] == nb[i] { assert PyEq(a[i], b[i]); }
    }
  }

  /** Scalars are equal by value, a truth value being the number 1 or 0; values of different kinds are not. */
  lemma PyEqScalars(a: Json, b: Json)
    ensures a.Str? && b.Str? ==> (PyEq(a, b) <==> a.s == b.s)
    ensures a.Num? && b.Num? ==> (PyEq(a, b) <==> a.n == b.n)
    ensures a.Bool? && b.Bool? ==> (PyEq(a, b) <==> a.b == b.b)
    ensures a.Bool? && b.Num? ==> (PyEq(a, b) <==> b.n == if a.b then 1 else 0)
    ensures PyEq(a, b) <==> PyEq(b, a)
    ensures PyEq(a, b) ==> (a.Null? <==> b.Null?) && (a.Str? <==> b.Str?)
                           && (a.Arr? <==> b.Arr?) && (a.Obj? <==> b.Obj?)
    ensures a.Null? && b.Null? ==> PyEq(a, b)
  {
  }

  // ---- Canonical text ------------------------------------------------------------------------

  datatype Token =
    | TNull | TBool(b: bool) | TNum(n: int) | TStr(s: string)
    | OpenArr | CloseArr | OpenObj | CloseObj | Comma | Colon

  type Text = seq<Token>

  /** `json.dumps(j, sort_keys=True)`. */
  function Dumps(j: Json): Text
    decreases j, 2
  {
    match j
    case Null => [TNull]
    case Bool(b) => [TBool(b)]
    case Num(n) => [TNum(n)]
    case Str(s) => [TStr(s)]
    case Arr(items) => DumpArr(items)
    case Obj(fields) => DumpObj(j, Sorted(fields.Keys))
  }

  function DumpObj(j: Json, keys: seq<string>): Text
    requires j.Obj? && forall k :: k in keys ==> k in j.fields
    decreases j, 1
  {
    [OpenObj] + (if keys == [] then [CloseObj] else DumpField(j, keys[0]) + DumpFields(j, keys[1..]))
  }

  function DumpArr(items: seq<Json>): Text
    decreases items, 1
  {
    [OpenArr] + (if items == [] then [CloseArr] else Dumps(items[0]) + DumpItems(items[1..]))
  }

  function DumpItems(items: seq<Json>): Text
    decreases items, 0
  {
    if items == [] then [CloseArr] else [Comma] + Dumps(items[0]) + DumpItems(items[1..])
  }

  function DumpField(j: Json, key: string): Text
    requires j.Obj? && key in j.fields
    decreases j.fields[key], 3
  {
    [TStr(key), Colon] + Dumps(j.fields[key])
  }

  function DumpFields(j: Json, keys: seq<string>): Text
    requires j.Obj? && forall k :: k in keys ==> k in j.fields
    decreases j, 0, |keys|
  {
    if keys == [] then [CloseObj] else [Comma] + DumpField(j, keys[0]) + DumpFields(j, keys[1..])
  }

  // ---- Parser: each function returns what it read and the text that is left --------------------

  function ParseValue(t: Text): (r: Option<(Json, Text)>)
    ensures r.Some? ==> |r.value.1| < |t|
    decreases |t|, 0
  {
    if t == [] then None else
      match t[0]
      case TNull => Some((Null, t[1..]))
      case TBool(b) => Some((Bool(b), t[1..]))
      case TNum(n) => Some((Num(n), t[1..]))
      case TStr(s) => Some((Str(s), t[1..]))
      case OpenArr =>
        if |t| > 1 && t[1] == CloseArr then Some((Arr([]), t[2..])) else
          (match ParseValue(t[1..])
           case None => None
           case Some((first, t')) =>
             match ParseItems(t')
             case None => None
             case Some((rest, t'')) => Some((Arr([first] + rest), t'')))
      case OpenObj =>
        if |t| > 1 && t[1] == CloseObj then Some((Obj(map[]), t[2..])) else
          (match ParseField(t[1..])
           case None => None
           case Some((key, value, t')) =>
             match ParseFields(t')
             case None => None
             case Some((rest, t'')) => Some((Obj(map[key := value] + rest), t'')))
      case _ => None
  }

  function ParseItems(t: Text): (r: Option<(seq<Json>, Text)>)
    ensures r.Some? ==> |r.value.1| < |t|
    decreases |t|, 0
  {
    if t == [] then None
    else if t[0] == CloseArr then Some(([], t[1..]))
    else if t[0] != Comma then None
    else
      match ParseValue(t[1..])
      case None => None
      case Some((first, t')) =>
        match ParseItems(t')
        case None => None
        case Some((rest, t'')) => Some(([first] + rest, t''))
  }

  function ParseField(t: Text): (r: Option<(string, Json, Text)>)
    ensures r.Some? ==> |r.value.2| < |t|
    decreases |t|, 0
  {
    if |t| < 2 || !t[0].TStr? || t[1] != Colon then None else
      match ParseValue(t[2..])
      case None => None
      case Some((value, t')) => Some((t[0].s, value, t'))
  }

  function ParseFields(t: Text): (r: Option<(Dict, Text)>)
    ensures r.Some? ==> |r.value.1| < |t|
    decreases |t|, 0
  {
    if t == [] then None
    else if t[0] == CloseObj then Some((map[], t[1..]))
    else if t[0] != Comma then None
    else
      match ParseField(t[1..])
      case None => None
      case Some((key, value, t')) =>
        match ParseFields(t')
        case None => None
        case Some((rest, t'')) => Some((map[key := value] + rest, t''))
  }

  /** `json.loads(t)`; None where Python raises. */
  function Loads(t: Text): Option<Json> {
    match ParseValue(t)
    case None => None
    case Some((j, rest)) => if rest == [] then Some(j) else None
  }

  // ---- Round trip ------------------------------------------------------------------------------

  /** The entries of `d` under `keys`. */
  function Pick(d: Dict, keys: seq<string>): Dict
    requires forall k :: k in keys ==> k in d
  {
    map k | k in keys :: d[k]
  }

  lemma PickCons(d: Dict, keys: seq<string>)
    requires keys != [] && forall k :: k in keys ==> k in d
    ensures map[keys[0] := d[keys[0]]] + Pick(d, keys[1..]) == Pick(d, keys)
  {
    assert keys == [keys[0]] + keys[1..];
  }

  lemma {:induction false} ParseDumps(j: Json, rest: Text)
    ensures ParseValue(Dumps(j) + rest) == Some((j, rest))
    decreases j, 3
  {
    match j
    case Arr(items) => ParseDumpArr(items, rest);
    case Obj(fields) =>
      ParseDumpObj(j, Sorted(fields.Keys), rest);
      assert Pick(fields, Sorted(fields.Keys)) == fields;
    case _ => assert (Dumps(j) + rest)[1..] == rest;
  }

  lemma ParseArrStep(t: Text, first: Json, t': Text, rest: seq<Json>, t'': Text)
    requires |t| > 1 && t[0] == OpenArr && t[1] != CloseArr
    requires ParseValue(t[1..]) == Some((first, t')) && ParseItems(t') == Some((rest, t''))
    ensures ParseValue(t) == Some((Arr([first] + rest), t''))
  {
  }

  lemma {:induction false} ParseDumpArr(items: seq<Json>, rest: Text)
    ensures ParseValue(DumpArr(items) + rest) == Some((Arr(items), rest))
    decreases items, 2
  {
    var t := DumpArr(items) + rest;
    if items == [] {
      assert t[2..] == rest;
    } else {
      var tail := DumpItems(items[1..]) + rest;
      assert t[1..] == Dumps(items[0]) + tail;
      DumpsStart(items[0]);
      ParseDumps(items[0], tail);
      ParseDumpItems(items[1..], rest);
      ParseArrStep(t, items[0], tail, items[1..], rest);
      assert [items[0]] + items[1..] == items;
    }
  }

  lemma ParseObjStep(t: Text, key: string, value: Json, t': Text, rest: Dict, t'': Text)
    requires |t| > 1 && t[0] == OpenObj && t[1] != CloseObj
    requires ParseField(t[1..]) == Some((key, value, t')) && ParseFields(t') == Some((rest, t''))
    ensures ParseValue(t) == Some((Obj(map[key := value] + rest), t''))
  {
  }

  lemma {:induction false} ParseDumpObj(j: Json, keys: seq<string>, rest: Text)
    requires j.Obj? && forall k :: k in keys ==> k in j.fields
    ensures ParseValue(DumpObj(j, keys) + rest) == Some((Obj(Pick(j.fields, keys)), rest))
    decreases j, 1
  {
    var t := DumpObj(j, keys) + rest;
    if keys == [] {
      assert Pick(j.fields, keys) == map[];
      assert t[2..] == rest;
    } else {
      var tail := DumpFields(j, keys[1..]) + rest;
      assert t[1..] == DumpField(j, keys[0]) + tail;
      ParseDumpField(j, keys[0], tail);
      ParseDumpFields(j, keys[1..], rest);
      PickCons(j.fields, keys);
      ParseObjStep(t, keys[0], j.fields[keys[0]], tail, Pick(j.fields, keys[1..]), rest);
    }
  }

  lemma DumpsStart(j: Json)
    ensures Dumps(j) != [] && Dumps(j)[0] != CloseArr
  {
  }

  lemma {:induction false} ParseDumpItems(items: seq<Json>, rest: Text)
    ensures ParseItems(DumpItems(items) + rest) == Some((items, rest))
    decreases items, 1
  {
    var t := DumpItems(items) + rest;
    if items == [] {
      assert t[1..] == rest;
    } else {
      var tail := DumpItems(items[1..]) + rest;
      assert t[1..] == Dumps(items[0]) + tail;
      ParseDumps(items[0], tail);
      ParseDumpItems(items[1..], rest);
      assert [items[0]] + items[1..] == items;
    }
  }

  lemma {:induction false} ParseDumpField(j: Json, key: string, rest: Text)
    requires j.Obj? && key in j.fields
    ensures ParseField(DumpField(j, key) + rest) == Some((key, j.fields[key], rest))
    decreases j.fields[key], 4
  {
    var t := DumpField(j, key) + rest;
    assert t[2..] == Dumps(j.fields[key]) + rest;
    ParseDumps(j.fields[key], rest);
  }

  lemma {:induction false} ParseDumpFields(j: Json, keys: seq<string>, rest: Text)
    requires j.Obj? && forall k :: k in keys ==> k in j.fields
    ensures ParseFields(DumpFields(j, keys) + rest) == Some((Pick(j.fields, keys), rest))
    decreases j, 0, |keys|
  {
    var t := DumpFields(j, keys) + rest;
    if keys == [] {
      assert t[1..] == rest && Pick(j.fields, keys) == map[];
    } else {
      var tail := DumpFields(j, keys[1..]) + rest;
      assert t[1..] == DumpField(j, keys[0]) + tail;
      ParseDumpField(j, keys[0], tail);
      ParseDumpFields(j, keys[1..], rest);
      PickCons(j.fields, keys);
    }
  }

  /** Parsing the canonical text gives the value back. */
  lemma {:induction false} LoadsDumps(j: Json)
    ensures Loads(Dumps(j)) == Some(j)
  {
    ParseDumps(j, []);
    assert Dumps(j) + [] == Dumps(j);
  }

  /** `_canonical`: no text for None, the sorted dump otherwise. */
  function Canonical(j: Json): Option<Text> {
    if j == Null then None else Some(Dumps(j))
  }

  /** `json.loads(text) if text else None`; Null also where Python would raise. */
  function Restore(text: Option<Text>): Json {
    if text.None? || text.value == [] then Null else
      match Loads(text.value)
      case Some(j) => j
      case None => Null
  }

  /** A stored text reads back as the value it was made from. */
  lemma RestoreCanonical(j: Json)
    ensures Restore(Canonical(j)) == j
  {
    LoadsDumps(j);
    DumpsStart(j);
  }

  /** The drift test compares texts; it passes exactly when the two values are the same. */
  lemma CanonicalEqualIff(a: Json, b: Json)
    ensures Canonical(a) == Canonical(b) <==> a == b
  {
    RestoreCanonical(a);
    RestoreCanonical(b);
  }

  /** The drift test is finer than Python's equality: True and 1 are equal, their texts are not. */
  lemma CanonicalFinerThanEquality()
    ensures forall a, b :: Canonical(a) == Canonical(b) ==> PyEq(a, b)
    ensures PyEq(Bool(true), Num(1)) && Canonical(Bool(true)) != Canonical(Num(1))
  {
    forall a, b | Canonical(a) == Canonical(b) ensures PyEq(a, b) { CanonicalEqualIff(a, b); }
  }
}
