/** Overlapping address objects: interval classification, and the nesting of CIDR blocks. */
module Overlap {
  import opened Wrappers
  import opened Selection

  type Ip = n: int | 0 <= n < 0x1_0000_0000

  type PrefixLength = n: int | 0 <= n <= 32

  datatype Subnet = Subnet(address: Ip, prefix: PrefixLength)

  /** An address object after its text has been parsed; None where a part is missing or malformed. */
  datatype AddressObject =
    | IpMask(name: Option<string>, subnet: Option<Subnet>)
    | IpRange(name: Option<string>, start: Option<Ip>, end: Option<Ip>)
    | OtherType(name: Option<string>)

  datatype Range = Range(lo: int, hi: int)

  function Pow2(n: nat): nat {
    if n == 0 then 1 else 2 * Pow2(n - 1)
  }

  function BlockSize(prefix: PrefixLength): (size: int)
    ensures size > 0
  {
    Pow2Positive(32 - prefix);
    Pow2(32 - prefix)
  }

  lemma Pow2Positive(n: nat)
    ensures Pow2(n) > 0
  {
  }

  /** Network to broadcast address: host bits cleared, host bits set. */
  function BlockOf(s: Subnet): Range {
    var size := BlockSize(s.prefix);
    var network := s.address - s.address % size;
    Range(network, network + size - 1)
  }

  /** `_to_range`. */
  function ToRange(obj: AddressObject): Option<Range> {
    match obj
    case IpMask(_, Some(subnet)) => Some(BlockOf(subnet))
    case IpRange(_, Some(start), Some(end)) => Some(Range(start, end))
    case _ => None
  }

  datatype Relationship = Equal | AContainsB | BContainsA | Overlapping

  function Classify(a: Range, b: Range): Option<Relationship> {
    if a.lo > b.hi || b.lo > a.hi then None
    else if a.lo == b.lo && a.hi == b.hi then Some(Equal)
    else if a.lo <= b.lo && a.hi >= b.hi then Some(AContainsB)
    else if b.lo <= a.lo && b.hi >= a.hi then Some(BContainsA)
    else Some(Overlapping)
  }

  /** The object has a name and a range, so it takes part in the comparison. */
  predicate Compared(obj: AddressObject) {
    obj.name.Some? && obj.name.value != "" && ToRange(obj).Some?
  }

  function Item(obj: AddressObject): (string, Range)
    requires Compared(obj)
  {
    (obj.name.value, ToRange(obj).value)
  }

  type Parsed = seq<(string, Range)>

  function ParsedOf(objects: seq<AddressObject>): Parsed {
    if objects == [] then [] else
      var last := objects[|objects| - 1];
      ParsedOf(objects[..|objects| - 1])
      + (if Compared(last) then [Item(last)] else [])
  }

  /** The indices of the objects that take part, in order. */
  function ComparedAt(objects: seq<AddressObject>): seq<nat> {
    if objects == [] then [] else
      var n := |objects| - 1;
      ComparedAt(objects[..n]) + (if Compared(objects[n]) then [n] else [])
  }

  lemma {:induction false} ComparedAtIff(objects: seq<AddressObject>)
    ensures forall i: nat :: i in ComparedAt(objects) <==> i < |objects| && Compared(objects[i])
    ensures forall k, l :: 0 <= k < l < |ComparedAt(objects)| ==> ComparedAt(objects)[k] < ComparedAt(objects)[l]
  {
    hide Compared;
    if objects != [] {
      var front := ComparedAt(objects[..|objects| - 1]);
      ComparedAtIff(objects[..|objects| - 1]);
      assert forall k :: 0 <= k < |front| ==> front[k] in front;
    }
  }

  /** The k-th item comes from the object at the k-th place. */
  ghost predicate ItemsAt(objects: seq<AddressObject>, at: seq<nat>, parsed: Parsed) {
    |parsed| == |at| && forall k :: 0 <= k < |at| ==> IsItemOf(objects, at[k], parsed[k])
  }

  ghost predicate IsItemOf(objects: seq<AddressObject>, i: nat, item: (string, Range)) {
    i < |objects| && Compared(objects[i]) && item == Item(objects[i])
  }

  /** Each object that takes part is parsed once, in list order, under its own name and range; no other is. */
  lemma {:induction false} ParsedIff(objects: seq<AddressObject>)
    ensures ItemsAt(objects, ComparedAt(objects), ParsedOf(objects))
    ensures forall i: nat :: i in ComparedAt(objects) <==> i < |objects| && Compared(objects[i])
    ensures forall k, l :: 0 <= k < l < |ComparedAt(objects)| ==> ComparedAt(objects)[k] < ComparedAt(objects)[l]
  {
    hide Compared;
    ComparedAtIff(objects);
    if objects != [] {
      var n := |objects| - 1;
      ParsedIff(objects[..n]);
      var front, at := ComparedAt(objects[..n]), ComparedAt(objects);
      forall k | 0 <= k < |at| ensures IsItemOf(objects, at[k], ParsedOf(objects)[k]) {
        if k < |front| { assert IsItemOf(objects[..n], front[k], ParsedOf(objects[..n])[k]); }
      }
    }
  }

  // ---- The pairs reported ----------------------------------------------------------------------------

  type Pair = (nat, nat)

  /** The reported pairs (i, k) with i < k < j, in order. */
  function RowUpTo(parsed: Parsed, i: nat, j: nat): seq<Pair>
    requires i < |parsed| && j <= |parsed|
  {
    if j <= i + 1 then []
    else RowUpTo(parsed, i, j - 1) + (if Classify(parsed[i].1, parsed[j - 1].1).Some? then [(i, j - 1)] else [])
  }

  /** The reported pairs whose first member is below i, in order. */
  function PairsUpTo(parsed: Parsed, i: nat): seq<Pair>
    requires i <= |parsed|
  {
    if i == 0 then [] else PairsUpTo(parsed, i - 1) + RowUpTo(parsed, i - 1, |parsed|)
  }

  datatype Finding = Finding(a: string, b: string, relationship: Relationship)

  predicate ValidPair(parsed: Parsed, p: Pair) {
    p.0 < p.1 < |parsed| && Classify(parsed[p.0].1, parsed[p.1].1).Some?
  }

  function FindingFor(parsed: Parsed, p: Pair): Finding
    requires ValidPair(parsed, p)
  {
    Finding(parsed[p.0].0, parsed[p.1].0, Classify(parsed[p.0].1, parsed[p.1].1).value)
  }

  function FindingsFor(parsed: Parsed, pairs: seq<Pair>): seq<Finding>
    requires forall p :: p in pairs ==> ValidPair(parsed, p)
  {
    seq(|pairs|, k requires 0 <= k < |pairs| => FindingFor(parsed, pairs[k]))
  }

  lemma {:induction false} RowIff(parsed: Parsed, i: nat, j: nat)
    requires i < |parsed| && j <= |parsed|
    ensures forall p: Pair :: p in RowUpTo(parsed, i, j) <==> p.0 == i && p.1 < j && ValidPair(parsed, p)
  {
    if j > i + 1 { RowIff(parsed, i, j - 1); }
  }

  /** A pair is among the reported ones exactly when its ranges are not kept apart. */
  lemma {:induction false} PairsIff(parsed: Parsed, i: nat)
    requires i <= |parsed|
    ensures forall p: Pair :: p in PairsUpTo(parsed, i) <==> p.0 < i && ValidPair(parsed, p)
  {
    if i > 0 {
      PairsIff(parsed, i - 1);
      RowIff(parsed, i - 1, |parsed|);
    }
  }

  predicate Before(p: Pair, q: Pair) {
    p.0 < q.0 || (p.0 == q.0 && p.1 < q.1)
  }

  predicate InOrder(pairs: seq<Pair>) {
    forall k, l :: 0 <= k < l < |pairs| ==> Before(pairs[k], pairs[l])
  }

  lemma {:induction false} RowInOrder(parsed: Parsed, i: nat, j: nat)
    requires i < |parsed| && j <= |parsed|
    ensures InOrder(RowUpTo(parsed, i, j))
  {
    hide Classify;
    if j > i + 1 {
      RowInOrder(parsed, i, j - 1);
      RowIff(parsed, i, j - 1);
      var row := RowUpTo(parsed, i, j - 1);
      forall k | 0 <= k < |row| ensures Before(row[k], (i, j - 1)) { assert row[k] in row; }
    }
  }

  /** The pairs come in strictly increasing order, so none comes twice. */
  lemma {:induction false} PairsInOrder(parsed: Parsed, i: nat)
    requires i <= |parsed|
    ensures InOrder(PairsUpTo(parsed, i))
  {
    hide RowUpTo, ValidPair;
    if i > 0 {
      PairsInOrder(parsed, i - 1);
      PairsIff(parsed, i - 1);
      RowInOrder(parsed, i - 1, |parsed|);
      RowIff(parsed, i - 1, |parsed|);
      var front, row := PairsUpTo(parsed, i - 1), RowUpTo(parsed, i - 1, |parsed|);
      forall k, l | 0 <= k < |front| && 0 <= l < |row| ensures Before(front[k], row[l]) {
        assert front[k] in front && row[l] in row;
      }
    }
  }

  lemma FindingsForAppend(parsed: Parsed, pairs: seq<Pair>, p: Pair)
    requires forall q :: q in pairs + [p] ==> ValidPair(parsed, q)
    ensures (forall q :: q in pairs ==> ValidPair(parsed, q)) && ValidPair(parsed, p)
    ensures FindingsFor(parsed, pairs + [p]) == FindingsFor(parsed, pairs) + [FindingFor(parsed, p)]
  {
    assert forall q :: q in pairs ==> q in pairs + [p];
    assert p in pairs + [p];
  }

  /** What `find_overlapping_subnets` returns. */
  function ReportOf(objects: seq<AddressObject>): seq<Finding> {
    var parsed := ParsedOf(objects);
    PairsIff(parsed, |parsed|);
    FindingsFor(parsed, PairsUpTo(parsed, |parsed|))
  }

  /** `find_overlapping_subnets`: one finding for each reported pair, in order. */
  method FindOverlappingSubnets(objects: seq<AddressObject>) returns (findings: seq<Finding>)
    ensures findings == ReportOf(objects)
  {
    var parsed := ParseAll(objects);
    findings := FindPairs(parsed);
  }

  /** The first loop: names and ranges of the objects that have both. */
  method ParseAll(objects: seq<AddressObject>) returns (parsed: Parsed)
    ensures parsed == ParsedOf(objects)
    ensures ItemsAt(objects, ComparedAt(objects), parsed)
    ensures forall i: nat :: i in ComparedAt(objects) <==> i < |objects| && Compared(objects[i])
  {
    ParsedIff(objects);
    hide ToRange, ItemsAt, ComparedAt;
    parsed := [];
    for i := 0 to |objects|
      invariant parsed == ParsedOf(objects[..i])
    {
      assert objects[..i + 1][..i] == objects[..i];
      var range := ToRange(objects[i]);
      if objects[i].name.Some? && objects[i].name.value != "" && range.Some? {
        parsed := parsed + [(objects[i].name.value, range.value)];
      }
    }
    assert objects[..|objects|] == objects;
  }

  lemma RowStep(parsed: Parsed, i: nat, j: nat)
    requires i < j < |parsed|
    ensures RowUpTo(parsed, i, i + 1) == []
    ensures RowUpTo(parsed, i, j + 1)
         == RowUpTo(parsed, i, j) + (if Classify(parsed[i].1, parsed[j].1).Some? then [(i, j)] else [])
  {
  }

  lemma PairsStep(parsed: Parsed, i: nat)
    requires i < |parsed|
    ensures RowUpTo(parsed, i, i + 1) == []
    ensures PairsUpTo(parsed, i + 1) == PairsUpTo(parsed, i) + RowUpTo(parsed, i, |parsed|)
  {
  }

  /** The nested loop over index pairs. */
  method FindPairs(parsed: Parsed) returns (findings: seq<Finding>)
    ensures forall p :: p in PairsUpTo(parsed, |parsed|) ==> ValidPair(parsed, p)
    ensures findings == FindingsFor(parsed, PairsUpTo(parsed, |parsed|))
  {
    hide ValidPair, FindingsFor, FindingFor, RowUpTo, PairsUpTo, Classify;
    findings := [];
    ghost var pairs: seq<Pair> := [];
    NoFindings(parsed);
    for i := 0 to |parsed|
      invariant pairs == PairsUpTo(parsed, i)
      invariant forall p :: p in pairs ==> ValidPair(parsed, p)
      invariant findings == FindingsFor(parsed, pairs)
    {
      PairsStep(parsed, i);
      for j := i + 1 to |parsed|
        invariant pairs == PairsUpTo(parsed, i) + RowUpTo(parsed, i, j)
        invariant forall p :: p in pairs ==> ValidPair(parsed, p)
        invariant findings == FindingsFor(parsed, pairs)
      {
        RowStep(parsed, i, j);
        var relationship := Classify(parsed[i].1, parsed[j].1);
        if relationship.None? {
          continue;
        }
        PairReported(parsed, i, j);
        FindingsForAppend(parsed, pairs, (i, j));
        pairs := pairs + [(i, j)];
        findings := findings + [Finding(parsed[i].0, parsed[j].0, relationship.value)];
      }
    }
  }

  lemma NoFindings(parsed: Parsed)
    ensures FindingsFor(parsed, []) == [] && PairsUpTo(parsed, 0) == []
  {
  }

  lemma PairReported(parsed: Parsed, i: nat, j: nat)
    requires i < j < |parsed| && Classify(parsed[i].1, parsed[j].1).Some?
    ensures ValidPair(parsed, (i, j))
    ensures FindingFor(parsed, (i, j)) == Finding(parsed[i].0, parsed[j].0, Classify(parsed[i].1, parsed[j].1).value)
  {
  }

  // ---- What the labels mean ----------------------------------------------------------------------------

  predicate In(x: int, r: Range) {
    r.lo <= x <= r.hi
  }

  ghost predicate Meet(a: Range, b: Range) {
    exists x :: In(x, a) && In(x, b)
  }

  ghost predicate Within(a: Range, b: Range) {
    forall x :: In(x, a) ==> In(x, b)
  }

  /** The classification says about the two address sets exactly what is the case. */
  ghost predicate SaysWhatIs(a: Range, b: Range) {
    match Classify(a, b)
    case None => !Meet(a, b)
    case Some(Equal) => Meet(a, b) && Within(a, b) && Within(b, a)
    case Some(AContainsB) => Meet(a, b) && Within(b, a) && !Within(a, b)
    case Some(BContainsA) => Meet(a, b) && Within(a, b) && !Within(b, a)
    case Some(Overlapping) => Meet(a, b) && !Within(a, b) && !Within(b, a)
  }

  predicate Proper(r: Range) {
    r.lo <= r.hi
  }

  /**
   The classification is right exactly when both ranges run forwards or it keeps them apart anyway;
   a backwards range is empty, yet can be reported as overlapping.
   */
  lemma ClassificationIsRightIff(a: Range, b: Range)
    ensures SaysWhatIs(a, b) <==> (Proper(a) && Proper(b)) || a.lo > b.hi || b.lo > a.hi
  {
    if Proper(a) && Proper(b) && !(a.lo > b.hi || b.lo > a.hi) {
      var x := if a.lo < b.lo then b.lo else a.lo;
      assert In(x, a) && In(x, b);
      assert In(a.lo, a) && In(a.hi, a) && In(b.lo, b) && In(b.hi, b);
    }
  }

  /** The label says about two ranges that share an address how the two address sets relate. */
  ghost predicate Describes(rel: Relationship, a: Range, b: Range) {
    && Meet(a, b)
    && match rel
       case Equal => Within(a, b) && Within(b, a)
       case AContainsB => Within(b, a) && !Within(a, b)
       case BContainsA => Within(a, b) && !Within(b, a)
       case Overlapping => !Within(a, b) && !Within(b, a)
  }

  lemma LabelDescribes(a: Range, b: Range)
    requires Proper(a) && Proper(b)
    ensures Classify(a, b).Some? <==> Meet(a, b)
    ensures Classify(a, b).Some? ==> Describes(Classify(a, b).value, a, b)
  {
    ClassificationIsRightIff(a, b);
  }

  function RangeAt(objects: seq<AddressObject>, i: nat): Range
    requires i < |objects| && Compared(objects[i])
  {
    ToRange(objects[i]).value
  }

  /** The finding is about the objects at the two places; on ranges that run forwards its label is true. */
  ghost predicate About(f: Finding, objects: seq<AddressObject>, p: Pair) {
    && p.0 < p.1 < |objects| && Compared(objects[p.0]) && Compared(objects[p.1])
    && objects[p.0].name == Some(f.a) && objects[p.1].name == Some(f.b)
    && var a, b := RangeAt(objects, p.0), RangeAt(objects, p.1);
       Proper(a) && Proper(b) ==> Describes(f.relationship, a, b)
  }

  lemma ValidPairs(parsed: Parsed, pairs: seq<Pair>)
    requires forall p :: p in pairs ==> ValidPair(parsed, p)
    ensures forall k :: 0 <= k < |pairs| ==> ValidPair(parsed, pairs[k]) && pairs[k].0 < pairs[k].1 < |parsed|
  {
    assert forall k :: 0 <= k < |pairs| ==> pairs[k] in pairs;
  }

  /** Renaming positions by an increasing list keeps the order of the pairs. */
  lemma PairsMoved(at: seq<nat>, local: seq<Pair>, pairs: seq<Pair>)
    requires forall k, l :: 0 <= k < l < |at| ==> at[k] < at[l]
    requires forall k :: 0 <= k < |local| ==> local[k].0 < |at| && local[k].1 < |at|
    requires |pairs| == |local| && forall k :: 0 <= k < |local| ==> pairs[k] == (at[local[k].0], at[local[k].1])
    requires InOrder(local)
    ensures InOrder(pairs)
  {
    forall k, l | 0 <= k < l < |pairs| ensures Before(pairs[k], pairs[l]) {
      assert Before(local[k], local[l]);
    }
  }

  lemma MovedIff(at: seq<nat>, local: seq<Pair>, pairs: seq<Pair>, m: nat, n: nat)
    requires forall k, l :: 0 <= k < l < |at| ==> at[k] < at[l]
    requires forall k :: 0 <= k < |local| ==> local[k].0 < |at| && local[k].1 < |at|
    requires |pairs| == |local| && forall k :: 0 <= k < |local| ==> pairs[k] == (at[local[k].0], at[local[k].1])
    requires m < |at| && n < |at|
    ensures (at[m], at[n]) in pairs <==> (m, n) in local
  {
    if (at[m], at[n]) in pairs {
      var k :| 0 <= k < |pairs| && pairs[k] == (at[m], at[n]);
      assert local[k] == (m, n);
    }
    if (m, n) in local {
      var k :| 0 <= k < |local| && local[k] == (m, n);
      assert pairs[k] == (at[m], at[n]);
    }
  }

  lemma FindingIsAbout(objects: seq<AddressObject>, parsed: Parsed, p: Pair, i: nat, j: nat)
    requires ValidPair(parsed, p) && i < j
    requires IsItemOf(objects, i, parsed[p.0]) && IsItemOf(objects, j, parsed[p.1])
    ensures About(FindingFor(parsed, p), objects, (i, j))
  {
    hide Classify, Describes;
    var a, b := RangeAt(objects, i), RangeAt(objects, j);
    if Proper(a) && Proper(b) { LabelDescribes(a, b); }
  }

  lemma PairIffMeet(objects: seq<AddressObject>, i: nat, j: nat, parsed: Parsed, m: nat, n: nat)
    requires m < n < |parsed| && IsItemOf(objects, i, parsed[m]) && IsItemOf(objects, j, parsed[n])
    requires Proper(RangeAt(objects, i)) && Proper(RangeAt(objects, j))
    ensures ValidPair(parsed, (m, n)) <==> Meet(RangeAt(objects, i), RangeAt(objects, j))
  {
    hide Classify, Meet;
    LabelDescribes(RangeAt(objects, i), RangeAt(objects, j));
  }

  /**
   The whole report: its findings belong to a strictly increasing list of pairs of objects, and are
   true of them. Of two objects whose ranges run forwards the pair is on the list exactly when they
   share an address.
   */
  lemma {:induction false} ReportIsRight(objects: seq<AddressObject>) returns (pairs: seq<Pair>)
    ensures InOrder(pairs) && |ReportOf(objects)| == |pairs|
    ensures forall k :: 0 <= k < |pairs| ==> About(ReportOf(objects)[k], objects, pairs[k])
    ensures forall i: nat, j: nat ::
              i < j < |objects| && Compared(objects[i]) && Compared(objects[j])
              && Proper(RangeAt(objects, i)) && Proper(RangeAt(objects, j)) ==>
                ((i, j) in pairs <==> Meet(RangeAt(objects, i), RangeAt(objects, j)))
  {
    hide Compared, Classify, ParsedOf, ComparedAt, PairsUpTo, Meet, Proper, About, FindingFor, Before, InOrder, RangeAt,
         Item, ValidPair;
    var parsed, at := ParsedOf(objects), ComparedAt(objects);
    var local := PairsUpTo(parsed, |parsed|);
    ParsedIff(objects);
    PairsIff(parsed, |parsed|);
    PairsInOrder(parsed, |parsed|);
    ValidPairs(parsed, local);
    pairs := seq(|local|, k requires 0 <= k < |local| => (at[local[k].0], at[local[k].1]));
    PairsMoved(at, local, pairs);
    forall k | 0 <= k < |pairs| ensures About(ReportOf(objects)[k], objects, pairs[k]) {
      FindingIsAbout(objects, parsed, local[k], at[local[k].0], at[local[k].1]);
    }
    forall i: nat, j: nat | i < j < |objects| && Compared(objects[i]) && Compared(objects[j])
                            && Proper(RangeAt(objects, i)) && Proper(RangeAt(objects, j))
      ensures (i, j) in pairs <==> Meet(RangeAt(objects, i), RangeAt(objects, j))
    {
      var m, n := IndexOf(at, i), IndexOf(at, j);
      MovedIff(at, local, pairs, m, n);
      PairIffMeet(objects, i, j, parsed, m, n);
    }
  }

  /** A backwards range, though empty, is reported: always as contained, by a range spanning both its ends. */
  lemma BackwardsReportedIff(a: Range, b: Range)
    requires !Proper(a)
    ensures !Meet(a, b)
    ensures Classify(a, b).Some? <==> b.lo <= a.hi && a.lo <= b.hi
    ensures Classify(a, b).Some? ==> Classify(a, b) == Some(BContainsA) && Proper(b)
  {
  }

  /** The address object 20-10 holds no address, and is reported as contained in 5-30. */
  lemma EmptyRangeIsReported()
    ensures var a, b := IpRange(Some("a"), Some(20), Some(10)), IpRange(Some("b"), Some(5), Some(30));
            && ReportOf([a, b]) == [Finding("a", "b", BContainsA)]
            && !Meet(ToRange(a).value, ToRange(b).value)
  {
    var a, b := IpRange(Some("a"), Some(20), Some(10)), IpRange(Some("b"), Some(5), Some(30));
    assert [a, b][..1] == [a] && [a][..0] == [];
    assert ParsedOf([a]) == [("a", Range(20, 10))];
    var parsed := [("a", Range(20, 10)), ("b", Range(5, 30))];
    assert ParsedOf([a, b]) == parsed;
    assert RowUpTo(parsed, 0, 2) == [(0, 1)] && RowUpTo(parsed, 1, 2) == [];
    assert PairsUpTo(parsed, 0) == [] && PairsUpTo(parsed, 1) == [(0, 1)];
    assert PairsUpTo(parsed, 2) == [(0, 1)];
  }

  /** A subnet is never backwards. */
  lemma BlockIsProper(s: Subnet)
    ensures Proper(BlockOf(s)) && In(s.address, BlockOf(s))
    ensures 0 <= BlockOf(s).lo
  {
    hide BlockSize;
    RemainderBounds(s.address, BlockSize(s.prefix));
  }

  lemma RemainderBounds(n: nat, size: int)
    requires size > 0
    ensures 0 <= n % size < size && n % size <= n
  {
    if n < size {
      assert n % size == n;
    }
  }

  // ---- CIDR blocks nest or are disjoint -------------------------------------------------------------------

  lemma {:induction false} Pow2Divides(i: nat, j: nat) returns (k: nat)
    requires i <= j
    ensures Pow2(j) == k * Pow2(i) && k > 0
  {
    if i == j {
      k := 1;
    } else {
      var k' := Pow2Divides(i, j - 1);
      k := 2 * k';
      assert Pow2(j) == 2 * (k' * Pow2(i)) == (2 * k') * Pow2(i);
    }
  }

  lemma BlockIsMultiple(s: Subnet) returns (q: int)
    ensures BlockOf(s).lo == q * BlockSize(s.prefix)
  {
    var size := BlockSize(s.prefix);
    q := s.address / size;
    assert s.address == size * (s.address / size) + s.address % size;
  }

  lemma MulMonotone(a: int, b: int, size: int)
    requires size > 0 && a <= b
    ensures a * size <= b * size
  {
  }

  lemma MultiplesNest(size: int, q: int, m: int, k: int)
    requires size > 0
    ensures (q + 1) * size <= m * size
            || (m + k) * size <= q * size
            || (m * size <= q * size && (q + 1) * size <= (m + k) * size)
  {
    if q < m {
      MulMonotone(q + 1, m, size);
    } else if q >= m + k {
      MulMonotone(m + k, q, size);
    } else {
      MulMonotone(m, q, size);
      MulMonotone(q + 1, m + k, size);
    }
  }

  lemma Multiply(q: int, q': int, k: int, size: int)
    ensures (q + 1) * size == q * size + size
    ensures q' * (k * size) == (q' * k) * size
    ensures (q' * k + k) * size == q' * (k * size) + k * size
  {
  }

  lemma LongerPrefixNests(s: Subnet, t: Subnet)
    requires s.prefix >= t.prefix
    ensures var a, b := BlockOf(s), BlockOf(t); a.hi < b.lo || b.hi < a.lo || (b.lo <= a.lo && a.hi <= b.hi)
  {
    var k := Pow2Divides(32 - s.prefix, 32 - t.prefix);
    var q := BlockIsMultiple(s);
    var q' := BlockIsMultiple(t);
    var size := BlockSize(s.prefix);
    MultiplesNest(size, q, q' * k, k);
    Multiply(q, q', k, size);
  }

  // ---- Which addresses a subnet holds ---------------------------------------------------------------------

  /** The address without its k lowest bits. */
  function Shortened(address: nat, k: nat): nat {
    if k == 0 then address else Shortened(address / 2, k - 1)
  }

  lemma HalfOfMultiple(x: nat, m: nat)
    requires m > 0
    ensures x / 2 / m == x / (2 * m)
  {
    var q, r := x / (2 * m), x % (2 * m);
    assert x == 2 * m * q + r;
    assert 2 * m * q == 2 * (m * q);
    assert x / 2 == m * q + r / 2;
    QuotientIs(x / 2, m, q);
  }

  lemma NextMultiple(q: int, size: int)
    ensures (q + 1) * size == q * size + size
  {
  }

  lemma OneQuotient(x: int, size: int, p: int, q: int)
    requires size > 0 && p * size <= x < p * size + size && q * size <= x < q * size + size
    ensures p == q
  {
    NextMultiple(p, size);
    NextMultiple(q, size);
    if p < q { MulMonotone(p + 1, q, size); } else if p > q { MulMonotone(q + 1, p, size); }
  }

  lemma QuotientBounds(x: nat, size: int)
    requires size > 0
    ensures (x / size) * size <= x < (x / size) * size + size
  {
    RemainderBounds(x, size);
    assert x == (x / size) * size + x % size;
  }

  /** The quotient is the multiple just below. */
  lemma QuotientIs(x: nat, size: int, q: int)
    requires size > 0 && q * size <= x < q * size + size
    ensures x / size == q
  {
    QuotientBounds(x, size);
    OneQuotient(x, size, x / size, q);
  }

  lemma {:induction false} ShortenedIsQuotient(address: nat, k: nat)
    ensures Pow2(k) > 0 && Shortened(address, k) == address / Pow2(k)
  {
    Pow2Positive(k);
    if k > 0 {
      ShortenedIsQuotient(address / 2, k - 1);
      HalfOfMultiple(address, Pow2(k - 1));
    }
  }

  lemma QuotientIff(x: nat, size: int, q: int)
    requires size > 0
    ensures q * size <= x <= q * size + size - 1 <==> x / size == q
  {
    QuotientBounds(x, size);
    if q * size <= x <= q * size + size - 1 { QuotientIs(x, size, q); }
  }

  lemma BlockStart(s: Subnet)
    ensures var q := s.address / BlockSize(s.prefix);
            BlockOf(s) == Range(q * BlockSize(s.prefix), q * BlockSize(s.prefix) + BlockSize(s.prefix) - 1)
  {
    hide BlockSize;
    var size := BlockSize(s.prefix);
    assert s.address == (s.address / size) * size + s.address % size;
  }

  /** An address lies in a subnet exactly when the two agree in their first bits, as many as the prefix says. */
  lemma BlockIff(s: Subnet, x: Ip)
    ensures In(x, BlockOf(s)) <==> Shortened(x, 32 - s.prefix) == Shortened(s.address, 32 - s.prefix)
  {
    BlockStart(s);
    ShortenedIsQuotient(x, 32 - s.prefix);
    ShortenedIsQuotient(s.address, 32 - s.prefix);
    assert BlockSize(s.prefix) == Pow2(32 - s.prefix);
    hide BlockOf, BlockSize, Pow2, Shortened;
    QuotientIff(x, BlockSize(s.prefix), s.address / BlockSize(s.prefix));
  }

  /** A subnet does not leave the address space. */
  lemma BlockInSpace(s: Subnet)
    ensures 0 <= BlockOf(s).lo <= BlockOf(s).hi <= 0xFFFF_FFFF
  {
    BlockIsProper(s);
    var size := BlockSize(s.prefix);
    var k := Pow2Divides(32 - s.prefix, 32);
    var q := BlockIsMultiple(s);
    Pow2OfThirtyTwo();
    hide BlockSize, Pow2;
    NextMultiple(q, size);
    if q >= k {
      MulMonotone(k, q, size);
    } else {
      MulMonotone(q + 1, k, size);
    }
  }

  lemma Pow2OfThirtyTwo()
    ensures Pow2(32) == 0x1_0000_0000
  {
    assert Pow2(8) == 256;
    assert Pow2(16) == 65536;
    assert Pow2(24) == 0x100_0000;
  }

  /** A /32 is one address, a /0 all of them, and each bit less of prefix doubles the size. */
  lemma BlockSizes(s: Subnet)
    ensures BlockOf(Subnet(s.address, 32)) == Range(s.address, s.address)
    ensures BlockOf(Subnet(s.address, 0)) == Range(0, 0xFFFF_FFFF)
    ensures s.prefix > 0 ==>
              var a, b := BlockOf(s), BlockOf(Subnet(s.address, s.prefix - 1));
              b.hi - b.lo + 1 == 2 * (a.hi - a.lo + 1)
  {
    Pow2OfThirtyTwo();
    assert BlockSize(32) == 1;
    assert s.address % 0x1_0000_0000 == s.address;
  }

  /** A range object has the two addresses it is given as ends; an object of another type has no range. */
  lemma RangeIs(name: Option<string>, start: Option<Ip>, end: Option<Ip>)
    ensures ToRange(IpRange(name, start, end))
         == if start.Some? && end.Some? then Some(Range(start.value, end.value)) else None
    ensures ToRange(OtherType(name)) == None && ToRange(IpMask(name, None)) == None
    ensures forall subnet :: ToRange(IpMask(name, Some(subnet))).Some?
    ensures Compared(IpRange(name, start, end)) <==> name.Some? && name.value != "" && start.Some? && end.Some?
  {
  }

  /** Two subnets are disjoint, equal, or one contains the other: never a partial overlap. */
  lemma SubnetsNeverPartlyOverlap(s: Subnet, t: Subnet)
    ensures Classify(BlockOf(s), BlockOf(t)) != Some(Overlapping)
    ensures SaysWhatIs(BlockOf(s), BlockOf(t))
  {
    if s.prefix >= t.prefix { LongerPrefixNests(s, t); } else { LongerPrefixNests(t, s); }
    BlockIsProper(s);
    BlockIsProper(t);
    ClassificationIsRightIff(BlockOf(s), BlockOf(t));
  }
}
