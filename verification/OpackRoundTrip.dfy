/** The laws of the OPACK codec as a whole. */
module OpackRoundTrip {
  import opened Bytes
  import opened OpackValue
  import opened OpackTables
  import opened OpackSer
  import opened OpackDe
  import opened OpackScalars
  import opened OpackLockstep
  import opened OpackBudget
  import opened Wrappers

  // ----- What can be packed ---------------------------------------------------------

  /** Scalars that have an encoding: no timestamps, no misfit widths, no over-long strings. */
  predicate ScalarPackable(v: Value) {
    match v
    case SizedUint(n, w) => n < Pow256(w.ByteCount())
    case Str(text) => |text| < U32_LIMIT
    case AbsoluteTime(_) => false
    case _ => true
  }

  predicate ScalarsPackable(v: Value)
    decreases Size(v), 0
  {
    if IsContainer(v) then ItemsPackable(Children(v)) else ScalarPackable(v)
  }

  predicate ItemsPackable(items: seq<Value>)
    decreases SizeItems(items), 1
  {
    items == [] || (ScalarsPackable(items[0]) && ItemsPackable(items[1..]))
  }

  /** At depth `depth`, encoding succeeds exactly when the scalars are packable and nesting fits. */
  lemma {:induction false} EncodesIff(t: seq<seq<byte>>, depth: nat, v: Value)
    ensures EncodeValue(t, depth, v).Ok? <==> ScalarsPackable(v) && (IsContainer(v) ==> depth + Depth(v) <= MAX_DEPTH)
    decreases Size(v), 0
  {
    if IsContainer(v) {
      hide Size, SizeItems, Children, EncodeItems, ItemsPackable, DepthItems;
      if depth < MAX_DEPTH {
        EncodesItemsIff(t, depth + 1, Children(v));
      }
    }
  }

  lemma {:induction false} EncodesItemsIff(t: seq<seq<byte>>, depth: nat, items: seq<Value>)
    requires depth <= MAX_DEPTH
    ensures EncodeItems(t, depth, items).Ok? <==> ItemsPackable(items) && depth + DepthItems(items) <= MAX_DEPTH
    decreases SizeItems(items), 1
  {
    if items == [] {
    } else {
      hide EncodeValue, Depth, ScalarsPackable;
      EncodesIff(t, depth, items[0]);
      ScalarDepth(items[0]);
      if EncodeValue(t, depth, items[0]).Ok? {
        EncodesItemsIff(EncodeValue(t, depth, items[0]).value.table, depth, items[1..]);
      } else {
      }
    }
  }

  lemma ScalarDepth(v: Value)
    ensures IsContainer(v) <==> Depth(v) > 0
  {
  }

  /** Packing succeeds exactly on packable scalars nested at most 32 containers deep. */
  lemma PackSucceedsIff(v: Value)
    ensures PackBytes(v).Ok? <==> ScalarsPackable(v) && Depth(v) <= 32
  {
    hide EncodeValue, ScalarsPackable;
    EncodesIff([], 0, v);
    ScalarDepth(v);
  }

  // ----- Round trip --------------------------------------------------------------------

  /** What decoding `packed + rest` under `p` should give, for a `v` that packed. */
  ghost predicate RoundTrips(p: Params, v: Value, packed: seq<byte>, rest: seq<byte>) {
    var r := UnpackWith(p, packed + rest);
    if Saturate(WireCost(p.slot, [], 0, v)) <= p.budget then r == Ok((Canon(v), |packed|))
    else r.Err? && r.error.BudgetExceeded?
  }

  /**
   Whatever packs, decodes: followed by any bytes and under any budget, the canonical value
   comes back and exactly the packed bytes are consumed, unless the budget is below the
   document's exact cost, in which case that is the error.
   */
  lemma RoundTrip(p: Params, v: Value, rest: seq<byte>)
    requires SeparatesZeros(p.digest) && Textual(p, v)
    requires PackBytes(v).Ok?
    ensures RoundTrips(p, v, PackBytes(v).value, rest)
  {
    hide EncodeValue, DecodeValue, WireCost, SeparatesZeros;
    var packed := PackBytes(v).value;
    var input := packed + rest;
    var q := p.(budget := USIZE_MAX);
    assert input[0..|packed|] == packed;
    TextualAnyBudget(p, q, v);
    assert Lockstep([], []);
    ValueLands(q, input, Start(), [], v);
    BudgetThreshold(q, input, p.budget);
    assert q.(budget := p.budget) == p;
  }

  lemma {:induction false} TextualAnyBudget(p: Params, q: Params, v: Value)
    requires p.utf8 == q.utf8
    ensures Textual(p, v) == Textual(q, v)
    decreases Size(v), 0
  {
    if IsContainer(v) {
      TextualItemsAnyBudget(p, q, Children(v));
    }
  }

  lemma {:induction false} TextualItemsAnyBudget(p: Params, q: Params, items: seq<Value>)
    requires p.utf8 == q.utf8
    ensures TextualItems(p, items) == TextualItems(q, items)
    decreases SizeItems(items), 1
  {
    if items == [] {
    } else {
      TextualAnyBudget(p, q, items[0]);
      TextualItemsAnyBudget(p, q, items[1..]);
    }
  }

  // ----- Signed zeros: exactly when the round trip holds -----------------------------------

  /** Both zeros of one width, the second one repeated. */
  function ZeroPair(wide: bool): (Value, Value) {
    if wide then (Float(0), Float(SIGN64)) else (Float32(0), Float32(SIGN32))
  }

  function ZerosArray(wide: bool): Value {
    var (plus, minus) := ZeroPair(wide);
    Array([plus, minus, minus])
  }

  function ZerosBytes(wide: bool): seq<byte> {
    var (plus, minus) := ZeroPair(wide);
    [0xD3] + (ScalarBytes(plus).value + (ScalarBytes(minus).value + [0xA1]))
  }

  lemma ZeroEncodingsDiffer(wide: bool)
    ensures ScalarBytes(ZeroPair(wide).0).Ok? && ScalarBytes(ZeroPair(wide).1).Ok?
    ensures ScalarBytes(ZeroPair(wide).0) != ScalarBytes(ZeroPair(wide).1)
  {
    ScalarBytesInjective(ZeroPair(wide).0, ZeroPair(wide).1);
  }

  /** Inside the array, from an empty table. */
  lemma ZerosEncode(wide: bool)
    ensures var (plus, minus) := ZeroPair(wide);
            var a, b := ScalarBytes(plus).value, ScalarBytes(minus).value;
            EncodeItems([], 1, [plus, minus, minus]) == Ok(Encoded(a + (b + [0xA1]), [a, b]))
  {
    hide ScalarBytes;
    ZeroEncodingsDiffer(wide);
    var (plus, minus) := ZeroPair(wide);
    var a, b := ScalarBytes(plus).value, ScalarBytes(minus).value;
    var items := [plus, minus, minus];
    assert items[1..] == [minus, minus] && items[1..][1..] == [minus];
    var none: seq<seq<byte>> := [];
    assert none + [a] == [a] && [a] + [b] == [a, b];
    assert EncodeValue([], 1, plus) == Ok(Encoded(a, [a]));
    assert EncodeValue([a], 1, minus) == Ok(Encoded(b, [a, b]));
    assert EncodeValue([a, b], 1, minus) == Ok(Encoded([0xA1], [a, b]));
    EncodeOne(0, [a, b], 1, minus);
    assert EncodeItems([a], 1, [minus, minus]) == Ok(Encoded(b + [0xA1], [a, b]));
  }

  /** The encoder numbers the two zeros apart and replaces the repeat by index 1. */
  lemma ZerosPack(wide: bool)
    ensures PackBytes(ZerosArray(wide)) == Ok(ZerosBytes(wide))
  {
    hide ScalarBytes, EncodeItems;
    ZerosEncode(wide);
    ZeroEncodingsDiffer(wide);
    var (plus, minus) := ZeroPair(wide);
    var a, b := ScalarBytes(plus).value, ScalarBytes(minus).value;
    assert [0xD3] + (a + (b + [0xA1])) + [] == [0xD3] + (a + (b + [0xA1]));
    assert WriteValue([], 0, ZerosArray(wide)) == Ok(Encoded(ZerosBytes(wide), [a, b]));
    ZerosInterned(wide);
    assert !InternedHead(ZerosBytes(wide));
  }

  lemma ZerosInterned(wide: bool)
    ensures var (plus, minus) := ZeroPair(wide);
            && ScalarBytes(plus).value != [] && ScalarBytes(plus).value[0] < 0xD0
            && ScalarBytes(minus).value != [] && ScalarBytes(minus).value[0] < 0xD0
  {
  }

  /** A scalar that lands as a recorded leaf is decoded and recorded. */
  lemma RecordedScalar(p: Params, input: seq<byte>, s: State, v: Value)
    requires Unlimited(p) && (v.Float? || v.Float32?) && ScalarBytes(v).Ok?
    requires At(input, s.offset, ScalarBytes(v).value)
    ensures DecodeValue(p, input, s)
         == Ok((v, Advance(s, |ScalarBytes(v).value|, 0).(table := Recorded(p.digest, s.table, v))))
  {
    hide ScalarBytes, DecodeLeaf, Recorded;
    ScalarLands(p, input, s, v);
    ScalarHead(v);
    var b := ScalarBytes(v).value;
    assert input[s.offset] == b[0];
  }

  lemma {:induction false} BucketAtMost(digest: Value -> nat, t: seq<Value>, d: nat)
    ensures |Bucket(digest, t, d)| <= |t|
  {
    if t == [] {
    } else {
      BucketAtMost(digest, t[..|t| - 1], d);
    }
  }

  /** An array whose next item, or whose remaining items, fail to decode fails the same way. */
  lemma ItemFails(p: Params, input: seq<byte>, s: State, n: nat, e: Error)
    requires Unlimited(p) && n > 0 && s.offset <= |input|
    requires var r := DecodeValue(p, input, s.(spent := Saturate(s.spent + p.slot)));
             r == Err(e) || (r.Ok? && DecodeGroups(p, input, r.value.1, 1, Some((n - 1) as nat)) == Err(e))
    ensures DecodeGroups(p, input, s, 1, Some(n)) == Err(e)
  {
    hide DecodeValue;
    ElementPaid(p, s);
    hide Charged, Saturate;
  }

  lemma ElementPaid(p: Params, s: State)
    requires Unlimited(p)
    ensures Charged(p, s, ElementCost(p.slot, 1)) == Ok(s.(spent := Saturate(s.spent + p.slot)))
  {
  }

  /** Where the three items of `ZerosBytes` lie. */
  lemma ZerosLayout(wide: bool)
    ensures ScalarBytes(ZeroPair(wide).0).Ok? && ScalarBytes(ZeroPair(wide).1).Ok?
    ensures var a, b := ScalarBytes(ZeroPair(wide).0).value, ScalarBytes(ZeroPair(wide).1).value;
            var input := ZerosBytes(wide);
            && input != [] && input[0] == 0xD3 && |input| == 2 + |a| + |b|
            && At(input, 1, a) && At(input, 1 + |a|, b) && input[1 + |a| + |b|] == 0xA1
  {
    hide ScalarBytes, At;
    ZeroEncodingsDiffer(wide);
    PiecesLayout(ScalarBytes(ZeroPair(wide).0).value, ScalarBytes(ZeroPair(wide).1).value);
  }

  lemma PiecesLayout(a: seq<byte>, b: seq<byte>)
    ensures var input := [0xD3] + (a + (b + [0xA1]));
            && input != [] && input[0] == 0xD3 && |input| == 2 + |a| + |b|
            && At(input, 1, a) && At(input, 1 + |a|, b) && input[1 + |a| + |b|] == 0xA1
  {
    var input := [0xD3] + (a + (b + [0xA1]));
    AtSplit(input, 0, [0xD3], a + (b + [0xA1]));
    AtSplit(input, 1, a, b + [0xA1]);
    AtSplit(input, 1 + |a|, b, [0xA1]);
  }

  /** The first zero is recorded; the second, sharing its digest, is taken for a repeat. */
  lemma ZerosRecord(p: Params, wide: bool)
    requires p.digest(ZeroPair(wide).0) == p.digest(ZeroPair(wide).1)
    ensures Recorded(p.digest, [], ZeroPair(wide).0) == [ZeroPair(wide).0]
    ensures Recorded(p.digest, [ZeroPair(wide).0], ZeroPair(wide).1) == [ZeroPair(wide).0]
  {
    hide Bucket;
    var plus, minus := ZeroPair(wide).0, ZeroPair(wide).1;
    BucketAtMost(p.digest, [plus], p.digest(minus));
    assert !Known(p.digest, [], plus);
    assert Known(p.digest, [plus], minus) by {
      assert ValueEq([plus][0], minus);
    }
  }

  /** The zero at `s` is read, leaving `t` as the table; the state has moved past it. */
  lemma ZeroDecodes(p: Params, wide: bool, second: bool, s: State)
    requires Unlimited(p) && p.digest(ZeroPair(wide).0) == p.digest(ZeroPair(wide).1)
    requires ScalarBytes(ZeroPair(wide).0).Ok?
    requires s.offset == 1 + (if second then |ScalarBytes(ZeroPair(wide).0).value| else 0)
    requires s.table == if second then [ZeroPair(wide).0] else []
    ensures var r := DecodeValue(p, ZerosBytes(wide), s);
            && r.Ok? && r.value.1.table == [ZeroPair(wide).0] && r.value.1.depth == s.depth
            && r.value.1.offset == 1 + |ScalarBytes(ZeroPair(wide).0).value|
                                   + (if second && ScalarBytes(ZeroPair(wide).1).Ok? then |ScalarBytes(ZeroPair(wide).1).value| else 0)
  {
    var v := if second then ZeroPair(wide).1 else ZeroPair(wide).0;
    ZerosLayout(wide);
    ZerosRecord(p, wide);
    assert v.Float? || v.Float32?;
    hide ScalarBytes, DecodeValue, Recorded, ZerosBytes, ZeroPair, At;
    RecordedScalar(p, ZerosBytes(wide), s, v);
  }

  /** When the zeros share a digest, the decoder takes the second for a repeat and loses count. */
  lemma ZerosCollide(p: Params, wide: bool)
    requires Unlimited(p)
    requires p.digest(ZeroPair(wide).0) == p.digest(ZeroPair(wide).1)
    ensures UnpackWith(p, ZerosBytes(wide)) == Err(BadBackReference(1, 1))
  {
    hide ScalarBytes, DecodeValue, DecodeGroups, ZerosBytes, ZeroPair, Recorded, UnpackWith, Saturate, At, Unlimited;
    ZerosLayout(wide);
    var input := ZerosBytes(wide);
    var s0 := Start().(offset := 1, depth := 1);
    var s1 := s0.(spent := Saturate(s0.spent + p.slot));
    ZeroDecodes(p, wide, false, s1);
    var t1 := DecodeValue(p, input, s1).value.1;
    var s2 := t1.(spent := Saturate(t1.spent + p.slot));
    ZeroDecodes(p, wide, true, s2);
    var t2 := DecodeValue(p, input, s2).value.1;
    OutOfRangePointer(p, input, t2.(spent := Saturate(t2.spent + p.slot)));
    ItemFails(p, input, t2, 1, BadBackReference(1, 1));
    ItemFails(p, input, t1, 2, BadBackReference(1, 1));
    ItemFails(p, input, s0, 3, BadBackReference(1, 1));
    ArrayFails(p, input, 3, BadBackReference(1, 1));
  }

  lemma OutOfRangePointer(p: Params, input: seq<byte>, s: State)
    requires Unlimited(p) && |s.table| == 1
    requires s.offset < |input| && input[s.offset] == 0xA1
    ensures DecodeValue(p, input, s) == Err(BadBackReference(1, 1))
  {
    var paid := Charged(p, s.(offset := s.offset + 1), p.slot);
    assert paid.Ok?;
  }

  lemma ArrayFails(p: Params, input: seq<byte>, n: nat, e: Error)
    requires n < 0x0F && input != [] && input[0] == 0xD0 + n
    requires DecodeGroups(p, input, Start().(offset := 1, depth := 1), 1, Some(n)) == Err(e)
    ensures UnpackWith(p, input) == Err(e)
  {
    hide DecodeGroups, DecodeLeaf;
  }

  /**
   With room in the budget, everything that packs round-trips if and only if the digest tells
   +0.0 from -0.0 at both float widths.
   */
  lemma RoundTripIffZerosSeparate(p: Params)
    requires Unlimited(p)
    ensures SeparatesZeros(p.digest)
       <==> forall v, rest :: Textual(p, v) && PackBytes(v).Ok? ==>
              UnpackWith(p, PackBytes(v).value + rest) == Ok((Canon(v), |PackBytes(v).value|))
  {
    hide UnpackWith, PackBytes, WireCost, Canon, Textual;
    if SeparatesZeros(p.digest) {
      forall v, rest | Textual(p, v) && PackBytes(v).Ok?
        ensures UnpackWith(p, PackBytes(v).value + rest) == Ok((Canon(v), |PackBytes(v).value|))
      {
        RoundTrip(p, v, rest);
      }
    } else {
      var wide := p.digest(Float(0)) == p.digest(Float(SIGN64));
      var v := ZerosArray(wide);
      ZerosPack(wide);
      ZerosTextual(p, wide);
      ZerosCollide(p, wide);
      assert ZerosBytes(wide) + [] == ZerosBytes(wide);
      assert UnpackWith(p, PackBytes(v).value + []).Err?;
    }
  }

  lemma ZerosTextual(p: Params, wide: bool)
    ensures Textual(p, ZerosArray(wide))
  {
    var (plus, minus) := ZeroPair(wide);
    var items := [plus, minus, minus];
    assert items[1..] == [minus, minus] && items[1..][1..] == [minus] && items[1..][1..][1..] == [];
    assert TextualItems(p, items[1..]);
  }

  // ----- Packing what came back --------------------------------------------------------------

  /** The canonical form packs to the very same bytes, from any table. */
  lemma {:induction false} CanonEncodesSame(t: seq<seq<byte>>, depth: nat, v: Value)
    ensures EncodeValue(t, depth, Canon(v)) == EncodeValue(t, depth, v)
    decreases Size(v), 0
  {
    if IsContainer(v) {
      hide Size, SizeItems, Children, EncodeItems, Canon, CanonItems, ScalarBytes, Intern;
      CanonChildren(v);
      CanonItemsEncodeSame(t, depth + 1, Children(v));
      assert WriteValue(t, depth, Canon(v)) == WriteValue(t, depth, v);
      InternIgnoresContainers(WriteValue(t, depth, v), Canon(v), v);
    } else {
      hide CanonScalar, ScalarBytes, IsInterned;
      CanonSameBytes(v);
    }
  }

  lemma InternIgnoresContainers(w: Result<Encoded, Error>, a: Value, b: Value)
    requires IsContainer(a) && IsContainer(b)
    ensures w.Ok? ==> Intern(w.value, a) == Intern(w.value, b)
  {
  }

  lemma {:induction false} CanonItemsEncodeSame(t: seq<seq<byte>>, depth: nat, items: seq<Value>)
    ensures EncodeItems(t, depth, CanonItems(items)) == EncodeItems(t, depth, items)
    decreases SizeItems(items), 1
  {
    if items == [] {
    } else {
      CanonEncodesSame(t, depth, items[0]);
      assert CanonItems(items)[1..] == CanonItems(items[1..]);
      var head := EncodeValue(t, depth, items[0]);
      if head.Ok? {
        CanonItemsEncodeSame(head.value.table, depth, items[1..]);
      }
    }
  }

  /** Packing the decoded value again reproduces the document byte for byte. */
  lemma RepackIsIdentical(p: Params, v: Value, rest: seq<byte>)
    requires SeparatesZeros(p.digest) && Textual(p, v) && PackBytes(v).Ok?
    requires UnpackWith(p, PackBytes(v).value + rest).Ok?
    ensures PackBytes(UnpackWith(p, PackBytes(v).value + rest).value.0) == PackBytes(v)
  {
    hide EncodeValue, UnpackWith, WireCost, Canon, Textual;
    RoundTrip(p, v, rest);
    CanonEncodesSame([], 0, v);
  }
}
