/** Scalar encodings and back-references are read back exactly, wherever they stand in the input. */
module OpackScalars {
  import opened Bytes
  import opened OpackValue
  import opened OpackSer
  import opened OpackDe
  import opened Wrappers

  /** What the budget is charged for the payload of an inline scalar. */
  function Payload(v: Value): nat {
    match v
    case Str(text) => |text|
    case Data(data) => |data|
    case _ => 0
  }

  /** The state after `count` bytes have been read and `cost` has been charged. */
  function Advance(s: State, count: nat, cost: nat): State {
    s.(offset := s.offset + count, spent := Saturate(s.spent + cost))
  }

  ghost predicate Unlimited(p: Params) {
    p.budget == USIZE_MAX
  }

  /** Decoding the tag `b[0]` at `s` yields `v` and lands after `b`. */
  ghost predicate LeafIs(p: Params, input: seq<byte>, s: State, b: seq<byte>, v: Value, record: bool, cost: nat) {
    && b != []
    && !IsContainerTag(b[0])
    && DecodeLeaf(p, input, s.(offset := s.offset + 1), s.offset, b[0])
       == Ok(Leaf(v, record, Advance(s, |b|, cost)))
  }

  lemma TakenUintLands(input: seq<byte>, s: State, n: nat, w: nat)
    requires w <= 8 && n < Pow256(w)
    requires At(input, s.offset, Le(n, w))
    ensures TakenUint(input, s, w) == Ok((n, s.(offset := s.offset + w)))
  {
    LeRoundTrip(n, w);
  }

  lemma SizedLands(p: Params, input: seq<byte>, s: State, n: u64, w: UintWidth)
    requires n < Pow256(w.ByteCount())
    requires At(input, s.offset, SizedBytes(n, w))
    ensures LeafIs(p, input, s, SizedBytes(n, w), SizedUint(n, w), true, 0)
  {
    AtSplit(input, s.offset, [w.Tag()], Le(n, w.ByteCount()));
    TakenUintLands(input, s.(offset := s.offset + 1), n, w.ByteCount());
  }

  lemma FloatLands(p: Params, input: seq<byte>, s: State, bits: u64)
    requires At(input, s.offset, [0x36] + Le(bits, 8))
    ensures LeafIs(p, input, s, [0x36] + Le(bits, 8), Float(bits), true, 0)
  {
    Pow256Values();
    AtSplit(input, s.offset, [0x36], Le(bits, 8));
    TakenUintLands(input, s.(offset := s.offset + 1), bits, 8);
  }

  lemma Float32Lands(p: Params, input: seq<byte>, s: State, bits: u32)
    requires At(input, s.offset, [0x35] + Le(bits, 4))
    ensures LeafIs(p, input, s, [0x35] + Le(bits, 4), Float32(bits), true, 0)
  {
    Pow256Values();
    AtSplit(input, s.offset, [0x35], Le(bits, 4));
    LeRoundTrip(bits, 4);
  }

  /** A length prefix of `w` bytes after a tag is read back. */
  lemma PrefixLands(input: seq<byte>, s: State, tag: byte, len: nat, w: nat, rest: seq<byte>)
    requires w <= 8 && len < Pow256(w)
    requires At(input, s.offset, [tag] + Le(len, w) + rest)
    ensures TakenUint(input, s.(offset := s.offset + 1), w) == Ok((len, s.(offset := s.offset + 1 + w)))
    ensures At(input, s.offset + 1 + w, rest)
  {
    AtSplit(input, s.offset, [tag] + Le(len, w), rest);
    AtSplit(input, s.offset, [tag], Le(len, w));
    TakenUintLands(input, s.(offset := s.offset + 1), len, w);
  }

  lemma StringBodyLands(p: Params, input: seq<byte>, s: State, start: nat, text: Blob)
    requires Unlimited(p) && p.utf8(text)
    requires At(input, s.offset, text)
    ensures DecodeString(p, input, s, start, |text|) == Ok(Leaf(Str(text), true, Advance(s, |text|, |text|)))
  {
  }

  lemma DataBodyLands(p: Params, input: seq<byte>, s: State, data: Blob)
    requires Unlimited(p)
    requires At(input, s.offset, data)
    ensures DecodeData(p, input, s, |data|) == Ok(Leaf(Data(data), true, Advance(s, |data|, |data|)))
  {
  }

  /** Behind a tag with a length prefix stands a string. */
  lemma LongStringTag(p: Params, input: seq<byte>, s: State, start: nat, w: nat)
    requires 1 <= w <= 4 && TakenUint(input, s, w).Ok?
    ensures var (len, next) := TakenUint(input, s, w).value;
            DecodeLeaf(p, input, s, start, 0x60 + w) == DecodeString(p, input, next, start, len)
  {
    hide TakenUint, DecodeString, DecodeData, DecodeTiny, DecodeNumber, BackReference;
  }

  lemma LongDataTag(p: Params, input: seq<byte>, s: State, start: nat, tag: byte)
    requires 0x91 <= tag <= 0x94 && TakenUint(input, s, DataPrefixWidth(tag)).Ok?
    ensures var (len, next) := TakenUint(input, s, DataPrefixWidth(tag)).value;
            DecodeLeaf(p, input, s, start, tag) == DecodeData(p, input, next, len)
  {
    hide TakenUint, DecodeString, DecodeData, DecodeTiny, DecodeNumber, BackReference;
  }

  lemma AdvanceOver(s: State, skip: nat, count: nat, cost: nat)
    ensures Advance(s.(offset := s.offset + skip), count, cost) == Advance(s, skip + count, cost)
  {
  }

  lemma PrefixedLength(tag: byte, len: nat, w: nat, rest: seq<byte>)
    ensures var b := [tag] + Le(len, w) + rest; b != [] && b[0] == tag && |b| == 1 + w + |rest|
  {
  }

  lemma LongStringLands(p: Params, input: seq<byte>, s: State, text: Blob, w: nat)
    requires Unlimited(p) && p.utf8(text)
    requires 1 <= w <= 4 && |text| < Pow256(w)
    requires At(input, s.offset, [0x60 + w] + Le(|text|, w) + text)
    ensures LeafIs(p, input, s, [0x60 + w] + Le(|text|, w) + text, Str(text), true, |text|)
  {
    hide Le, FromLe, Pow256, TakenUint, At, DecodeString, DecodeLeaf, Advance, Unlimited;
    PrefixedLength(0x60 + w, |text|, w, text);
    PrefixLands(input, s, 0x60 + w, |text|, w, text);
    LongStringTag(p, input, s.(offset := s.offset + 1), s.offset, w);
    StringBodyLands(p, input, s.(offset := s.offset + 1 + w), s.offset, text);
    AdvanceOver(s, 1 + w, |text|, |text|);
  }

  lemma StringLands(p: Params, input: seq<byte>, s: State, text: Blob)
    requires Unlimited(p) && p.utf8(text)
    requires StringHeader(|text|).Ok?
    requires At(input, s.offset, StringHeader(|text|).value + text)
    ensures LeafIs(p, input, s, StringHeader(|text|).value + text, Str(text), true, |text|)
  {
    if |text| > 0x20 {
      hide LeafIs, At;
      var w := |StringHeader(|text|).value| - 1;
      Pow256Values();
      LongStringLands(p, input, s, text, w);
    } else {
      AtSplit(input, s.offset, [0x40 + |text|], text);
    }
  }

  lemma LongDataLands(p: Params, input: seq<byte>, s: State, data: Blob, tag: byte)
    requires Unlimited(p)
    requires 0x91 <= tag <= 0x94 && |data| < Pow256(DataPrefixWidth(tag))
    requires At(input, s.offset, [tag] + Le(|data|, DataPrefixWidth(tag)) + data)
    ensures LeafIs(p, input, s, [tag] + Le(|data|, DataPrefixWidth(tag)) + data, Data(data), true, |data|)
  {
    hide Le, FromLe, Pow256, TakenUint, At, DecodeData, DecodeLeaf, Advance, Unlimited;
    var w := DataPrefixWidth(tag);
    PrefixedLength(tag, |data|, w, data);
    PrefixLands(input, s, tag, |data|, w, data);
    LongDataTag(p, input, s.(offset := s.offset + 1), s.offset, tag);
    DataBodyLands(p, input, s.(offset := s.offset + 1 + w), data);
    AdvanceOver(s, 1 + w, |data|, |data|);
  }

  lemma DataLands(p: Params, input: seq<byte>, s: State, data: Blob)
    requires Unlimited(p)
    requires At(input, s.offset, DataHeader(|data|) + data)
    ensures LeafIs(p, input, s, DataHeader(|data|) + data, Data(data), true, |data|)
  {
    if |data| > 0x20 {
      hide LeafIs, At;
      Pow256Values();
      LongDataLands(p, input, s, data, DataHeader(|data|)[0]);
    } else {
      AtSplit(input, s.offset, [0x70 + |data|], data);
    }
  }

  /** Every scalar the encoder writes inline is decoded to its canonical form. */
  lemma ScalarLands(p: Params, input: seq<byte>, s: State, v: Value)
    requires Unlimited(p)
    requires !IsContainer(v) && (v.Str? ==> p.utf8(v.text))
    requires ScalarBytes(v).Ok? && At(input, s.offset, ScalarBytes(v).value)
    ensures LeafIs(p, input, s, ScalarBytes(v).value, CanonScalar(v), IsInterned(v), Payload(v))
  {
    hide StringHeader, DataHeader;
    if v.Uint? && v.number >= 0x28 {
      SizedLands(p, input, s, v.number, NarrowestFor(v.number));
    } else if v.SizedUint? {
      SizedLands(p, input, s, v.sized, v.width);
    } else if v.Float? {
      FloatLands(p, input, s, v.bits);
    } else if v.Float32? {
      Float32Lands(p, input, s, v.bits32);
    } else if v.Str? {
      StringLands(p, input, s, v.text);
    } else if v.Data? {
      DataLands(p, input, s, v.data);
    } else if v.Uuid? {
      AtSplit(input, s.offset, [0x05], v.uuid);
    }
  }

  /** A back-reference the encoder emits is read as that very index. */
  lemma PointerLands(p: Params, input: seq<byte>, s: State, index: nat)
    requires Unlimited(p)
    requires index < |s.table|
    requires PointerBytes(index).Some? && At(input, s.offset, PointerBytes(index).value)
    ensures LeafIs(p, input, s, PointerBytes(index).value, s.table[index], false, p.slot)
  {
    var b := PointerBytes(index).value;
    if index > 0x20 {
      var w := |b| - 1;
      Pow256Values();
      assert b == [0xC0 + w] + Le(index, w);
      AtSplit(input, s.offset, [0xC0 + w], Le(index, w));
      TakenUintLands(input, s.(offset := s.offset + 1), index, w);
    }
  }

  /** Two scalars share an encoding exactly when they share a canonical form. */
  lemma ScalarBytesInjective(v: Value, w: Value)
    requires !IsContainer(v) && !IsContainer(w)
    requires ScalarBytes(v).Ok? && ScalarBytes(w).Ok?
    ensures ScalarBytes(v) == ScalarBytes(w) <==> CanonScalar(v) == CanonScalar(w)
  {
    CanonSameBytes(v);
    CanonSameBytes(w);
    if ScalarBytes(v) == ScalarBytes(w) {
      hide ScalarBytes, DecodeLeaf;
      var p := Params(_ => 0, _ => true, 0, USIZE_MAX);
      var b := ScalarBytes(v).value;
      ScalarLands(p, b, Start(), v);
      ScalarLands(p, b, Start(), w);
    }
  }

  lemma CanonSameBytes(v: Value)
    requires !IsContainer(v)
    ensures ScalarBytes(CanonScalar(v)) == ScalarBytes(v)
    ensures IsInterned(CanonScalar(v)) == IsInterned(v)
  {
  }

  /** First bytes of values that take a slot: no container, terminator or pointer among them. */
  predicate InternedHead(b: seq<byte>) {
    b != [] && b[0] != TERMINATOR && b[0] < 0xA0
  }

  lemma ScalarHead(v: Value)
    requires !IsContainer(v) && ScalarBytes(v).Ok?
    ensures InternedHead(ScalarBytes(v).value)
  {
  }
}
