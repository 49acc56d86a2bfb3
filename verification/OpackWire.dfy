/**
 The OPACK wire format, byte by byte.

 `Wire` writes every form a scalar or a back-reference can take in plain numbers. The encoder is
 shown to write exactly these forms and the decoder to read exactly these, so that neither can
 drift from the format together with the other.
 */
module OpackWire {
  import opened Bytes
  import opened OpackDe
  import opened OpackScalars
  import opened OpackSer
  import opened OpackTables
  import opened OpackValue
  import opened Wrappers

  // ----- Forms --------------------------------------------------------------------------------

  /** `Prefixed...` forms say how many bytes their length or index takes. */
  datatype Form =
    | Nothing
    | Flag(flag: bool)
    | Small(small: nat)
    | Sized(sized: nat, width: UintWidth)
    | Double(bits: u64)
    | Single(bits32: u32)
    | ShortText(short: Blob)
    | PrefixedText(prefix: nat, text: Blob)
    | ShortBytes(few: Blob)
    | PrefixedBytes(lengthWidth: nat, data: Blob)
    | Identifier(uuid: Uuid16)
    | Timestamp(time: u64)
    | ShortPointer(near: nat)
    | PrefixedPointer(indexWidth: nat, far: nat)

  /** How many numbers a width holds. */
  function Room(w: UintWidth): nat {
    match w
    case One => 0x100
    case Two => 0x1_0000
    case Four => 0x1_0000_0000
    case Eight => 0x1_0000_0000_0000_0000
  }

  /** Which forms there are. */
  predicate Exists(f: Form) {
    match f
    case Small(n) => n < 40
    case Sized(n, w) => n < Room(w)
    case ShortText(text) => |text| <= 32
    case PrefixedText(w, text) => 1 <= w <= 4 && |text| < Pow256(w)
    case ShortBytes(data) => |data| <= 32
    case PrefixedBytes(w, data) => (w == 1 || w == 2 || w == 4 || w == 8) && |data| < Pow256(w)
    case ShortPointer(i) => i <= 32
    case PrefixedPointer(w, i) => 1 <= w <= 4 && i < Pow256(w)
    case _ => true
  }

  /** Their bytes. */
  function Wire(f: Form): (b: seq<byte>)
    requires Exists(f)
    ensures b != []
  {
    match f
    case Nothing => [0x04]
    case Flag(flag) => if flag then [0x01] else [0x02]
    case Small(n) => [n + 8]
    case Sized(n, One) => [0x30] + Le(n, 1)
    case Sized(n, Two) => [0x31] + Le(n, 2)
    case Sized(n, Four) => [0x32] + Le(n, 4)
    case Sized(n, Eight) => [0x33] + Le(n, 8)
    case Single(bits) => [0x35] + Le(bits, 4)
    case Double(bits) => [0x36] + Le(bits, 8)
    case ShortText(text) => [0x40 + |text|] + text
    case PrefixedText(w, text) => [0x60 + w] + Le(|text|, w) + text
    case ShortBytes(data) => [0x70 + |data|] + data
    case PrefixedBytes(w, data) =>
      [if w == 1 then 0x91 else if w == 2 then 0x92 else if w == 4 then 0x93 else 0x94] + Le(|data|, w) + data
    case Identifier(uuid) => [0x05] + uuid
    case Timestamp(time) => [0x06] + Le(time, 8)
    case ShortPointer(i) => [0xA0 + i]
    case PrefixedPointer(w, i) => [0xC0 + w] + Le(i, w)
  }

  /** What a form stands for where `table` holds the scalars read so far. */
  function Meaning(table: seq<Value>, f: Form): Option<Value>
    requires Exists(f)
  {
    match f
    case Nothing => Some(Null)
    case Flag(flag) => Some(Bool(flag))
    case Small(n) => Some(Uint(n))
    case Sized(n, w) => Some(SizedUint(n, w))
    case Single(bits) => Some(Float32(bits))
    case Double(bits) => Some(Float(bits))
    case ShortText(text) => Some(Str(text))
    case PrefixedText(_, text) => Some(Str(text))
    case ShortBytes(bytes) => Some(Data(bytes))
    case PrefixedBytes(_, bytes) => Some(Data(bytes))
    case Identifier(uuid) => Some(Uuid(uuid))
    case Timestamp(time) => Some(AbsoluteTime(time))
    case ShortPointer(i) => if i < |table| then Some(table[i]) else None
    case PrefixedPointer(_, i) => if i < |table| then Some(table[i]) else None
  }

  predicate IsPointer(f: Form) {
    f.ShortPointer? || f.PrefixedPointer?
  }

  function Index(f: Form): nat
    requires IsPointer(f)
  {
    if f.ShortPointer? then f.near else f.far
  }

  predicate IsText(f: Form) {
    f.ShortText? || f.PrefixedText?
  }

  function TextOf(f: Form): Blob
    requires IsText(f)
  {
    if f.ShortText? then f.short else f.text
  }

  /** What reading a form charges, if anything: its text or bytes, or the slot a back-reference fills. */
  function Charge(p: Params, f: Form): Option<nat> {
    match f
    case ShortText(text) => Some(|text|)
    case PrefixedText(_, text) => Some(|text|)
    case ShortBytes(bytes) => Some(|bytes|)
    case PrefixedBytes(_, bytes) => Some(|bytes|)
    case ShortPointer(_) => Some(p.slot)
    case PrefixedPointer(_, _) => Some(p.slot)
    case _ => None
  }

  /** A total that stays where it is once it has reached the largest 64-bit number. */
  function Total(spent: usize, cost: nat): usize {
    if spent + cost < 0x1_0000_0000_0000_0000 then spent + cost else 0xFFFF_FFFF_FFFF_FFFF
  }

  /** Whether the value read takes an index of its own. */
  predicate TakesIndex(f: Form) {
    !f.Nothing? && !f.Flag? && !f.Small? && !IsPointer(f)
  }

  /** What the decoder makes of a form that stands where it reads. */
  function Reading(p: Params, s: State, f: Form): Result<(Value, State), Error>
    requires Exists(f)
  {
    var end, spent := s.offset + |Wire(f)|, if Charge(p, f).Some? then Total(s.spent, Charge(p, f).value) else s.spent;
    if IsText(f) && !p.utf8(TextOf(f)) then Err(InvalidUtf8(s.offset))
    else if Charge(p, f).Some? && spent > p.budget then Err(BudgetExceeded(p.budget, end))
    else
      match Meaning(s.table, f)
      case None => Err(BadBackReference(if IsPointer(f) then Index(f) else 0, |s.table|))
      case Some(v) =>
        Ok((v, s.(offset := end, spent := spent, table := if TakesIndex(f) then Recorded(p.digest, s.table, v) else s.table)))
  }

  // ----- The decoder reads every form ------------------------------------------------------------

  /** Behind the tag stands what the leaf decoder goes on with. */
  lemma TagIsRead(p: Params, input: seq<byte>, s: State, b: seq<byte>)
    requires b != [] && b[0] < 0xD0 && At(input, s.offset, b)
    ensures s.offset < |input| && input[s.offset] == b[0] && At(input, s.offset + 1, b[1..])
    ensures var leaf := DecodeLeaf(p, input, s.(offset := s.offset + 1), s.offset, b[0]);
            DecodeValue(p, input, s) == if leaf.Ok? then Ok((leaf.value.value, RecordLeaf(p, leaf.value))) else Err(leaf.error)
  {
    hide DecodeLeaf;
    assert b == [b[0]] + b[1..];
    AtSplit(input, s.offset, [b[0]], b[1..]);
  }

  predicate IsPlain(f: Form) {
    !IsText(f) && !IsPointer(f) && !f.ShortBytes? && !f.PrefixedBytes?
  }

  lemma TakenLands(input: seq<byte>, s: State, b: seq<byte>)
    requires At(input, s.offset, b)
    ensures Taken(input, s, |b|) == Ok((b, s.(offset := s.offset + |b|)))
  {
  }

  lemma NumberTaken(input: seq<byte>, s: State, tag: byte, n: nat, w: nat)
    requires w <= 8 && n < Pow256(w) && At(input, s.offset, [tag] + Le(n, w))
    ensures TakenUint(input, s.(offset := s.offset + 1), w) == Ok((n, s.(offset := s.offset + 1 + w)))
  {
    AtSplit(input, s.offset, [tag], Le(n, w));
    TakenUintLands(input, s.(offset := s.offset + 1), n, w);
  }

  lemma WidthTag(p: Params, input: seq<byte>, s: State, start: nat, n: u64, w: UintWidth, next: State)
    requires TakenUint(input, s, w.ByteCount()) == Ok((n, next))
    ensures DecodeLeaf(p, input, s, start, w.Tag()) == Ok(Leaf(SizedUint(n, w), true, next))
  {
    hide TakenUint;
  }

  lemma SizedIsRead(p: Params, input: seq<byte>, s: State, f: Form)
    requires Exists(f) && f.Sized? && At(input, s.offset, Wire(f))
    ensures DecodeValue(p, input, s) == Reading(p, s, f)
  {
    var b, n, w := Wire(f), f.sized, f.width;
    assert b == [w.Tag()] + Le(n, w.ByteCount());
    TagIsRead(p, input, s, b);
    Pow256Values();
    NumberTaken(input, s, w.Tag(), n, w.ByteCount());
    hide Recorded, DecodeValue, Le, FromLe, Pow256, At, TakenUint, Wire, DecodeLeaf;
    WidthTag(p, input, s.(offset := s.offset + 1), s.offset, n, w, s.(offset := s.offset + 1 + w.ByteCount()));
  }

  lemma EightTag(p: Params, input: seq<byte>, s: State, start: nat, n: u64, next: State)
    requires TakenUint(input, s, 8) == Ok((n, next))
    ensures DecodeLeaf(p, input, s, start, 0x36) == Ok(Leaf(Float(n), true, next))
    ensures DecodeLeaf(p, input, s, start, 0x06) == Ok(Leaf(AbsoluteTime(n), true, next))
  {
    hide TakenUint;
  }

  lemma EightAreRead(p: Params, input: seq<byte>, s: State, f: Form)
    requires Exists(f) && (f.Double? || f.Timestamp?) && At(input, s.offset, Wire(f))
    ensures DecodeValue(p, input, s) == Reading(p, s, f)
  {
    hide Recorded, DecodeValue, Le, FromLe, Pow256, At, TakenUint, DecodeLeaf;
    var n := if f.Double? then f.bits else f.time;
    TagIsRead(p, input, s, Wire(f));
    Pow256Values();
    NumberTaken(input, s, Wire(f)[0], n, 8);
    EightTag(p, input, s.(offset := s.offset + 1), s.offset, n, s.(offset := s.offset + 9));
  }

  lemma SingleIsRead(p: Params, input: seq<byte>, s: State, f: Form)
    requires Exists(f) && f.Single? && At(input, s.offset, Wire(f))
    ensures DecodeValue(p, input, s) == Reading(p, s, f)
  {
    var b := Wire(f);
    TagIsRead(p, input, s, b);
    Pow256Values();
    assert b[1..] == Le(f.bits32, 4);
    LeRoundTrip(f.bits32, 4);
    TakenLands(input, s.(offset := s.offset + 1), Le(f.bits32, 4));
    hide Recorded, DecodeValue, Le, FromLe, Pow256, At, Taken;
  }

  lemma PlainIsRead(p: Params, input: seq<byte>, s: State, f: Form)
    requires Exists(f) && IsPlain(f) && At(input, s.offset, Wire(f))
    ensures DecodeValue(p, input, s) == Reading(p, s, f)
  {
    hide DecodeValue, At, Recorded;
    if f.Sized? {
      SizedIsRead(p, input, s, f);
    } else if f.Single? {
      SingleIsRead(p, input, s, f);
    } else if f.Double? || f.Timestamp? {
      EightAreRead(p, input, s, f);
    } else {
      var b := Wire(f);
      TagIsRead(p, input, s, b);
      if f.Identifier? {
        assert b[1..] == f.uuid;
        TakenLands(input, s.(offset := s.offset + 1), f.uuid);
      }
    }
  }

  /** A length or an index of `w` bytes behind the tag. */
  lemma PrefixIsRead(input: seq<byte>, s: State, tag: byte, n: nat, w: nat, rest: seq<byte>)
    requires w <= 8 && n < Pow256(w) && At(input, s.offset, [tag] + Le(n, w) + rest)
    ensures At(input, s.offset + 1 + w, rest)
    ensures TakenUint(input, s.(offset := s.offset + 1), w) == Ok((n, s.(offset := s.offset + 1 + w)))
  {
    AtSplit(input, s.offset, [tag] + Le(n, w), rest);
    AtSplit(input, s.offset, [tag], Le(n, w));
    TakenUintLands(input, s.(offset := s.offset + 1), n, w);
  }

  lemma TextIsTaken(p: Params, input: seq<byte>, s: State, start: nat, text: Blob)
    requires At(input, s.offset, text)
    ensures DecodeString(p, input, s, start, |text|)
         == if !p.utf8(text) then Err(InvalidUtf8(start))
            else if Total(s.spent, |text|) > p.budget then Err(BudgetExceeded(p.budget, s.offset + |text|))
            else Ok(Leaf(Str(text), true, s.(offset := s.offset + |text|, spent := Total(s.spent, |text|))))
  {
    TakenLands(input, s, text);
    hide Taken;
  }

  lemma ShortTextIsRead(p: Params, input: seq<byte>, s: State, f: Form)
    requires Exists(f) && f.ShortText? && At(input, s.offset, Wire(f))
    ensures DecodeValue(p, input, s) == Reading(p, s, f)
  {
    var b := Wire(f);
    TagIsRead(p, input, s, b);
    assert b[1..] == f.short;
    TextIsTaken(p, input, s.(offset := s.offset + 1), s.offset, f.short);
    hide DecodeValue, At, Recorded, DecodeString, TakenUint, Le, Pow256, DecodeTiny, DecodeNumber, DecodeData, BackReference;
  }

  lemma WireOfText(f: Form)
    requires Exists(f) && f.PrefixedText?
    ensures Wire(f) == [0x60 + f.prefix] + Le(|f.text|, f.prefix) + f.text
  {
  }

  lemma PrefixedTextIsRead(p: Params, input: seq<byte>, s: State, f: Form)
    requires Exists(f) && f.PrefixedText? && At(input, s.offset, Wire(f))
    ensures DecodeValue(p, input, s) == Reading(p, s, f)
  {
    hide DecodeValue, At, Recorded, TakenUint, Le, Pow256, DecodeLeaf, DecodeString, Wire;
    var w := f.prefix;
    assert Wire(f) == [0x60 + w] + Le(|f.text|, w) + f.text by { WireOfText(f); }
    TagIsRead(p, input, s, Wire(f));
    PrefixIsRead(input, s, 0x60 + w, |f.text|, w, f.text);
    TextIsTaken(p, input, s.(offset := s.offset + 1 + w), s.offset, f.text);
    LongStringTag(p, input, s.(offset := s.offset + 1), s.offset, w);
  }

  lemma BytesAreTaken(p: Params, input: seq<byte>, s: State, data: Blob)
    requires At(input, s.offset, data)
    ensures DecodeData(p, input, s, |data|)
         == if Total(s.spent, |data|) > p.budget then Err(BudgetExceeded(p.budget, s.offset + |data|))
            else Ok(Leaf(Data(data), true, s.(offset := s.offset + |data|, spent := Total(s.spent, |data|))))
  {
    TakenLands(input, s, data);
    hide Taken;
  }

  lemma ShortBytesAreRead(p: Params, input: seq<byte>, s: State, f: Form)
    requires Exists(f) && f.ShortBytes? && At(input, s.offset, Wire(f))
    ensures DecodeValue(p, input, s) == Reading(p, s, f)
  {
    var b := Wire(f);
    TagIsRead(p, input, s, b);
    assert b[1..] == f.few;
    BytesAreTaken(p, input, s.(offset := s.offset + 1), f.few);
    hide DecodeValue, At, Recorded, DecodeString, TakenUint, Le, Pow256, DecodeTiny, DecodeNumber, DecodeData, BackReference;
  }

  lemma PrefixedBytesAreRead(p: Params, input: seq<byte>, s: State, f: Form)
    requires Exists(f) && f.PrefixedBytes? && At(input, s.offset, Wire(f))
    ensures DecodeValue(p, input, s) == Reading(p, s, f)
  {
    var b, w := Wire(f), f.lengthWidth;
    var tag := b[0];
    TagIsRead(p, input, s, b);
    PrefixIsRead(input, s, tag, |f.data|, w, f.data);
    assert 0x91 <= tag <= 0x94 && DataPrefixWidth(tag) == w && |b| == 1 + w + |f.data|;
    BytesAreTaken(p, input, s.(offset := s.offset + 1 + w), f.data);
    hide DecodeValue, At, Recorded, TakenUint, Le, Pow256, DecodeLeaf, DecodeData, Wire;
    LongDataTag(p, input, s.(offset := s.offset + 1), s.offset, tag);
  }

  lemma ShortPointerIsRead(p: Params, input: seq<byte>, s: State, f: Form)
    requires Exists(f) && f.ShortPointer? && At(input, s.offset, Wire(f))
    ensures DecodeValue(p, input, s) == Reading(p, s, f)
  {
    TagIsRead(p, input, s, Wire(f));
    hide DecodeValue, At, Recorded, DecodeString, TakenUint, Le, Pow256, DecodeTiny, DecodeNumber, DecodeData;
  }

  lemma LongPointerTag(p: Params, input: seq<byte>, s: State, start: nat, w: nat)
    requires 1 <= w <= 4 && TakenUint(input, s, w).Ok?
    ensures var (index, next) := TakenUint(input, s, w).value;
            DecodeLeaf(p, input, s, start, 0xC0 + w) == BackReference(p, next, index)
  {
    hide TakenUint, DecodeString, DecodeData, DecodeTiny, DecodeNumber, BackReference;
  }

  lemma WireOfPointer(f: Form)
    requires Exists(f) && f.PrefixedPointer?
    ensures Wire(f) == [0xC0 + f.indexWidth] + Le(f.far, f.indexWidth)
  {
  }

  lemma PrefixedPointerIsRead(p: Params, input: seq<byte>, s: State, f: Form)
    requires Exists(f) && f.PrefixedPointer? && At(input, s.offset, Wire(f))
    ensures DecodeValue(p, input, s) == Reading(p, s, f)
  {
    hide DecodeValue, At, Recorded, TakenUint, Le, Pow256, DecodeLeaf, Wire;
    var w := f.indexWidth;
    assert Wire(f) == [0xC0 + w] + Le(f.far, w) by { WireOfPointer(f); }
    TagIsRead(p, input, s, Wire(f));
    NumberTaken(input, s, 0xC0 + w, f.far, w);
    LongPointerTag(p, input, s.(offset := s.offset + 1), s.offset, w);
  }

  /**
   Wherever a form stands, whatever follows it and whatever the budget, the decoder reads it as
   what it means, or fails with the first of these: a text that is none, the budget, an index
   that is not taken yet.
   */
  lemma FormIsRead(p: Params, input: seq<byte>, s: State, f: Form)
    requires Exists(f) && At(input, s.offset, Wire(f))
    ensures DecodeValue(p, input, s) == Reading(p, s, f)
  {
    hide DecodeValue, Reading, At, Wire, Exists;
    if f.ShortText? {
      ShortTextIsRead(p, input, s, f);
    } else if f.PrefixedText? {
      PrefixedTextIsRead(p, input, s, f);
    } else if f.ShortPointer? {
      ShortPointerIsRead(p, input, s, f);
    } else if f.PrefixedPointer? {
      PrefixedPointerIsRead(p, input, s, f);
    } else if f.ShortBytes? {
      ShortBytesAreRead(p, input, s, f);
    } else if f.PrefixedBytes? {
      PrefixedBytesAreRead(p, input, s, f);
    } else {
      PlainIsRead(p, input, s, f);
    }
  }

  // ----- And nothing else -------------------------------------------------------------------------

  lemma TakenStands(input: seq<byte>, s: State, count: nat)
    requires Taken(input, s, count).Ok?
    ensures At(input, s.offset, Taken(input, s, count).value.0) && |Taken(input, s, count).value.0| == count
    ensures Taken(input, s, count).value.1 == s.(offset := s.offset + count)
  {
  }

  lemma UintStands(input: seq<byte>, s: State, w: nat)
    requires w <= 8 && TakenUint(input, s, w).Ok?
    ensures var (n, next) := TakenUint(input, s, w).value;
            n < Pow256(w) && next == s.(offset := s.offset + w) && At(input, s.offset, Le(n, w))
  {
    TakenStands(input, s, w);
    FromLeRoundTrip(Taken(input, s, w).value.0);
  }

  /** A tag and what stands behind it. */
  lemma BehindTag(input: seq<byte>, offset: nat, b: seq<byte>)
    requires offset < |input| && At(input, offset + 1, b)
    ensures At(input, offset, [input[offset]] + b)
  {
    assert input[offset..offset + 1] == [input[offset]];
    AtJoin(input, offset, [input[offset]], b);
  }

  lemma TinyHasForm(input: seq<byte>, s: State) returns (f: Form)
    requires s.offset < |input| && input[s.offset] < 0x30
    requires DecodeTiny(input, s.(offset := s.offset + 1), s.offset, input[s.offset]).Ok?
    ensures Exists(f) && At(input, s.offset, Wire(f))
  {
    hide At, TakenUint, Taken, Le;
    var tag, body := input[s.offset], s.(offset := s.offset + 1);
    assert At(input, s.offset + 1, []) by { NothingStands(input, s.offset + 1); }
    BehindTag(input, s.offset, []);
    assert [tag] + [] == [tag];
    if tag == 0x01 || tag == 0x02 {
      f := Flag(tag == 0x01);
    } else if tag == 0x04 {
      f := Nothing;
    } else if tag == 0x05 {
      TakenStands(input, body, 16);
      f := Identifier(Taken(input, body, 16).value.0);
      BehindTag(input, s.offset, f.uuid);
    } else if tag == 0x06 {
      UintStands(input, body, 8);
      f := Timestamp(TakenUint(input, body, 8).value.0);
      BehindTag(input, s.offset, Le(f.time, 8));
    } else {
      f := Small(tag - 8);
    }
  }

  lemma NothingStands(input: seq<byte>, offset: nat)
    requires offset <= |input|
    ensures At(input, offset, [])
  {
  }

  lemma NumberHasForm(input: seq<byte>, s: State) returns (f: Form)
    requires s.offset < |input| && 0x30 <= input[s.offset] < 0x40
    requires DecodeNumber(input, s.(offset := s.offset + 1), s.offset, input[s.offset]).Ok?
    ensures Exists(f) && At(input, s.offset, Wire(f))
  {
    hide At, TakenUint, Taken, Le, FromLe, Pow256;
    Pow256Values();
    var tag, body := input[s.offset], s.(offset := s.offset + 1);
    if tag <= 0x33 {
      var width := WidthFromTag(tag);
      UintStands(input, body, width.ByteCount());
      f := Sized(TakenUint(input, body, width.ByteCount()).value.0, width);
      BehindTag(input, s.offset, Le(f.sized, width.ByteCount()));
    } else if tag == 0x35 {
      TakenStands(input, body, 4);
      var b := Taken(input, body, 4).value.0;
      FromLeRoundTrip(b);
      f := Single(FromLe(b));
      BehindTag(input, s.offset, b);
    } else {
      UintStands(input, body, 8);
      f := Double(TakenUint(input, body, 8).value.0);
      BehindTag(input, s.offset, Le(f.bits, 8));
    }
  }

  /** A prefix and the payload it measures. */
  lemma BehindPrefix(input: seq<byte>, s: State, w: nat, count: nat)
    requires s.offset < |input| && 1 <= w <= 8
    requires TakenUint(input, s.(offset := s.offset + 1), w).Ok?
    requires TakenUint(input, s.(offset := s.offset + 1), w).value.0 == count
    requires s.offset + 1 + w + count <= |input|
    ensures count < Pow256(w)
    ensures At(input, s.offset, [input[s.offset]] + Le(count, w) + input[s.offset + 1 + w..s.offset + 1 + w + count])
  {
    var payload := input[s.offset + 1 + w..s.offset + 1 + w + count];
    UintStands(input, s.(offset := s.offset + 1), w);
    BehindTag(input, s.offset, Le(count, w));
    AtJoin(input, s.offset, [input[s.offset]] + Le(count, w), payload);
  }

  lemma PayloadFits(p: Params, input: seq<byte>, s: State, start: nat, len: usize)
    requires DecodeString(p, input, s, start, len).Ok? || DecodeData(p, input, s, len).Ok?
    ensures s.offset + len <= |input| && At(input, s.offset, input[s.offset..s.offset + len])
  {
  }

  lemma ShortPayloadTaken(p: Params, input: seq<byte>, s: State, start: nat, tag: byte)
    requires 0x40 <= tag <= 0x60 || 0x70 <= tag <= 0x90
    requires DecodeSized(p, input, s, start, tag).Ok?
    ensures s.offset + (tag - if tag <= 0x60 then 0x40 else 0x70) <= |input|
  {
    hide TakenUint, BackReference;
  }

  lemma ShortPayloadHasForm(p: Params, input: seq<byte>, s: State) returns (f: Form)
    requires s.offset < |input| && (0x40 <= input[s.offset] <= 0x60 || 0x70 <= input[s.offset] <= 0x90)
    requires DecodeSized(p, input, s.(offset := s.offset + 1), s.offset, input[s.offset]).Ok?
    ensures Exists(f) && At(input, s.offset, Wire(f))
  {
    hide DecodeSized;
    var tag, o := input[s.offset], s.offset;
    ShortPayloadTaken(p, input, s.(offset := o + 1), o, tag);
    var payload := input[o + 1..o + 1 + (tag - if tag <= 0x60 then 0x40 else 0x70)];
    BehindTag(input, o, payload);
    f := if tag <= 0x60 then ShortText(payload) else ShortBytes(payload);
  }

  /** How many bytes of length stand behind a tag that has any. */
  function PrefixWidth(tag: byte): (w: nat)
    requires 0x61 <= tag <= 0x64 || 0x91 <= tag <= 0x94
    ensures 1 <= w <= 8
  {
    if tag <= 0x64 then tag - 0x60 else if tag == 0x91 then 1 else if tag == 0x92 then 2 else if tag == 0x93 then 4 else 8
  }

  lemma LongPayloadTaken(p: Params, input: seq<byte>, s: State, start: nat, tag: byte)
    requires 0x61 <= tag <= 0x64 || 0x91 <= tag <= 0x94
    requires DecodeSized(p, input, s, start, tag).Ok?
    ensures TakenUint(input, s, PrefixWidth(tag)).Ok?
    ensures var (len, next) := TakenUint(input, s, PrefixWidth(tag)).value; next.offset + len <= |input|
  {
    hide TakenUint, BackReference, DecodeString, DecodeData;
    var r := TakenUint(input, s, PrefixWidth(tag));
    if r.Ok? {
      PayloadFits(p, input, r.value.1, start, r.value.0);
    }
  }

  lemma FormOfPayload(tag: byte, payload: Blob) returns (f: Form)
    requires 0x61 <= tag <= 0x64 || 0x91 <= tag <= 0x94
    requires |payload| < Pow256(PrefixWidth(tag))
    ensures Exists(f) && Wire(f) == [tag] + Le(|payload|, PrefixWidth(tag)) + payload
  {
    hide Le, Pow256;
    var w := PrefixWidth(tag);
    f := if tag <= 0x64 then PrefixedText(w, payload) else PrefixedBytes(w, payload);
  }

  lemma LongPayloadHasForm(p: Params, input: seq<byte>, s: State) returns (f: Form)
    requires s.offset < |input| && (0x61 <= input[s.offset] <= 0x64 || 0x91 <= input[s.offset] <= 0x94)
    requires DecodeSized(p, input, s.(offset := s.offset + 1), s.offset, input[s.offset]).Ok?
    ensures Exists(f) && At(input, s.offset, Wire(f))
  {
    hide DecodeSized, At, TakenUint, Le, Pow256, Wire, Exists, PrefixWidth;
    var tag, o := input[s.offset], s.offset;
    var body, w := s.(offset := o + 1), PrefixWidth(tag);
    LongPayloadTaken(p, input, body, o, tag);
    UintStands(input, body, w);
    var len := TakenUint(input, body, w).value.0;
    BehindPrefix(input, s, w, len);
    f := FormOfPayload(tag, input[o + 1 + w..o + 1 + w + len]);
  }

  lemma NothingHasNoForm(p: Params, input: seq<byte>, s: State, start: nat, tag: byte)
    requires 0x40 <= tag < 0xA0 && DecodeSized(p, input, s, start, tag).Ok?
    ensures 0x40 <= tag <= 0x64 || 0x70 <= tag <= 0x94
  {
    hide TakenUint, BackReference, DecodeString, DecodeData;
  }

  lemma ShortPointerHasForm(input: seq<byte>, s: State)
    requires s.offset < |input| && 0xA0 <= input[s.offset] <= 0xC0
    ensures At(input, s.offset, Wire(ShortPointer(input[s.offset] - 0xA0)))
  {
    var tag := input[s.offset];
    NothingStands(input, s.offset + 1);
    BehindTag(input, s.offset, []);
    assert [tag] + [] == Wire(ShortPointer(tag - 0xA0));
  }

  lemma LongPointerTaken(p: Params, input: seq<byte>, s: State, start: nat, tag: byte)
    requires 0xC1 <= tag < 0xD0 && DecodeSized(p, input, s, start, tag).Ok?
    ensures tag <= 0xC4 && TakenUint(input, s, tag - 0xC0).Ok?
  {
    hide TakenUint, DecodeString, DecodeData;
  }

  lemma PointerHasForm(p: Params, input: seq<byte>, s: State) returns (f: Form)
    requires s.offset < |input| && 0xA0 <= input[s.offset] < 0xD0
    requires DecodeSized(p, input, s.(offset := s.offset + 1), s.offset, input[s.offset]).Ok?
    ensures Exists(f) && At(input, s.offset, Wire(f))
  {
    hide At, TakenUint, Le, Pow256, DecodeSized;
    var tag, body := input[s.offset], s.(offset := s.offset + 1);
    if tag <= 0xC0 {
      ShortPointerHasForm(input, s);
      f := ShortPointer(tag - 0xA0);
    } else {
      LongPointerTaken(p, input, body, s.offset, tag);
      var w := tag - 0xC0;
      UintStands(input, body, w);
      f := PrefixedPointer(w, TakenUint(input, body, w).value.0);
      BehindTag(input, s.offset, Le(f.far, w));
    }
  }

  ghost predicate FormAhead(p: Params, input: seq<byte>, s: State, f: Form) {
    Exists(f) && At(input, s.offset, Wire(f)) && Reading(p, s, f).Ok?
  }

  /** Short of containers, the decoder accepts exactly the forms. */
  lemma ReadsIffForm(p: Params, input: seq<byte>, s: State)
    requires s.offset < |input| && input[s.offset] < 0xD0
    ensures DecodeValue(p, input, s).Ok? <==> exists f :: FormAhead(p, input, s, f)
  {
    hide DecodeTiny, DecodeNumber, DecodeSized, Reading, Exists, At, Wire;
    if DecodeValue(p, input, s).Ok? {
      var f: Form;
      if input[s.offset] < 0x30 {
        f := TinyHasForm(input, s);
      } else if input[s.offset] < 0x40 {
        f := NumberHasForm(input, s);
      } else if input[s.offset] < 0xA0 {
        NothingHasNoForm(p, input, s.(offset := s.offset + 1), s.offset, input[s.offset]);
        if input[s.offset] <= 0x60 || 0x70 <= input[s.offset] <= 0x90 {
          f := ShortPayloadHasForm(p, input, s);
        } else {
          f := LongPayloadHasForm(p, input, s);
        }
      } else {
        f := PointerHasForm(p, input, s);
      }
      FormIsRead(p, input, s, f);
      assert FormAhead(p, input, s, f);
    }
    forall f | FormAhead(p, input, s, f)
      ensures DecodeValue(p, input, s).Ok?
    {
      FormIsRead(p, input, s, f);
    }
  }

  predicate StandsForNothing(tag: byte) {
    || tag == 0x00 || tag == 0x03 || tag == 0x07
    || 0x65 <= tag <= 0x6F || 0x95 <= tag <= 0x9F || 0xC5 <= tag <= 0xCF
  }

  predicate StandsForTooMuch(tag: byte) {
    tag == 0x34 || 0x37 <= tag <= 0x3F
  }

  /** Exactly these tags are refused for what they are. */
  lemma RefusedTags(p: Params, input: seq<byte>, s: State)
    requires s.offset < |input| && input[s.offset] < 0xD0
    ensures var tag, r := input[s.offset], DecodeValue(p, input, s);
            && (StandsForNothing(tag) <==> r.Err? && r.error.UnknownTag?)
            && (StandsForTooMuch(tag) <==> r.Err? && r.error.IntegerTooWide?)
            && (StandsForNothing(tag) ==> r == Err(UnknownTag(tag, s.offset)))
            && (StandsForTooMuch(tag) ==> r == Err(IntegerTooWide(tag, s.offset)))
  {
    hide FromLe, Recorded;
  }

  // ----- Input that ends too early ------------------------------------------------------------------

  /** How many bytes of length stand between the tag and the payload. */
  function LengthBytes(f: Form): nat {
    match f
    case PrefixedText(w, _) => w
    case PrefixedBytes(w, _) => w
    case _ => 0
  }

  /** The input ends after `k` bytes of a form. */
  ghost predicate CutAfter(input: seq<byte>, offset: nat, f: Form, k: nat) {
    Exists(f) && 0 < k < |Wire(f)| && At(input, offset, Wire(f)[..k]) && offset + k == |input|
  }

  lemma CutTag(p: Params, input: seq<byte>, s: State, f: Form, k: nat)
    requires CutAfter(input, s.offset, f, k)
    ensures s.offset < |input| && input[s.offset] == Wire(f)[0] < 0xD0
    ensures var leaf := DecodeLeaf(p, input, s.(offset := s.offset + 1), s.offset, Wire(f)[0]);
            leaf.Err? ==> DecodeValue(p, input, s) == Err(leaf.error)
  {
    hide DecodeLeaf, Le, Pow256;
    TagIsRead(p, input, s, Wire(f)[..k]);
  }

  /** A cut prefix, or a whole one with a cut payload. */
  lemma CutPrefix(input: seq<byte>, s: State, b: seq<byte>, tag: byte, n: nat, w: nat, payload: seq<byte>, k: nat)
    requires 1 <= w <= 8 && n < Pow256(w) && b == [tag] + Le(n, w) + payload
    requires 0 < k < |b| && At(input, s.offset, b[..k]) && s.offset + k == |input|
    ensures var r := TakenUint(input, s.(offset := s.offset + 1), w);
            if k < 1 + w then r == Err(UnexpectedEof(s.offset + 1)) else r == Ok((n, s.(offset := s.offset + 1 + w)))
  {
    if k >= 1 + w {
      assert b[..k] == [tag] + Le(n, w) + payload[..k - 1 - w];
      PrefixIsRead(input, s, tag, n, w, payload[..k - 1 - w]);
    }
  }

  lemma PlainCutShort(p: Params, input: seq<byte>, s: State, f: Form, k: nat)
    requires CutAfter(input, s.offset, f, k) && IsPlain(f)
    ensures DecodeValue(p, input, s) == Err(UnexpectedEof(s.offset + 1))
  {
    CutTag(p, input, s, f, k);
    hide DecodeValue, Le, Pow256, FromLe, At;
  }

  /** A payload that is not all there is not looked at. */
  lemma PayloadCut(p: Params, input: seq<byte>, s: State, start: nat, len: usize)
    requires s.offset + len > |input|
    ensures DecodeString(p, input, s, start, len) == Err(UnexpectedEof(s.offset))
    ensures DecodeData(p, input, s, len) == Err(UnexpectedEof(s.offset))
  {
  }

  lemma ShortPayloadCut(p: Params, input: seq<byte>, s: State, f: Form, k: nat)
    requires CutAfter(input, s.offset, f, k) && (f.ShortText? || f.ShortBytes?)
    ensures DecodeValue(p, input, s) == Err(UnexpectedEof(s.offset + 1))
  {
    CutTag(p, input, s, f, k);
    hide DecodeValue, At, TakenUint, DecodeTiny, DecodeNumber, DecodeString, DecodeData, BackReference;
    PayloadCut(p, input, s.(offset := s.offset + 1), s.offset, |Wire(f)| - 1);
  }

  /** A prefixed form as its tag, its length and its payload. */
  lemma WireOfLong(f: Form)
    requires Exists(f) && (f.PrefixedText? || f.PrefixedBytes?)
    ensures var tag, w, payload := Wire(f)[0], LengthBytes(f), if f.PrefixedText? then f.text else f.data;
            && (0x61 <= tag <= 0x64 || 0x91 <= tag <= 0x94) && PrefixWidth(tag) == w && |payload| < Pow256(w)
            && (tag <= 0x64 <==> f.PrefixedText?)
            && Wire(f) == [tag] + Le(|payload|, w) + payload
  {
    hide Le, Pow256;
  }

  lemma LongTagIsRead(p: Params, input: seq<byte>, s: State, start: nat, tag: byte)
    requires 0x61 <= tag <= 0x64 || 0x91 <= tag <= 0x94
    ensures var r := TakenUint(input, s, PrefixWidth(tag));
            DecodeLeaf(p, input, s, start, tag)
            == if r.Err? then Err(r.error)
               else if tag <= 0x64 then DecodeString(p, input, r.value.1, start, r.value.0)
               else DecodeData(p, input, r.value.1, r.value.0)
  {
    hide TakenUint, DecodeString, DecodeData, DecodeTiny, DecodeNumber, BackReference;
  }

  lemma LongPayloadCut(p: Params, input: seq<byte>, s: State, f: Form, k: nat)
    requires CutAfter(input, s.offset, f, k) && (f.PrefixedText? || f.PrefixedBytes?)
    ensures DecodeValue(p, input, s) == Err(UnexpectedEof(s.offset + 1 + if k < 1 + LengthBytes(f) then 0 else LengthBytes(f)))
  {
    hide DecodeValue, Le, Pow256, At, TakenUint, DecodeLeaf, DecodeString, DecodeData, Wire;
    var tag, w, payload := Wire(f)[0], LengthBytes(f), if f.PrefixedText? then f.text else f.data;
    CutTag(p, input, s, f, k);
    WireOfLong(f);
    CutPrefix(input, s, Wire(f), tag, |payload|, w, payload, k);
    LongTagIsRead(p, input, s.(offset := s.offset + 1), s.offset, tag);
    if k >= 1 + w {
      PayloadCut(p, input, s.(offset := s.offset + 1 + w), s.offset, |payload|);
    }
  }

  lemma LongPointerCut(p: Params, input: seq<byte>, s: State, start: nat, w: nat)
    requires 1 <= w <= 4 && TakenUint(input, s, w).Err?
    ensures DecodeLeaf(p, input, s, start, 0xC0 + w) == Err(TakenUint(input, s, w).error)
  {
    hide TakenUint, DecodeString, DecodeData, DecodeTiny, DecodeNumber, BackReference;
  }

  lemma ShortPointerWhole(f: Form)
    requires Exists(f) && f.ShortPointer?
    ensures |Wire(f)| == 1
  {
  }

  lemma PointerCutShort(p: Params, input: seq<byte>, s: State, f: Form, k: nat)
    requires CutAfter(input, s.offset, f, k) && IsPointer(f)
    ensures DecodeValue(p, input, s) == Err(UnexpectedEof(s.offset + 1))
  {
    hide DecodeValue, Le, Pow256, At, TakenUint, DecodeLeaf, Wire;
    if f.ShortPointer? {
      ShortPointerWhole(f);
    } else {
      var w := f.indexWidth;
      CutTag(p, input, s, f, k);
      WireOfPointer(f);
      assert Wire(f) == [0xC0 + w] + Le(f.far, w) + [];
      CutPrefix(input, s, Wire(f), 0xC0 + w, f.far, w, [], k);
      LongPointerCut(p, input, s.(offset := s.offset + 1), s.offset, w);
    }
  }

  /** Input that ends inside a form is reported where the decoder began to read what is missing. */
  lemma FormCutShort(p: Params, input: seq<byte>, s: State, f: Form, k: nat)
    requires CutAfter(input, s.offset, f, k)
    ensures DecodeValue(p, input, s) == Err(UnexpectedEof(s.offset + 1 + if k < 1 + LengthBytes(f) then 0 else LengthBytes(f)))
  {
    hide DecodeValue, CutAfter;
    if f.PrefixedText? || f.PrefixedBytes? {
      LongPayloadCut(p, input, s, f, k);
    } else if f.ShortText? || f.ShortBytes? {
      ShortPayloadCut(p, input, s, f, k);
    } else if IsPointer(f) {
      PointerCutShort(p, input, s, f, k);
    } else {
      PlainCutShort(p, input, s, f, k);
    }
  }

  // ----- The encoder writes them --------------------------------------------------------------------

  /** The form the encoder gives a scalar, or why it gives it none. */
  function FormOf(v: Value): Result<Form, Error>
    requires !IsContainer(v)
  {
    match v
    case Null => Ok(Nothing)
    case Bool(flag) => Ok(Flag(flag))
    case Uint(n) =>
      Ok(if n < 40 then Small(n)
         else Form.Sized(n, if n < 256 then One else if n < 65536 then Two else if n < 4294967296 then Four else Eight))
    case SizedUint(n, w) => if Exists(Form.Sized(n, w)) then Ok(Form.Sized(n, w)) else Err(SizedIntegerOverflow(n, w.ByteCount()))
    case Float(bits) => Ok(Double(bits))
    case Float32(bits) => Ok(Single(bits))
    case Str(text) =>
      if |text| <= 32 then Ok(ShortText(text))
      else if |text| < 256 then Ok(PrefixedText(1, text))
      else if |text| < 65536 then Ok(PrefixedText(2, text))
      else if |text| < 16777216 then Ok(PrefixedText(3, text))
      else if |text| < 4294967296 then Ok(PrefixedText(4, text))
      else Err(ValueTooLong(|text|))
    case Data(data) =>
      Ok(if |data| <= 32 then ShortBytes(data)
         else PrefixedBytes(if |data| < 256 then 1 else if |data| < 65536 then 2 else if |data| < 4294967296 then 4 else 8, data))
    case Uuid(uuid) => Ok(Identifier(uuid))
    case AbsoluteTime(_) => Err(UnpackOnlyTag(6))
  }

  lemma FormOfExists(v: Value)
    requires !IsContainer(v) && FormOf(v).Ok?
    ensures Exists(FormOf(v).value)
  {
    Pow256Values();
  }

  lemma {:induction false} ScalarIsWritten(v: Value)
    requires !IsContainer(v)
    ensures FormOf(v).Ok? ==> Exists(FormOf(v).value) && ScalarBytes(v) == Ok(Wire(FormOf(v).value))
    ensures FormOf(v).Err? ==> ScalarBytes(v) == Err(FormOf(v).error)
    ensures FormOf(v).Ok? ==> IsInterned(v) == TakesIndex(FormOf(v).value)
  {
    hide Le, Pow256;
    Pow256Values();
    if FormOf(v).Ok? {
      FormOfExists(v);
    }
  }

  /** Back-references are written up to index 65,535, in the shortest form there is. */
  lemma PointerIsWritten(i: nat)
    ensures i < 65536 ==> Exists(if i <= 32 then ShortPointer(i) else PrefixedPointer(if i < 256 then 1 else 2, i))
    ensures PointerBytes(i)
         == if i < 65536 then Some(Wire(if i <= 32 then ShortPointer(i) else PrefixedPointer(if i < 256 then 1 else 2, i)))
            else None
  {
    Pow256Values();
    hide Le, Pow256;
  }
}
