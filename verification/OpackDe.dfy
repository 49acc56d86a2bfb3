/**
 The OPACK decoder.

 `DecodeValue` and `DecodeGroups` say what decoding yields from a given state; the
 class `Decoder` moves an offset, a depth, a spent counter and the table in place
 and is proved against them.
 */
module OpackDe {
  import opened Bytes
  import opened OpackValue
  import opened OpackTables
  import opened OpackSer
  import opened Wrappers

  /**
   What the decoder is parametric in: the digest of its table, the UTF-8 check, the
   cost of one value slot and the budget.
   */
  datatype Params = Params(digest: Value -> nat, utf8: seq<byte> -> bool, slot: nat, budget: usize)

  /** Decoder state between two reads. */
  datatype State = State(offset: nat, table: seq<Value>, depth: nat, spent: usize)

  function Start(): State {
    State(0, [], 0, 0)
  }

  const MIN_BUDGET: nat := 0x1_0000
  const MAX_BUDGET: nat := 0x100_0000

  function Saturate(n: nat): usize {
    if n > USIZE_MAX then USIZE_MAX else n
  }

  function DefaultBudget(len: nat): usize {
    var scaled := Saturate(4 * len);
    if scaled < MIN_BUDGET then MIN_BUDGET else if scaled > MAX_BUDGET then MAX_BUDGET else scaled
  }

  // ----- Reading -------------------------------------------------------------

  function Charged(p: Params, s: State, cost: nat): (r: Result<State, Error>)
    ensures r.Ok? <==> Saturate(s.spent + cost) <= p.budget
    ensures r.Ok? ==> r.value == s.(spent := Saturate(s.spent + cost))
    ensures r.Err? ==> r.error.BudgetExceeded?
  {
    var total := Saturate(s.spent + cost);
    if total > p.budget then Err(BudgetExceeded(p.budget, s.offset)) else Ok(s.(spent := total))
  }

  function Taken(input: seq<byte>, s: State, count: nat): Result<(seq<byte>, State), Error> {
    if s.offset + count > |input| then Err(UnexpectedEof(s.offset))
    else Ok((input[s.offset..s.offset + count], s.(offset := s.offset + count)))
  }

  function TakenUint(input: seq<byte>, s: State, count: nat): Result<(u64, State), Error>
    requires count <= 8
  {
    var (b, next) :- Taken(input, s, count);
    FromLeBound(b);
    Ok((FromLe(b), next))
  }

  lemma FromLeBound(b: seq<byte>)
    requires |b| <= 8
    ensures FromLe(b) < U64_LIMIT
  {
    Pow256Monotone(|b|, 8);
    Pow256Values();
  }

  // ----- Scalars and back-references -------------------------------------------

  /** A decoded scalar, whether it takes a slot in the table, and the state after it. */
  datatype Leaf = Leaf(value: Value, record: bool, next: State)

  function DecodeString(p: Params, input: seq<byte>, s: State, start: nat, len: usize): Result<Leaf, Error> {
    var (b, next) :- Taken(input, s, len);
    if !p.utf8(b) then Err(InvalidUtf8(start))
    else
      var paid :- Charged(p, next, len);
      Ok(Leaf(Str(b), true, paid))
  }

  function DecodeData(p: Params, input: seq<byte>, s: State, len: usize): Result<Leaf, Error> {
    var (b, next) :- Taken(input, s, len);
    var paid :- Charged(p, next, len);
    Ok(Leaf(Data(b), true, paid))
  }

  function BackReference(p: Params, s: State, index: nat): Result<Leaf, Error> {
    var paid :- Charged(p, s, p.slot);
    if index < |s.table| then Ok(Leaf(s.table[index], false, paid))
    else Err(BadBackReference(index, |s.table|))
  }

  predicate IsContainerTag(tag: byte) {
    0xD0 <= tag
  }

  /** Decode what follows a tag that opens no container; `start` is where the tag was. */
  function DecodeLeaf(p: Params, input: seq<byte>, s: State, start: nat, tag: byte): Result<Leaf, Error>
    requires !IsContainerTag(tag)
  {
    if tag < 0x30 then DecodeTiny(input, s, start, tag)
    else if tag < 0x40 then DecodeNumber(input, s, start, tag)
    else DecodeSized(p, input, s, start, tag)
  }

  /** Tags below `0x30`: the one-byte values, UUIDs and timestamps. */
  function DecodeTiny(input: seq<byte>, s: State, start: nat, tag: byte): Result<Leaf, Error>
    requires tag < 0x30
  {
    if tag == 0x01 then Ok(Leaf(Bool(true), false, s))
    else if tag == 0x02 then Ok(Leaf(Bool(false), false, s))
    else if tag == 0x04 then Ok(Leaf(Null, false, s))
    else if tag == 0x05 then
      var (b, next) :- Taken(input, s, 16);
      Ok(Leaf(Uuid(b), true, next))
    else if tag == 0x06 then
      var (n, next) :- TakenUint(input, s, 8);
      Ok(Leaf(AbsoluteTime(n), true, next))
    else if 0x08 <= tag then Ok(Leaf(Uint(tag - 0x08), false, s))
    else Err(UnknownTag(tag, start))
  }

  function WidthFromTag(tag: byte): UintWidth
    requires 0x30 <= tag <= 0x33
  {
    if tag == 0x30 then One else if tag == 0x31 then Two else if tag == 0x32 then Four else Eight
  }

  /** Tags `0x30` to `0x3F`: explicit-width integers and floats. */
  function DecodeNumber(input: seq<byte>, s: State, start: nat, tag: byte): Result<Leaf, Error>
    requires 0x30 <= tag < 0x40
  {
    if tag <= 0x33 then
      var width := WidthFromTag(tag);
      var (n, next) :- TakenUint(input, s, width.ByteCount());
      Ok(Leaf(SizedUint(n, width), true, next))
    else if tag == 0x35 then
      var (b, next) :- Taken(input, s, 4);
      Pow256Values();
      Ok(Leaf(Float32(FromLe(b)), true, next))
    else if tag == 0x36 then
      var (n, next) :- TakenUint(input, s, 8);
      Ok(Leaf(Float(n), true, next))
    else Err(IntegerTooWide(tag, start))
  }

  /** Tags from `0x40` up to the containers: strings, byte strings and back-references. */
  function DecodeSized(p: Params, input: seq<byte>, s: State, start: nat, tag: byte): Result<Leaf, Error>
    requires 0x40 <= tag < 0xD0
  {
    if tag <= 0x60 then DecodeString(p, input, s, start, tag - 0x40)
    else if tag <= 0x64 then
      var (len, next) :- TakenUint(input, s, tag - 0x60);
      DecodeString(p, input, next, start, len)
    else if 0x70 <= tag <= 0x90 then DecodeData(p, input, s, tag - 0x70)
    else if 0x91 <= tag <= 0x94 then
      var (len, next) :- TakenUint(input, s, DataPrefixWidth(tag));
      DecodeData(p, input, next, len)
    else if 0xA0 <= tag <= 0xC0 then BackReference(p, s, tag - 0xA0)
    else if 0xC1 <= tag <= 0xC4 then
      var (index, next) :- TakenUint(input, s, tag - 0xC0);
      BackReference(p, next, index)
    else Err(UnknownTag(tag, start))
  }

  /** Byte-string prefixes double in width: 1, 2, 4 and 8 bytes. */
  function DataPrefixWidth(tag: byte): nat
    requires 0x91 <= tag <= 0x94
  {
    if tag == 0x91 then 1 else if tag == 0x92 then 2 else if tag == 0x93 then 4 else 8
  }

  // ----- Values ----------------------------------------------------------------

  function RecordLeaf(p: Params, leaf: Leaf): State {
    if leaf.record then leaf.next.(table := Recorded(p.digest, leaf.next.table, leaf.value)) else leaf.next
  }

  /** A leaf only ever moves forward, spends and records. */
  ghost predicate Advances(input: seq<byte>, s: State, r: Result<Leaf, Error>) {
    r.Ok? ==> s.offset <= r.value.next.offset <= |input|
              && s.spent <= r.value.next.spent
              && r.value.next.depth == s.depth
              && r.value.next.table == s.table
  }

  lemma TinyAdvances(input: seq<byte>, s: State, start: nat, tag: byte)
    requires tag < 0x30 && s.offset <= |input|
    ensures Advances(input, s, DecodeTiny(input, s, start, tag))
  {
  }

  lemma NumberAdvances(input: seq<byte>, s: State, start: nat, tag: byte)
    requires 0x30 <= tag < 0x40 && s.offset <= |input|
    ensures Advances(input, s, DecodeNumber(input, s, start, tag))
  {
  }

  lemma SizedAdvances(p: Params, input: seq<byte>, s: State, start: nat, tag: byte)
    requires 0x40 <= tag < 0xD0 && s.offset <= |input|
    ensures Advances(input, s, DecodeSized(p, input, s, start, tag))
  {
    hide FromLe;
  }

  lemma LeafAdvances(p: Params, input: seq<byte>, s: State, start: nat, tag: byte)
    requires !IsContainerTag(tag)
    requires s.offset <= |input|
    ensures Advances(input, s, DecodeLeaf(p, input, s, start, tag))
  {
    hide DecodeTiny, DecodeNumber, DecodeSized, Advances;
    if tag < 0x30 {
      TinyAdvances(input, s, start, tag);
    } else if tag < 0x40 {
      NumberAdvances(input, s, start, tag);
    } else {
      SizedAdvances(p, input, s, start, tag);
    }
  }

  function DecodeValue(p: Params, input: seq<byte>, s: State): (r: Result<(Value, State), Error>)
    ensures r.Ok? ==> s.offset < r.value.1.offset <= |input|
    ensures r.Ok? ==> r.value.1.depth == s.depth && s.spent <= r.value.1.spent
    decreases |input| - s.offset, 0
  {
    if s.offset >= |input| then Err(UnexpectedEof(s.offset))
    else
      var tag := input[s.offset];
      var body := s.(offset := s.offset + 1);
      if IsContainerTag(tag) then
        if s.depth >= MAX_DEPTH then Err(DepthLimitExceeded(MAX_DEPTH))
        else
          var group := if tag < 0xE0 then 1 else 2;
          var count := if tag % 0x10 == 0x0F then None else Some(tag % 0x10);
          var (kids, next) :- DecodeGroups(p, input, body.(depth := s.depth + 1), group, count);
          Ok((if tag < 0xE0 then Array(kids) else Dict(PairUp(kids)), next.(depth := next.depth - 1)))
      else
        LeafAdvances(p, input, body, s.offset, tag);
        var leaf :- DecodeLeaf(p, input, body, s.offset, tag);
        Ok((leaf.value, RecordLeaf(p, leaf)))
  }

  /** An array element occupies one value slot, a dictionary entry two. */
  function ElementCost(slot: nat, group: nat): nat {
    if group == 1 then slot else 2 * slot
  }

  /** Decode the one or two values of a container element. */
  function DecodeGroup(p: Params, input: seq<byte>, s: State, group: nat): (r: Result<(seq<Value>, State), Error>)
    requires group == 1 || group == 2
    ensures r.Ok? ==> s.offset < r.value.1.offset <= |input|
    ensures r.Ok? ==> |r.value.0| == group
    ensures r.Ok? ==> r.value.1.depth == s.depth && s.spent <= r.value.1.spent
    decreases |input| - s.offset, 1
  {
    var (first, s1) :- DecodeValue(p, input, s);
    if group == 1 then Ok(([first], s1))
    else
      var (second, s2) :- DecodeValue(p, input, s1);
      Ok(([first, second], s2))
  }

  /**
   Decode container elements of `group` values each, either `count` of them or up to the
   terminator; every element is paid for before its values are read.
   */
  function DecodeGroups(p: Params, input: seq<byte>, s: State, group: nat, count: Option<nat>)
    : (r: Result<(seq<Value>, State), Error>)
    requires group == 1 || group == 2
    requires s.offset <= |input|
    ensures r.Ok? ==> s.offset <= r.value.1.offset <= |input|
    ensures r.Ok? ==> group == 2 ==> |r.value.0| % 2 == 0
    ensures r.Ok? ==> r.value.1.depth == s.depth && s.spent <= r.value.1.spent
    decreases |input| - s.offset, 2
  {
    if count == Some(0) then Ok(([], s))
    else if count.None? && s.offset >= |input| then Err(UnexpectedEof(s.offset))
    else if count.None? && input[s.offset] == TERMINATOR then Ok(([], s.(offset := s.offset + 1)))
    else
      var paid :- Charged(p, s, ElementCost(p.slot, group));
      var (vals, mid) :- DecodeGroup(p, input, paid, group);
      var (rest, end) :- DecodeGroups(p, input, mid, group, Less(count));
      Ok((vals + rest, end))
  }

  /** One element fewer to go; an open-ended run stays open-ended. */
  function Less(count: Option<nat>): Option<nat>
    requires count != Some(0)
  {
    if count.None? then None else Some(count.value - 1)
  }

  /** Decode one document: the value and how many bytes it took. */
  function UnpackWith(p: Params, input: seq<byte>): Result<(Value, nat), Error> {
    var (v, s) :- DecodeValue(p, input, Start());
    Ok((v, s.offset))
  }
}
