/** Values that came off the wire can be put back on it, and how the default budget treats them. */
module OpackRelay {
  import opened Bytes
  import opened OpackValue
  import opened OpackTables
  import opened OpackSer
  import opened OpackDe
  import opened OpackScalars
  import opened OpackLockstep
  import opened OpackBudget
  import opened OpackRoundTrip
  import opened Wrappers

  // ----- Decoded values are canonical and packable ----------------------------------------

  /** What every decoded scalar satisfies. */
  ghost predicate ScalarArrived(p: Params, v: Value) {
    && !IsContainer(v)
    && CanonScalar(v) == v
    && (v.AbsoluteTime? || ScalarPackable(v))
    && (v.Str? ==> p.utf8(v.text))
  }

  ghost predicate Arrived(p: Params, v: Value)
    decreases Size(v), 0
  {
    if IsContainer(v) then ArrivedItems(p, Children(v)) else ScalarArrived(p, v)
  }

  ghost predicate ArrivedItems(p: Params, items: seq<Value>)
    decreases SizeItems(items), 1
  {
    items == [] || (Arrived(p, items[0]) && ArrivedItems(p, items[1..]))
  }

  ghost predicate TableArrived(p: Params, values: seq<Value>) {
    forall i :: 0 <= i < |values| ==> ScalarArrived(p, values[i])
  }

  predicate HasTimestamp(v: Value)
    decreases Size(v), 0
  {
    if IsContainer(v) then ItemsHaveTimestamp(Children(v)) else v.AbsoluteTime?
  }

  predicate ItemsHaveTimestamp(items: seq<Value>)
    decreases SizeItems(items), 1
  {
    items != [] && (HasTimestamp(items[0]) || ItemsHaveTimestamp(items[1..]))
  }

  lemma NumberArrives(p: Params, input: seq<byte>, s: State, start: nat, tag: byte)
    requires 0x30 <= tag < 0x40 && DecodeNumber(input, s, start, tag).Ok?
    ensures ScalarArrived(p, DecodeNumber(input, s, start, tag).value.value)
  {
    if tag <= 0x33 {
      var b := Taken(input, s, WidthFromTag(tag).ByteCount()).value.0;
      assert FromLe(b) < Pow256(|b|);
    }
  }

  lemma SizedArrives(p: Params, input: seq<byte>, s: State, start: nat, tag: byte)
    requires 0x40 <= tag < 0xD0 && DecodeSized(p, input, s, start, tag).Ok?
    requires TableArrived(p, s.table)
    ensures ScalarArrived(p, DecodeSized(p, input, s, start, tag).value.value)
  {
    if 0x60 < tag <= 0x64 {
      var b := Taken(input, s, tag - 0x60).value.0;
      Pow256Monotone(|b|, 4);
      Pow256Values();
    }
  }

  lemma LeafArrives(p: Params, input: seq<byte>, s: State, start: nat, tag: byte)
    requires !IsContainerTag(tag) && s.offset <= |input|
    requires DecodeLeaf(p, input, s, start, tag).Ok?
    requires TableArrived(p, s.table)
    ensures var leaf := DecodeLeaf(p, input, s, start, tag).value;
            ScalarArrived(p, leaf.value) && TableArrived(p, RecordLeaf(p, leaf).table)
  {
    hide Recorded, DecodeNumber, DecodeSized;
    LeafAdvances(p, input, s, start, tag);
    if 0x30 <= tag < 0x40 {
      NumberArrives(p, input, s, start, tag);
    } else if 0x40 <= tag {
      SizedArrives(p, input, s, start, tag);
    }
  }

  lemma {:induction false} ArrivedItemsSplit(p: Params, a: seq<Value>, b: seq<Value>)
    ensures ArrivedItems(p, a + b) == (ArrivedItems(p, a) && ArrivedItems(p, b))
    decreases |a|
  {
    hide Arrived;
    if a == [] {
      assert a + b == b;
    } else {
      assert (a + b)[1..] == a[1..] + b && (a + b)[0] == a[0];
      ArrivedItemsSplit(p, a[1..], b);
    }
  }

  lemma {:induction false} ValueArrives(p: Params, input: seq<byte>, s: State)
    requires DecodeValue(p, input, s).Ok? && TableArrived(p, s.table)
    ensures var (v, end) := DecodeValue(p, input, s).value; Arrived(p, v) && TableArrived(p, end.table)
    decreases |input| - s.offset, 0
  {
    hide DecodeLeaf, DecodeGroups, TableArrived;
    var tag := input[s.offset];
    var body := s.(offset := s.offset + 1);
    if IsContainerTag(tag) {
      var group := if tag < 0xE0 then 1 else 2;
      var count := if tag % 0x10 == 0x0F then None else Some(tag % 0x10);
      GroupsArrive(p, input, body.(depth := s.depth + 1), group, count);
      if group == 2 {
        FlattenPairUp(DecodeGroups(p, input, body.(depth := s.depth + 1), group, count).value.0);
      }
    } else {
      LeafArrives(p, input, body, s.offset, tag);
    }
  }

  lemma {:induction false} GroupArrives(p: Params, input: seq<byte>, s: State, group: nat)
    requires group == 1 || group == 2
    requires DecodeGroup(p, input, s, group).Ok? && TableArrived(p, s.table)
    ensures var (vals, end) := DecodeGroup(p, input, s, group).value;
            ArrivedItems(p, vals) && TableArrived(p, end.table)
    decreases |input| - s.offset, 1
  {
    hide DecodeValue, TableArrived, Arrived;
    ValueArrives(p, input, s);
    var (first, s1) := DecodeValue(p, input, s).value;
    assert [first][1..] == [];
    assert ArrivedItems(p, [first]);
    if group == 2 {
      ValueArrives(p, input, s1);
      var (second, s2) := DecodeValue(p, input, s1).value;
      assert [second][1..] == [];
      assert ArrivedItems(p, [second]);
      ArrivedItemsSplit(p, [first], [second]);
      assert [first] + [second] == [first, second];
    }
  }

  lemma {:induction false} GroupsArrive(p: Params, input: seq<byte>, s: State, group: nat, count: Option<nat>)
    requires (group == 1 || group == 2) && s.offset <= |input|
    requires DecodeGroups(p, input, s, group, count).Ok? && TableArrived(p, s.table)
    ensures var (vals, end) := DecodeGroups(p, input, s, group, count).value;
            ArrivedItems(p, vals) && TableArrived(p, end.table)
    decreases |input| - s.offset, 2
  {
    hide DecodeGroup, TableArrived, Arrived, ElementCost, Less;
    if count == Some(0) || (count.None? && input[s.offset] == TERMINATOR) {
    } else {
      hide ArrivedItems;
      var paid := Charged(p, s, ElementCost(p.slot, group)).value;
      GroupArrives(p, input, paid, group);
      var (vals, mid) := DecodeGroup(p, input, paid, group).value;
      GroupsArrive(p, input, mid, group, Less(count));
      var (rest, end) := DecodeGroups(p, input, mid, group, Less(count)).value;
      ArrivedItemsSplit(p, vals, rest);
    }
  }

  lemma {:induction false} ArrivedMeans(p: Params, v: Value)
    requires Arrived(p, v)
    ensures Canon(v) == v && Textual(p, v)
    ensures ScalarsPackable(v) <==> !HasTimestamp(v)
    decreases Size(v), 0
  {
    if IsContainer(v) {
      ArrivedItemsMean(p, Children(v));
      RebuildChildren(v, Children(v));
    }
  }

  lemma {:induction false} ArrivedItemsMean(p: Params, items: seq<Value>)
    requires ArrivedItems(p, items)
    ensures CanonItems(items) == items && TextualItems(p, items)
    ensures ItemsPackable(items) <==> !ItemsHaveTimestamp(items)
    decreases SizeItems(items), 1
  {
    hide Arrived, Canon, Textual, ScalarsPackable, HasTimestamp;
    if items == [] {
    } else {
      ArrivedMeans(p, items[0]);
      ArrivedItemsMean(p, items[1..]);
      assert items == [items[0]] + items[1..];
    }
  }

  /** Whether a packed value is read back as it was under the default budget for its size. */
  ghost predicate ReadsByDefault(p: Params, v: Value, packed: seq<byte>) {
    UnpackWith(p.(budget := DefaultBudget(|packed|)), packed) == Ok((v, |packed|))
  }

  /**
   Whatever was decoded, from any input and under any budget, is canonical and can be packed
   again unless it holds a timestamp. The new document decodes to the same value under exactly
   those budgets its own cost fits, and so by default exactly if it costs no more than the
   default budget for its size; that the old one was affordable does not decide it.
   */
  lemma DecodedSurvives(p: Params, input: seq<byte>)
    requires SeparatesZeros(p.digest) && UnpackWith(p, input).Ok?
    ensures var v := UnpackWith(p, input).value.0;
            && Canon(v) == v
            && (PackBytes(v).Ok? <==> !HasTimestamp(v))
            && (PackBytes(v).Ok? ==>
                  && (forall rest :: RoundTrips(p, v, PackBytes(v).value, rest))
                  && (ReadsByDefault(p, v, PackBytes(v).value)
                      <==> Saturate(WireCost(p.slot, [], 0, v)) <= DefaultBudget(|PackBytes(v).value|)))
  {
    hide PackBytes, DecodeValue, Arrived, SeparatesZeros, Canon, Textual, ScalarsPackable, Depth, RoundTrips, HasTimestamp, WireCost;
    hide ReadsByDefault;
    var v := UnpackWith(p, input).value.0;
    ValueArrives(p, input, Start());
    ArrivedMeans(p, v);
    DecodeIsBounded(p, input);
    PackSucceedsIff(v);
    if PackBytes(v).Ok? {
      forall rest
        ensures RoundTrips(p, v, PackBytes(v).value, rest)
      {
        RoundTrip(p, v, rest);
      }
      ReadsByDefaultIff(p, v);
    }
  }

  lemma ReadsByDefaultIff(p: Params, v: Value)
    requires SeparatesZeros(p.digest) && Textual(p, v) && Canon(v) == v && PackBytes(v).Ok?
    ensures ReadsByDefault(p, v, PackBytes(v).value)
       <==> Saturate(WireCost(p.slot, [], 0, v)) <= DefaultBudget(|PackBytes(v).value|)
  {
    hide PackBytes, UnpackWith, SeparatesZeros, Canon, Textual, WireCost;
    var packed := PackBytes(v).value;
    var q := p.(budget := DefaultBudget(|packed|));
    TextualAnyBudget(p, q, v);
    RoundTrip(q, v, []);
    assert packed + [] == packed;
  }

  // ----- The default budget ------------------------------------------------------------------

  function Zeros(n: nat): seq<Value> {
    if n == 0 then [] else [Uint(0)] + Zeros(n - 1)
  }

  lemma {:induction false} ZerosEncode(slot: nat, n: nat)
    ensures |Zeros(n)| == n
    ensures EncodeItems([], 1, Zeros(n)).Ok?
    ensures |EncodeItems([], 1, Zeros(n)).value.bytes| == n && EncodeItems([], 1, Zeros(n)).value.table == []
    ensures ItemsCost(slot, [], 1, Zeros(n)) == slot * n
  {
    if n == 0 {
    } else {
      ZerosEncode(slot, n - 1);
      assert Zeros(n)[1..] == Zeros(n - 1);
      assert EncodeValue([], 1, Uint(0)) == Ok(Encoded([0x08], []));
      assert slot * n == slot + slot * (n - 1);
    }
  }

  lemma {:induction false} ZerosTextualItems(p: Params, n: nat)
    ensures TextualItems(p, Zeros(n))
  {
    if n == 0 {
    } else {
      ZerosTextualItems(p, n - 1);
      assert Zeros(n)[1..] == Zeros(n - 1);
    }
  }

  /**
   A dense array of `n` one-byte values survives the default budget exactly while its slots
   cost no more than that budget; past it, what was packed cannot be unpacked by default.
   */
  lemma DenseArrayLimit(p: Params, n: nat)
    requires n >= 0x0F && SeparatesZeros(p.digest)
    requires p.budget == DefaultBudget(n + 2)
    ensures var packed := PackBytes(Array(Zeros(n)));
            && packed.Ok? && |packed.value| == n + 2
            && (UnpackWith(p, packed.value).Ok? <==> p.slot * n <= DefaultBudget(n + 2))
  {
    hide EncodeItems, ItemsCost, UnpackWith, Textual, Canon, Zeros;
    var v := Array(Zeros(n));
    ZerosEncode(p.slot, n);
    ZerosTextualItems(p, n);
    DenseTextual(p, n);
    var none: seq<seq<byte>> := [];
    assert WriteValue(none, 0, v).Ok? && |WriteValue(none, 0, v).value.bytes| == n + 2;
    ContainerStaysInlineAtTop(v);
    RoundTrip(p, v, []);
    assert PackBytes(v).value + [] == PackBytes(v).value;
  }

  lemma DenseTextual(p: Params, n: nat)
    requires TextualItems(p, Zeros(n))
    ensures Textual(p, Array(Zeros(n)))
  {
  }

  lemma ContainerStaysInlineAtTop(v: Value)
    requires IsContainer(v) && WriteValue([], 0, v).Ok?
    ensures PackBytes(v) == Ok(WriteValue([], 0, v).value.bytes)
  {
    hide WriteValue;
    ContainerStaysInline([], 0, v);
  }

  // ----- Repeated text -----------------------------------------------------------------------

  function Letter(): Value {
    Str([0x61])
  }

  function LetterBytes(): seq<byte> {
    [0x41, 0x61]
  }

  function Letters(n: nat): (items: seq<Value>)
    ensures |items| == n
  {
    if n == 0 then [] else [Letter()] + Letters(n - 1)
  }

  function LettersInline(n: nat): (b: seq<byte>)
    ensures |b| == 2 * n
  {
    if n == 0 then [] else LetterBytes() + LettersInline(n - 1)
  }

  /** An open-ended array of `n` one-letter strings with no back-reference in it. */
  function SpelledOut(n: nat): (b: seq<byte>)
    ensures |b| == 2 * n + 2
  {
    [0xDF] + (LettersInline(n) + [TERMINATOR])
  }

  lemma LetterIs()
    ensures ScalarBytes(Letter()) == Ok(LetterBytes())
  {
    assert [0x41] + [0x61] == [0x41, 0x61];
    assert StringHeader(1) == Ok([0x41]);
  }

  /** A letter in the input is read and, at most once, recorded. */
  lemma LetterReads(p: Params, input: seq<byte>, s: State)
    requires Unlimited(p) && p.utf8([0x61]) && At(input, s.offset, LetterBytes())
    requires s.table == [] || s.table == [Letter()]
    ensures DecodeValue(p, input, s) == Ok((Letter(), Advance(s, 2, 1).(table := [Letter()])))
  {
    hide DecodeLeaf, Recorded, ScalarBytes, Unlimited, At, Saturate;
    LetterIs();
    assert input[s.offset] == LetterBytes()[0] by {
      AtSplit(input, s.offset, LetterBytes(), []) by { assert LetterBytes() + [] == LetterBytes(); }
    }
    AtBounds(input, s.offset, LetterBytes());
    ScalarLands(p, input, s, Letter());
    LetterRecorded(p.digest);
  }

  lemma LetterRecorded(digest: Value -> nat)
    ensures Recorded(digest, [], Letter()) == [Letter()]
    ensures Recorded(digest, [Letter()], Letter()) == [Letter()]
  {
    hide Bucket;
    BucketAtMost(digest, [Letter()], digest(Letter()));
    assert Known(digest, [Letter()], Letter()) by {
      assert ValueEq([Letter()][0], Letter());
    }
  }

  /** A run of letters costs a slot and a byte each. */
  lemma {:induction false} LettersRead(p: Params, input: seq<byte>, s: State, n: nat)
    requires Unlimited(p) && p.utf8([0x61]) && At(input, s.offset, LettersInline(n) + [TERMINATOR])
    requires s.offset <= |input| && (s.table == [] || s.table == [Letter()])
    ensures var r := DecodeGroups(p, input, s, 1, None);
            && r.Ok? && r.value.0 == Letters(n)
            && r.value.1 == Advance(s, 2 * n + 1, n * (p.slot + 1)).(table := r.value.1.table)
    decreases n
  {
    hide DecodeGroups, DecodeValue, Advance, At;
    if n == 0 {
      AtSplit(input, s.offset, [], [TERMINATOR]) by { assert [] + [TERMINATOR] == LettersInline(0) + [TERMINATOR]; }
      AtSplit(input, s.offset, [TERMINATOR], []) by { assert [TERMINATOR] + [] == [TERMINATOR]; }
      NoLetters(p, input, s);
    } else {
      var rest := LettersInline(n - 1) + [TERMINATOR];
      assert LettersInline(n) + [TERMINATOR] == LetterBytes() + rest;
      AtSplit(input, s.offset, LetterBytes(), rest);
      AtBounds(input, s.offset, LetterBytes() + rest);
      var paid := s.(spent := Saturate(s.spent + p.slot));
      LetterReads(p, input, paid);
      var mid := DecodeValue(p, input, paid).value.1;
      OneLetterPaid(s, p.slot, mid);
      LettersRead(p, input, mid, n - 1);
      var end := DecodeGroups(p, input, mid, 1, None).value.1;
      GroupsUnfold(p, input, s, 1, None, [Letter()], mid, Letters(n - 1), end);
      LettersPaid(s, p.slot + 1, mid, n, end);
    }
  }

  lemma LettersPaid(s: State, each: nat, mid: State, n: nat, end: State)
    requires n > 0 && mid == Advance(s, 2, each).(table := mid.table)
    requires end == Advance(mid, 2 * (n - 1) + 1, (n - 1) * each).(table := end.table)
    ensures end == Advance(s, 2 * n + 1, n * each).(table := end.table)
  {
    hide Advance;
    assert n * each == each + (n - 1) * each;
    AdvanceTwice(s, 2, each, mid, 2 * (n - 1) + 1, (n - 1) * each, end);
  }

  lemma OneLetterPaid(s: State, slot: nat, mid: State)
    requires mid == Advance(s.(spent := Saturate(s.spent + slot)), 2, 1).(table := mid.table)
    ensures mid == Advance(s, 2, slot + 1).(table := mid.table) && mid.offset == s.offset + 2
  {
  }

  lemma NoLetters(p: Params, input: seq<byte>, s: State)
    requires s.offset < |input| && input[s.offset] == TERMINATOR
    ensures DecodeGroups(p, input, s, 1, None) == Ok(([], Advance(s, 1, 0).(table := s.table)))
    ensures Letters(0) == []
  {
  }

  /** Under any budget the spelled-out array decodes exactly if its slots and bytes fit. */
  lemma SpelledOutReads(p: Params, n: nat)
    requires p.utf8([0x61])
    ensures if Saturate(n * (p.slot + 1)) <= p.budget then UnpackWith(p, SpelledOut(n)) == Ok((Array(Letters(n)), 2 * n + 2))
            else UnpackWith(p, SpelledOut(n)).Err? && UnpackWith(p, SpelledOut(n)).error.BudgetExceeded?
  {
    var q := p.(budget := USIZE_MAX);
    var input := SpelledOut(n);
    assert input[0..|input|] == input;
    AtSplit(input, 0, [0xDF], LettersInline(n) + [TERMINATOR]);
    LettersRead(q, input, Start().(offset := 1, depth := 1), n);
    SpelledOutTop(q, input, n);
    hide DecodeValue, DecodeGroups, LettersInline, Letters;
    BudgetThreshold(q, input, p.budget);
    assert q.(budget := p.budget) == p;
  }

  lemma SpelledOutTop(q: Params, input: seq<byte>, n: nat)
    requires input != [] && input[0] == 0xDF
    requires var r := DecodeGroups(q, input, Start().(offset := 1, depth := 1), 1, None);
             && r.Ok? && r.value.0 == Letters(n)
             && r.value.1 == Advance(Start().(offset := 1, depth := 1), 2 * n + 1, n * (q.slot + 1)).(table := r.value.1.table)
    ensures var r := DecodeValue(q, input, Start());
            r.Ok? && r.value.0 == Array(Letters(n)) && r.value.1.spent == Saturate(n * (q.slot + 1))
            && UnpackWith(q, input) == Ok((Array(Letters(n)), 2 * n + 2))
  {
    hide DecodeGroups, DecodeLeaf, Letters;
  }

  /** Once the letter is numbered, every further one is a pointer that costs a slot besides its own. */
  lemma {:induction false} LettersEncode(slot: nat, n: nat)
    ensures EncodeItems([LetterBytes()], 1, Letters(n)).Ok?
    ensures |EncodeItems([LetterBytes()], 1, Letters(n)).value.bytes| == n
    ensures ItemsCost(slot, [LetterBytes()], 1, Letters(n)) == n * (2 * slot)
    decreases n
  {
    if n == 0 {
    } else {
      LettersEncode(slot, n - 1);
      assert Letters(n)[1..] == Letters(n - 1);
      LetterRepeats(slot);
      assert n * (2 * slot) == 2 * slot + (n - 1) * (2 * slot);
    }
  }

  lemma LetterRepeats(slot: nat)
    ensures EncodeValue([LetterBytes()], 1, Letter()) == Ok(Encoded([0xA0], [LetterBytes()]))
    ensures WireCost(slot, [LetterBytes()], 1, Letter()) == slot
  {
    LetterIs();
    assert IndexOf([LetterBytes()], LetterBytes()) == Some(0);
  }

  lemma LetterFirst(slot: nat)
    ensures EncodeValue([], 1, Letter()) == Ok(Encoded(LetterBytes(), [LetterBytes()]))
    ensures WireCost(slot, [], 1, Letter()) == 1
  {
    LetterIs();
    assert [] + [LetterBytes()] == [LetterBytes()];
  }

  lemma LettersPack(slot: nat, n: nat)
    requires n >= 0x0F
    ensures PackBytes(Array(Letters(n))).Ok? && |PackBytes(Array(Letters(n))).value| == n + 3
    ensures WireCost(slot, [], 0, Array(Letters(n))) == slot + 1 + (n - 1) * (2 * slot)
  {
    var v, none: seq<seq<byte>> := Array(Letters(n)), [];
    assert Letters(n)[1..] == Letters(n - 1) && Letters(n)[0] == Letter();
    LettersEncode(slot, n - 1);
    LetterFirst(slot);
    assert EncodeItems(none, 1, Letters(n)).Ok? && |EncodeItems(none, 1, Letters(n)).value.bytes| == n + 1;
    assert ItemsCost(slot, none, 1, Letters(n)) == slot + 1 + (n - 1) * (2 * slot);
    hide EncodeItems, ItemsCost, Letters;
    assert WriteValue(none, 0, v).Ok? && |WriteValue(none, 0, v).value.bytes| == n + 3;
    ContainerStaysInlineAtTop(v);
  }

  lemma {:induction false} LettersTextual(p: Params, n: nat)
    requires p.utf8([0x61])
    ensures TextualItems(p, Letters(n)) && CanonItems(Letters(n)) == Letters(n)
    decreases n
  {
    if n == 0 {
    } else {
      LettersTextual(p, n - 1);
      assert Letters(n)[1..] == Letters(n - 1);
    }
  }

  /**
   One-letter strings under the default budget: as received, spelled out, they decode exactly
   while a slot and a byte each fit; packed again, with pointers, exactly while the first such
   and two slots for every other fit. In between lie documents that arrive but cannot be
   relayed, though no array of single-byte values is among them.
   */
  lemma RepeatedTextLimit(p: Params, n: nat)
    requires n >= 0x0F && SeparatesZeros(p.digest) && p.utf8([0x61])
    ensures var v := Array(Letters(n));
            && (UnpackWith(p.(budget := DefaultBudget(2 * n + 2)), SpelledOut(n)).Ok?
                <==> n * (p.slot + 1) <= DefaultBudget(2 * n + 2))
            && (UnpackWith(p.(budget := DefaultBudget(2 * n + 2)), SpelledOut(n)).Ok?
                ==> UnpackWith(p.(budget := DefaultBudget(2 * n + 2)), SpelledOut(n)).value.0 == v)
            && PackBytes(v).Ok? && |PackBytes(v).value| == n + 3
            && (ReadsByDefault(p, v, PackBytes(v).value)
                <==> p.slot + 1 + (n - 1) * (2 * p.slot) <= DefaultBudget(n + 3))
  {
    hide UnpackWith, PackBytes, Letters, SpelledOut, ReadsByDefault, SeparatesZeros, WireCost, CanonItems, TextualItems;
    SpelledOutReads(p.(budget := DefaultBudget(2 * n + 2)), n);
    LettersPack(p.slot, n);
    LettersTextual(p, n);
    ReadsByDefaultIff(p, Array(Letters(n)));
  }

  /**
   At any slot size from 32 to 58 bytes: 1100 short equal strings decode by default, can be
   packed, and what was packed is refused by default.
   */
  lemma RelayIsRefused(p: Params)
    requires 32 <= p.slot <= 58 && SeparatesZeros(p.digest) && p.utf8([0x61])
    ensures var v := Array(Letters(1100));
            && UnpackWith(p.(budget := DefaultBudget(|SpelledOut(1100)|)), SpelledOut(1100)).Ok?
            && UnpackWith(p.(budget := DefaultBudget(|SpelledOut(1100)|)), SpelledOut(1100)).value.0 == v
            && PackBytes(v).Ok? && !ReadsByDefault(p, v, PackBytes(v).value)
  {
    hide UnpackWith, PackBytes, Letters, SpelledOut, ReadsByDefault, SeparatesZeros;
    RepeatedTextLimit(p, 1100);
  }
}
