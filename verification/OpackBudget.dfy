/**
 What the materialised-byte budget does: for any input it is a threshold, and it bounds
 the value slots and inline payload of whatever is decoded.
 */
module OpackBudget {
  import opened Bytes
  import opened OpackValue
  import opened OpackTables
  import opened OpackSer
  import opened OpackDe
  import opened OpackScalars
  import opened Wrappers

  // ----- The budget is a threshold ---------------------------------------------------

  /** `r` succeeded having spent `spent`; under a budget of `budget` the same run gives `q`. */
  ghost predicate Threshold<T>(r: Result<T, Error>, q: Result<T, Error>, spent: nat, budget: nat) {
    if spent <= budget then q == r else q.Err? && q.error.BudgetExceeded?
  }

  lemma LeafThreshold(p: Params, input: seq<byte>, s: State, start: nat, tag: byte, budget: usize)
    requires !IsContainerTag(tag) && s.spent <= budget
    requires DecodeLeaf(p, input, s, start, tag).Ok?
    ensures var q := p.(budget := budget);
            Threshold(DecodeLeaf(p, input, s, start, tag), DecodeLeaf(q, input, s, start, tag),
                      DecodeLeaf(p, input, s, start, tag).value.next.spent, budget)
  {
  }

  lemma {:induction false} ValueThreshold(p: Params, input: seq<byte>, s: State, budget: usize)
    requires s.spent <= budget && DecodeValue(p, input, s).Ok?
    ensures Threshold(DecodeValue(p, input, s), DecodeValue(p.(budget := budget), input, s),
                      DecodeValue(p, input, s).value.1.spent, budget)
    decreases |input| - s.offset, 0
  {
    hide DecodeLeaf, DecodeGroups;
    var tag := input[s.offset];
    var body := s.(offset := s.offset + 1);
    if IsContainerTag(tag) {
      var group := if tag < 0xE0 then 1 else 2;
      var count := if tag % 0x10 == 0x0F then None else Some(tag % 0x10);
      GroupsThreshold(p, input, body.(depth := s.depth + 1), group, count, budget);
    } else {
      LeafThreshold(p, input, body, s.offset, tag, budget);
    }
  }

  lemma {:induction false} GroupThreshold(p: Params, input: seq<byte>, s: State, group: nat, budget: usize)
    requires group == 1 || group == 2
    requires s.spent <= budget && DecodeGroup(p, input, s, group).Ok?
    ensures Threshold(DecodeGroup(p, input, s, group), DecodeGroup(p.(budget := budget), input, s, group),
                      DecodeGroup(p, input, s, group).value.1.spent, budget)
    decreases |input| - s.offset, 1
  {
    hide DecodeValue;
    ValueThreshold(p, input, s, budget);
    var s1 := DecodeValue(p, input, s).value.1;
    if group == 2 && s1.spent <= budget {
      ValueThreshold(p, input, s1, budget);
    }
  }

  lemma {:induction false} GroupsThreshold(p: Params, input: seq<byte>, s: State, group: nat, count: Option<nat>, budget: usize)
    requires (group == 1 || group == 2) && s.offset <= |input|
    requires s.spent <= budget && DecodeGroups(p, input, s, group, count).Ok?
    ensures Threshold(DecodeGroups(p, input, s, group, count), DecodeGroups(p.(budget := budget), input, s, group, count),
                      DecodeGroups(p, input, s, group, count).value.1.spent, budget)
    decreases |input| - s.offset, 2
  {
    hide DecodeGroup;
    if count == Some(0) || (count.None? && input[s.offset] == TERMINATOR) {
    } else {
      var paid := Charged(p, s, ElementCost(p.slot, group)).value;
      if paid.spent <= budget {
        GroupThreshold(p, input, paid, group, budget);
        var mid := DecodeGroup(p, input, paid, group).value.1;
        if mid.spent <= budget {
          GroupsThreshold(p, input, mid, group, Less(count), budget);
        }
      }
    }
  }

  /**
   Changing only the budget of a successful decode either changes nothing or fails for lack
   of budget, and which of the two is decided by what the decode spent.
   */
  lemma BudgetThreshold(p: Params, input: seq<byte>, budget: usize)
    requires UnpackWith(p, input).Ok?
    ensures Threshold(UnpackWith(p, input), UnpackWith(p.(budget := budget), input),
                      DecodeValue(p, input, Start()).value.1.spent, budget)
  {
    hide DecodeValue;
    ValueThreshold(p, input, Start(), budget);
  }

  // ----- The budget bounds what is materialised -------------------------------------------

  /** Array items plus twice the dictionary entries, over the whole tree. */
  function Slots(v: Value): nat
    decreases Size(v), 0
  {
    if IsContainer(v) then SlotsItems(Children(v)) else 0
  }

  function SlotsItems(items: seq<Value>): nat
    decreases SizeItems(items), 1
  {
    if items == [] then 0 else 1 + Slots(items[0]) + SlotsItems(items[1..])
  }

  ghost predicate ScalarsOnly(values: seq<Value>) {
    forall i :: 0 <= i < |values| ==> !IsContainer(values[i])
  }

  function SlotCharge(slot: nat, slots: nat): nat {
    slot * slots
  }

  /** The bytes of all strings and byte strings that stand inline in what is decoded from `s`. */
  ghost function InlineValue(p: Params, input: seq<byte>, s: State): nat
    requires DecodeValue(p, input, s).Ok?
    decreases |input| - s.offset, 0
  {
    var tag := input[s.offset];
    var body := s.(offset := s.offset + 1);
    if IsContainerTag(tag) then
      InlineGroups(p, input, body.(depth := s.depth + 1), if tag < 0xE0 then 1 else 2,
                   if tag % 0x10 == 0x0F then None else Some(tag % 0x10))
    else InlineLeaf(tag, DecodeLeaf(p, input, body, s.offset, tag).value.value)
  }

  /** A back-reference holds nothing inline. */
  function InlineLeaf(tag: byte, v: Value): nat {
    if tag < 0xA0 then Payload(v) else 0
  }

  ghost function InlineGroup(p: Params, input: seq<byte>, s: State, group: nat): nat
    requires (group == 1 || group == 2) && DecodeGroup(p, input, s, group).Ok?
    decreases |input| - s.offset, 1
  {
    InlineValue(p, input, s) + if group == 1 then 0 else InlineValue(p, input, DecodeValue(p, input, s).value.1)
  }

  ghost function InlineGroups(p: Params, input: seq<byte>, s: State, group: nat, count: Option<nat>): nat
    requires (group == 1 || group == 2) && s.offset <= |input|
    requires DecodeGroups(p, input, s, group, count).Ok?
    decreases |input| - s.offset, 2
  {
    if count == Some(0) || (count.None? && input[s.offset] == TERMINATOR) then 0
    else
      var paid := Charged(p, s, ElementCost(p.slot, group)).value;
      var mid := DecodeGroup(p, input, paid, group).value.1;
      InlineGroup(p, input, paid, group) + InlineGroups(p, input, mid, group, Less(count))
  }

  /** What a successful decode from `s` to `end` can have built, whatever the input. */
  ghost predicate Bounded(slot: nat, s: State, slots: nat, inline: nat, depth: nat, end: State) {
    && Saturate(s.spent + SlotCharge(slot, slots) + inline) <= end.spent
    && s.depth + depth <= MAX_DEPTH
    && ScalarsOnly(end.table)
  }

  lemma LeafBounded(p: Params, input: seq<byte>, s: State, start: nat, tag: byte)
    requires !IsContainerTag(tag) && s.offset <= |input| && ScalarsOnly(s.table)
    requires DecodeLeaf(p, input, s, start, tag).Ok?
    ensures var leaf := DecodeLeaf(p, input, s, start, tag).value;
            && !IsContainer(leaf.value)
            && Saturate(s.spent + InlineLeaf(tag, leaf.value)) <= leaf.next.spent
            && ScalarsOnly(RecordLeaf(p, leaf).table)
            && RecordLeaf(p, leaf).spent == leaf.next.spent
            && leaf.next.spent <= (if s.spent <= p.budget then p.budget else s.spent)
  {
    hide Recorded, DecodeTiny, DecodeNumber, DecodeSized;
    LeafAdvances(p, input, s, start, tag);
    if tag < 0x30 {
      TinyBounded(p, input, s, start, tag);
    } else if tag < 0x40 {
      NumberBounded(p, input, s, start, tag);
    } else {
      SizedBounded(p, input, s, start, tag);
    }
  }

  ghost predicate LeafPaid(p: Params, s: State, tag: byte, leaf: Leaf) {
    && !IsContainer(leaf.value)
    && Saturate(s.spent + InlineLeaf(tag, leaf.value)) <= leaf.next.spent
    && leaf.next.spent <= (if s.spent <= p.budget then p.budget else s.spent)
  }

  lemma TinyBounded(p: Params, input: seq<byte>, s: State, start: nat, tag: byte)
    requires tag < 0x30 && DecodeTiny(input, s, start, tag).Ok?
    ensures LeafPaid(p, s, tag, DecodeTiny(input, s, start, tag).value)
  {
  }

  lemma NumberBounded(p: Params, input: seq<byte>, s: State, start: nat, tag: byte)
    requires 0x30 <= tag < 0x40 && DecodeNumber(input, s, start, tag).Ok?
    ensures LeafPaid(p, s, tag, DecodeNumber(input, s, start, tag).value)
  {
  }

  lemma SizedBounded(p: Params, input: seq<byte>, s: State, start: nat, tag: byte)
    requires 0x40 <= tag < 0xD0 && ScalarsOnly(s.table) && DecodeSized(p, input, s, start, tag).Ok?
    ensures LeafPaid(p, s, tag, DecodeSized(p, input, s, start, tag).value)
  {
    hide FromLe;
  }

  lemma {:induction false} DepthItemsSplit(a: seq<Value>, b: seq<Value>)
    ensures DepthItems(a + b) == if DepthItems(a) > DepthItems(b) then DepthItems(a) else DepthItems(b)
    ensures SlotsItems(a + b) == SlotsItems(a) + SlotsItems(b)
    decreases |a|
  {
    hide Depth, Slots;
    if a == [] {
      assert a + b == b;
    } else {
      assert (a + b)[1..] == a[1..] + b && (a + b)[0] == a[0];
      DepthItemsSplit(a[1..], b);
    }
  }

  lemma {:induction false} ValueBounded(p: Params, input: seq<byte>, s: State)
    requires s.depth <= MAX_DEPTH && s.spent <= p.budget && ScalarsOnly(s.table)
    requires DecodeValue(p, input, s).Ok?
    ensures var (v, end) := DecodeValue(p, input, s).value;
            Bounded(p.slot, s, Slots(v), InlineValue(p, input, s), Depth(v), end) && end.spent <= p.budget
    decreases |input| - s.offset, 0
  {
    hide DecodeLeaf, DecodeGroups, InlineGroups, InlineLeaf, ScalarsOnly, SlotCharge;
    NoSlots(p.slot);
    var tag := input[s.offset];
    var body := s.(offset := s.offset + 1);
    if IsContainerTag(tag) {
      var group := if tag < 0xE0 then 1 else 2;
      var count := if tag % 0x10 == 0x0F then None else Some(tag % 0x10);
      GroupsBounded(p, input, body.(depth := s.depth + 1), group, count);
      var kids := DecodeGroups(p, input, body.(depth := s.depth + 1), group, count).value.0;
      if group == 2 {
        FlattenPairUp(kids);
      }
    } else {
      LeafBounded(p, input, body, s.offset, tag);
    }
  }

  lemma {:induction false} GroupBounded(p: Params, input: seq<byte>, s: State, group: nat)
    requires group == 1 || group == 2
    requires s.depth <= MAX_DEPTH && s.spent <= p.budget && ScalarsOnly(s.table)
    requires DecodeGroup(p, input, s, group).Ok?
    ensures var (vals, end) := DecodeGroup(p, input, s, group).value;
            && SlotsItems(vals) >= group
            && Bounded(p.slot, s, SlotsItems(vals) - group, InlineGroup(p, input, s, group), DepthItems(vals), end)
            && end.spent <= p.budget
    decreases |input| - s.offset, 1
  {
    hide DecodeValue, InlineValue, ScalarsOnly, Slots, Depth, SlotCharge;
    ValueBounded(p, input, s);
    var (first, s1) := DecodeValue(p, input, s).value;
    if group == 1 {
      assert [first][1..] == [];
      assert SlotsItems([first]) == 1 + Slots(first);
      assert DepthItems([first]) == Depth(first);
    } else {
      ValueBounded(p, input, s1);
      var (second, s2) := DecodeValue(p, input, s1).value;
      assert [first, second][1..] == [second];
      assert SlotsItems([second]) == 1 + Slots(second) && DepthItems([second]) == Depth(second);
      assert SlotsItems([first, second]) == 2 + Slots(first) + Slots(second);
      SlotsAdd(p.slot, s.spent, Slots(first), InlineValue(p, input, s), s1.spent, Slots(second), InlineValue(p, input, s1), s2.spent);
    }
  }

  lemma NoSlots(slot: nat)
    ensures SlotCharge(slot, 0) == 0
  {
  }

  lemma ElementSlots(slot: nat, group: nat)
    requires group == 1 || group == 2
    ensures ElementCost(slot, group) == SlotCharge(slot, group)
  {
  }

  lemma SlotsAdd(slot: nat, a: nat, m: nat, x: nat, b: nat, n: nat, y: nat, c: nat)
    requires Saturate(a + SlotCharge(slot, m) + x) <= b && Saturate(b + SlotCharge(slot, n) + y) <= c
    ensures Saturate(a + SlotCharge(slot, m + n) + (x + y)) <= c
  {
    assert slot * (m + n) == slot * m + slot * n;
  }

  lemma {:induction false} GroupsBounded(p: Params, input: seq<byte>, s: State, group: nat, count: Option<nat>)
    requires (group == 1 || group == 2) && s.offset <= |input|
    requires s.depth <= MAX_DEPTH && s.spent <= p.budget && ScalarsOnly(s.table)
    requires DecodeGroups(p, input, s, group, count).Ok?
    ensures var (vals, end) := DecodeGroups(p, input, s, group, count).value;
            Bounded(p.slot, s, SlotsItems(vals), InlineGroups(p, input, s, group, count), DepthItems(vals), end)
            && end.spent <= p.budget
    decreases |input| - s.offset, 2
  {
    hide DecodeGroup, InlineGroup, ScalarsOnly, SlotsItems, DepthItems, SlotCharge, ElementCost, Charged, Bounded;
    if count == Some(0) || (count.None? && input[s.offset] == TERMINATOR) {
      NothingBuilt(p.slot, s, DecodeGroups(p, input, s, group, count).value.1);
    } else {
      var paid := Charged(p, s, ElementCost(p.slot, group)).value;
      GroupBounded(p, input, paid, group);
      var (vals, mid) := DecodeGroup(p, input, paid, group).value;
      var x, y := InlineGroup(p, input, paid, group), InlineGroups(p, input, mid, group, Less(count));
      BoundedTable(p.slot, paid, SlotsItems(vals) - group, x, DepthItems(vals), mid);
      GroupsBounded(p, input, mid, group, Less(count));
      var (rest, end) := DecodeGroups(p, input, mid, group, Less(count)).value;
      DepthItemsSplit(vals, rest);
      BoundedAdds(p, s, group, SlotsItems(vals), x, DepthItems(vals), mid, SlotsItems(rest), y, DepthItems(rest), end);
    }
  }

  lemma NothingBuilt(slot: nat, s: State, end: State)
    requires s.depth <= MAX_DEPTH && ScalarsOnly(s.table) && end == s.(offset := end.offset)
    ensures SlotsItems([]) == 0 && DepthItems([]) == 0 && Bounded(slot, s, 0, 0, 0, end)
  {
    hide ScalarsOnly;
  }

  lemma BoundedTable(slot: nat, s: State, slots: nat, inline: nat, depth: nat, end: State)
    requires Bounded(slot, s, slots, inline, depth, end)
    ensures ScalarsOnly(end.table)
  {
  }

  /** One paid element and what follows it, taken together. */
  lemma BoundedAdds(p: Params, s: State, group: nat, m: nat, x: nat, d: nat, mid: State, n: nat, y: nat, e: nat, end: State)
    requires (group == 1 || group == 2) && group <= m && Charged(p, s, ElementCost(p.slot, group)).Ok?
    requires Bounded(p.slot, Charged(p, s, ElementCost(p.slot, group)).value, m - group, x, d, mid)
    requires mid.depth == s.depth && Bounded(p.slot, mid, n, y, e, end)
    ensures Bounded(p.slot, s, m + n, x + y, if d > e then d else e, end)
  {
    hide ScalarsOnly, SlotCharge, ElementCost;
    ElementSlots(p.slot, group);
    var paid := Charged(p, s, ElementCost(p.slot, group)).value;
    hide Saturate;
    SlotsAdd(p.slot, s.spent, group, 0, paid.spent, m - group, x, mid.spent);
    SlotsAdd(p.slot, s.spent, m, x, mid.spent, n, y, end.spent);
  }

  lemma UnpackDecodes(p: Params, input: seq<byte>)
    requires UnpackWith(p, input).Ok?
    ensures DecodeValue(p, input, Start()).Ok?
  {
    hide DecodeValue;
  }

  /** The inline payload of a whole document. */
  ghost function InlinePayload(p: Params, input: seq<byte>): nat
    requires UnpackWith(p, input).Ok?
  {
    UnpackDecodes(p, input);
    InlineValue(p, input, Start())
  }

  /**
   For every input and budget: a successful decode consumes at least one byte and no more than
   there are, never nests deeper than 32 containers, and its slots, even where back-references
   multiply values, together with its inline strings and byte strings fit the budget.
   */
  lemma DecodeIsBounded(p: Params, input: seq<byte>)
    requires UnpackWith(p, input).Ok?
    ensures var (v, consumed) := UnpackWith(p, input).value;
            && 1 <= consumed <= |input|
            && Depth(v) <= 32
            && Saturate(p.slot * Slots(v) + InlinePayload(p, input)) <= p.budget
            && (p.budget < USIZE_MAX ==> p.slot * Slots(v) + InlinePayload(p, input) <= p.budget)
  {
    hide DecodeValue, InlineValue;
    ValueBounded(p, input, Start());
  }

  // ----- Only the consumed bytes matter ---------------------------------------------------

  /** Two inputs with the same first `hi` bytes. */
  ghost predicate SameUpTo(a: seq<byte>, b: seq<byte>, hi: nat) {
    hi <= |a| && hi <= |b| && a[..hi] == b[..hi]
  }

  lemma SameByte(a: seq<byte>, b: seq<byte>, hi: nat, i: nat)
    requires SameUpTo(a, b, hi) && i < hi
    ensures a[i] == b[i]
  {
    assert a[..hi][i] == b[..hi][i];
  }

  lemma TakenSame(a: seq<byte>, b: seq<byte>, hi: nat, s: State, count: nat)
    requires SameUpTo(a, b, hi) && s.offset + count <= hi
    ensures Taken(a, s, count).Ok? && Taken(b, s, count) == Taken(a, s, count)
    ensures Taken(a, s, count).value.1.offset == s.offset + count
    ensures count <= 8 ==> TakenUint(b, s, count) == TakenUint(a, s, count)
  {
    assert a[..hi][s.offset..s.offset + count] == b[..hi][s.offset..s.offset + count];
    assert a[s.offset..s.offset + count] == a[..hi][s.offset..s.offset + count];
    assert b[s.offset..s.offset + count] == b[..hi][s.offset..s.offset + count];
  }

  lemma LeafSame(p: Params, a: seq<byte>, b: seq<byte>, hi: nat, s: State, start: nat, tag: byte)
    requires SameUpTo(a, b, hi) && !IsContainerTag(tag) && s.offset <= |a|
    requires DecodeLeaf(p, a, s, start, tag).Ok? && DecodeLeaf(p, a, s, start, tag).value.next.offset <= hi
    ensures DecodeLeaf(p, b, s, start, tag) == DecodeLeaf(p, a, s, start, tag)
  {
    hide FromLe, SameUpTo, Charged;
    if tag < 0x30 {
      if tag == 0x05 {
        TakenSame(a, b, hi, s, 16);
      } else if tag == 0x06 {
        TakenSame(a, b, hi, s, 8);
      }
    } else if tag < 0x40 {
      NumberSame(a, b, hi, s, start, tag);
    } else {
      SizedSame(p, a, b, hi, s, start, tag);
    }
  }

  lemma NumberSame(a: seq<byte>, b: seq<byte>, hi: nat, s: State, start: nat, tag: byte)
    requires SameUpTo(a, b, hi) && 0x30 <= tag < 0x40 && s.offset <= |a|
    requires DecodeNumber(a, s, start, tag).Ok? && DecodeNumber(a, s, start, tag).value.next.offset <= hi
    ensures DecodeNumber(b, s, start, tag) == DecodeNumber(a, s, start, tag)
  {
    hide FromLe, SameUpTo;
    if tag <= 0x33 {
      TakenSame(a, b, hi, s, WidthFromTag(tag).ByteCount());
    } else if tag == 0x35 {
      TakenSame(a, b, hi, s, 4);
    } else if tag == 0x36 {
      TakenSame(a, b, hi, s, 8);
    }
  }

  lemma StringSame(p: Params, a: seq<byte>, b: seq<byte>, hi: nat, s: State, start: nat, len: usize)
    requires SameUpTo(a, b, hi)
    requires DecodeString(p, a, s, start, len).Ok? && DecodeString(p, a, s, start, len).value.next.offset <= hi
    ensures DecodeString(p, b, s, start, len) == DecodeString(p, a, s, start, len)
    ensures s.offset <= DecodeString(p, a, s, start, len).value.next.offset
  {
    hide SameUpTo;
    TakenSame(a, b, hi, s, len);
  }

  lemma DataSame(p: Params, a: seq<byte>, b: seq<byte>, hi: nat, s: State, len: usize)
    requires SameUpTo(a, b, hi)
    requires DecodeData(p, a, s, len).Ok? && DecodeData(p, a, s, len).value.next.offset <= hi
    ensures DecodeData(p, b, s, len) == DecodeData(p, a, s, len)
    ensures s.offset <= DecodeData(p, a, s, len).value.next.offset
  {
    hide SameUpTo;
    TakenSame(a, b, hi, s, len);
  }

  /** How many bytes of length or index stand behind one of these tags. */
  function PrefixWidth(tag: byte): nat
    requires 0x40 <= tag < 0xD0
  {
    if 0x60 < tag <= 0x64 then tag - 0x60
    else if 0x91 <= tag <= 0x94 then DataPrefixWidth(tag)
    else if 0xC1 <= tag <= 0xC4 then tag - 0xC0
    else 0
  }

  lemma PrefixIsRead(p: Params, a: seq<byte>, s: State, start: nat, tag: byte)
    requires 0x40 <= tag < 0xD0 && s.offset <= |a| && DecodeSized(p, a, s, start, tag).Ok?
    ensures s.offset + PrefixWidth(tag) <= DecodeSized(p, a, s, start, tag).value.next.offset
  {
    hide FromLe;
  }

  lemma SizedSame(p: Params, a: seq<byte>, b: seq<byte>, hi: nat, s: State, start: nat, tag: byte)
    requires SameUpTo(a, b, hi) && 0x40 <= tag < 0xD0 && s.offset <= |a|
    requires DecodeSized(p, a, s, start, tag).Ok? && DecodeSized(p, a, s, start, tag).value.next.offset <= hi
    ensures DecodeSized(p, b, s, start, tag) == DecodeSized(p, a, s, start, tag)
  {
    PrefixIsRead(p, a, s, start, tag);
    TakenSame(a, b, hi, s, PrefixWidth(tag));
    hide FromLe, SameUpTo, TakenUint, DecodeString, DecodeData, BackReference;
    if tag <= 0x60 {
      StringSame(p, a, b, hi, s, start, tag - 0x40);
    } else if tag <= 0x64 {
      var (len, next) := TakenUint(a, s, tag - 0x60).value;
      StringSame(p, a, b, hi, next, start, len);
    } else if 0x70 <= tag <= 0x90 {
      DataSame(p, a, b, hi, s, tag - 0x70);
    } else if 0x91 <= tag <= 0x94 {
      var (len, next) := TakenUint(a, s, DataPrefixWidth(tag)).value;
      DataSame(p, a, b, hi, next, len);
    }
  }

  lemma {:induction false} ValueSame(p: Params, a: seq<byte>, b: seq<byte>, hi: nat, s: State)
    requires SameUpTo(a, b, hi)
    requires DecodeValue(p, a, s).Ok? && DecodeValue(p, a, s).value.1.offset <= hi
    ensures DecodeValue(p, b, s) == DecodeValue(p, a, s)
    decreases |a| - s.offset, 0
  {
    hide DecodeLeaf, DecodeGroups, SameUpTo;
    SameByte(a, b, hi, s.offset);
    BoundedBy(a, b, hi);
    var tag := a[s.offset];
    var body := s.(offset := s.offset + 1);
    if IsContainerTag(tag) {
      GroupsSame(p, a, b, hi, body.(depth := s.depth + 1), if tag < 0xE0 then 1 else 2,
                 if tag % 0x10 == 0x0F then None else Some(tag % 0x10));
    } else {
      LeafSame(p, a, b, hi, body, s.offset, tag);
    }
  }

  lemma BoundedBy(a: seq<byte>, b: seq<byte>, hi: nat)
    requires SameUpTo(a, b, hi)
    ensures hi <= |a| && hi <= |b|
  {
  }

  lemma {:induction false} GroupSame(p: Params, a: seq<byte>, b: seq<byte>, hi: nat, s: State, group: nat)
    requires SameUpTo(a, b, hi) && (group == 1 || group == 2)
    requires DecodeGroup(p, a, s, group).Ok? && DecodeGroup(p, a, s, group).value.1.offset <= hi
    ensures DecodeGroup(p, b, s, group) == DecodeGroup(p, a, s, group)
    decreases |a| - s.offset, 1
  {
    hide DecodeValue, SameUpTo;
    ValueSame(p, a, b, hi, s);
    if group == 2 {
      ValueSame(p, a, b, hi, DecodeValue(p, a, s).value.1);
    } else {
    }
  }

  lemma {:induction false} GroupsSame(p: Params, a: seq<byte>, b: seq<byte>, hi: nat, s: State, group: nat, count: Option<nat>)
    requires SameUpTo(a, b, hi) && (group == 1 || group == 2) && s.offset <= |a| && s.offset <= |b|
    requires DecodeGroups(p, a, s, group, count).Ok? && DecodeGroups(p, a, s, group, count).value.1.offset <= hi
    ensures DecodeGroups(p, b, s, group, count) == DecodeGroups(p, a, s, group, count)
    decreases |a| - s.offset, 2
  {
    hide DecodeGroup, SameUpTo, Charged, ElementCost, Less;
    BoundedBy(a, b, hi);
    if count == Some(0) {
    } else {
      var end := DecodeGroups(p, a, s, group, count).value.1;
      SameByte(a, b, hi, s.offset) by {
        GroupsRead(p, a, s, group, count);
      }
      if count.None? && a[s.offset] == TERMINATOR {
      } else {
        var paid := Charged(p, s, ElementCost(p.slot, group)).value;
        var mid := DecodeGroup(p, a, paid, group).value.1;
        GroupSame(p, a, b, hi, paid, group);
        GroupsSame(p, a, b, hi, mid, group, Less(count));
      }
    }
  }

  lemma GroupsRead(p: Params, a: seq<byte>, s: State, group: nat, count: Option<nat>)
    requires (group == 1 || group == 2) && s.offset <= |a| && count != Some(0)
    requires DecodeGroups(p, a, s, group, count).Ok?
    ensures s.offset < DecodeGroups(p, a, s, group, count).value.1.offset
  {
    hide DecodeGroup, Charged, ElementCost, Less;
  }

  /** For any accepted input, the result depends on the consumed bytes alone. */
  lemma OnlyConsumedBytesMatter(p: Params, input: seq<byte>, rest: seq<byte>)
    requires UnpackWith(p, input).Ok?
    ensures var n := UnpackWith(p, input).value.1;
            n <= |input| && UnpackWith(p, input[..n] + rest) == UnpackWith(p, input)
  {
    hide DecodeValue;
    var n := UnpackWith(p, input).value.1;
    assert (input[..n] + rest)[..n] == input[..n];
    ValueSame(p, input, input[..n] + rest, n, Start());
  }
}
