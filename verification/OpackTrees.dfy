/**
 OPACK containers, byte by byte: what stands between the tag of a container and its end, on both
 sides, what each element is charged, and what is reported when one fails.
 */
module OpackTrees {
  import opened Bytes
  import opened OpackDe
  import opened OpackSer
  import opened OpackValue
  import opened OpackWire
  import opened Wrappers

  /** The values inside a dictionary are its keys, each followed by what is stored under it. */
  lemma {:induction false} KeyThenValue(entries: seq<(Value, Value)>, i: nat)
    requires i < |entries|
    ensures |Flatten(entries)| == 2 * |entries|
    ensures Flatten(entries)[2 * i] == entries[i].0 && Flatten(entries)[2 * i + 1] == entries[i].1
    decreases |entries|
  {
    if i == 0 {
    } else {
      KeyThenValue(entries[1..], i - 1);
      assert Flatten(entries)[2..] == Flatten(entries[1..]);
    }
  }

  // ----- Writing ------------------------------------------------------------------------------

  /** The first byte of a container. */
  function HeadOf(v: Value): nat
    requires IsContainer(v)
  {
    match v
    case Array(items) => if |items| < 15 then 208 + |items| else 223
    case Dict(entries) => if |entries| < 15 then 224 + |entries| else 239
  }

  /** Head, items or entries in order one level deeper, and a closing byte from fifteen on. */
  lemma ContainerIsWritten(t: seq<seq<byte>>, depth: nat, v: Value)
    requires IsContainer(v)
    ensures depth >= 32 ==> WriteValue(t, depth, v) == Err(DepthLimitExceeded(32))
    ensures depth < 32 ==>
              var body := EncodeItems(t, depth + 1, if v.Array? then v.items else Flatten(v.entries));
              WriteValue(t, depth, v)
              == if body.Err? then Err(body.error)
                 else Ok(Encoded([HeadOf(v)] + body.value.bytes + if HeadOf(v) == 223 || HeadOf(v) == 239 then [3] else [],
                                 body.value.table))
  {
    hide EncodeItems;
  }

  // ----- Reading ------------------------------------------------------------------------------

  /** Paying for the next element: one slot in an array, two in a dictionary. */
  function Paid(p: Params, s: State, group: nat): usize {
    Total(s.spent, group * p.slot)
  }

  /** From `s` on the input holds `kids`, in elements of one or two, and `end` is behind them. */
  ghost predicate Holds(p: Params, input: seq<byte>, s: State, group: nat, kids: seq<Value>, end: State)
    decreases |kids|
  {
    if |kids| < group || group == 0 then kids == [] && end == s
    else Paid(p, s, group) <= p.budget && HoldsNext(p, input, s.(spent := Paid(p, s, group)), group, kids, end)
  }

  /** The same with the next element paid for. */
  ghost predicate HoldsNext(p: Params, input: seq<byte>, s: State, group: nat, kids: seq<Value>, end: State)
    requires 0 < group <= |kids|
    decreases |kids|, 0
  {
    var first := DecodeValue(p, input, s);
    && first.Ok? && first.value.0 == kids[0]
    && if group == 1 then Holds(p, input, first.value.1, group, kids[1..], end)
       else
         var second := DecodeValue(p, input, first.value.1);
         && second.Ok? && second.value.0 == kids[1]
         && Holds(p, input, second.value.1, group, kids[2..], end)
  }

  /** A byte that would end an open container opens no value. */
  lemma TerminatorIsNoValue(p: Params, input: seq<byte>, s: State)
    requires DecodeValue(p, input, s).Ok?
    ensures s.offset < |input| && input[s.offset] != 3
  {
    hide DecodeLeaf;
    if s.offset < |input| && input[s.offset] == 3 {
      RefusedTags(p, input, s);
    }
  }

  /** Paying a slot per value is what the decoder charges. */
  lemma PaidIsCharged(p: Params, s: State, group: nat)
    requires group == 1 || group == 2
    ensures Charged(p, s, ElementCost(p.slot, group))
         == if Paid(p, s, group) <= p.budget then Ok(s.(spent := Paid(p, s, group))) else Err(BudgetExceeded(p.budget, s.offset))
  {
  }

  /** One element of one or two values. */
  lemma GroupOfNext(p: Params, input: seq<byte>, s: State, group: nat, kids: seq<Value>, end: State)
    requires (group == 1 || group == 2) && group <= |kids| && HoldsNext(p, input, s, group, kids, end)
    ensures DecodeGroup(p, input, s, group).Ok? && DecodeGroup(p, input, s, group).value.0 == kids[..group]
    ensures Holds(p, input, DecodeGroup(p, input, s, group).value.1, group, kids[group..], end)
    ensures DecodeValue(p, input, s).Ok?
  {
    hide DecodeValue, Holds;
  }

  function Behind(s: State): State {
    s.(offset := s.offset + 1)
  }

  /** A counted run holds as many elements as announced; an open one ends at the first byte 3. */
  ghost predicate Stops(input: seq<byte>, group: nat, kids: seq<Value>, end: State, count: Option<nat>) {
    if count.Some? then |kids| == group * count.value
    else group > 0 && |kids| % group == 0 && end.offset < |input| && input[end.offset] == 3
  }

  lemma {:induction false} GroupsHeld(p: Params, input: seq<byte>, s: State, group: nat, kids: seq<Value>, end: State, count: Option<nat>)
    requires (group == 1 || group == 2) && s.offset <= |input|
    requires Holds(p, input, s, group, kids, end) && Stops(input, group, kids, end, count)
    ensures DecodeGroups(p, input, s, group, count) == Ok((kids, if count.None? then Behind(end) else end))
    decreases |kids|
  {
    hide DecodeGroup, DecodeValue, HoldsNext, Paid, Charged, ElementCost;
    if kids == [] {
    } else {
      var paid := s.(spent := Paid(p, s, group));
      PaidIsCharged(p, s, group);
      GroupOfNext(p, input, paid, group, kids, end);
      TerminatorIsNoValue(p, input, paid);
      var mid := DecodeGroup(p, input, paid, group).value.1;
      GroupsHeld(p, input, mid, group, kids[group..], end, Less(count));
      assert kids == kids[..group] + kids[group..];
    }
  }

  lemma NextOfGroup(p: Params, input: seq<byte>, s: State, group: nat, rest: seq<Value>, end: State)
    requires (group == 1 || group == 2) && DecodeGroup(p, input, s, group).Ok?
    requires Holds(p, input, DecodeGroup(p, input, s, group).value.1, group, rest, end)
    ensures HoldsNext(p, input, s, group, DecodeGroup(p, input, s, group).value.0 + rest, end)
  {
    hide DecodeValue, Holds;
    var kids := DecodeGroup(p, input, s, group).value.0 + rest;
    assert kids[group..] == rest;
  }

  lemma {:induction false} HeldGroups(p: Params, input: seq<byte>, s: State, group: nat, count: Option<nat>)
    returns (kids: seq<Value>, end: State)
    requires (group == 1 || group == 2) && s.offset <= |input|
    requires DecodeGroups(p, input, s, group, count).Ok?
    ensures Holds(p, input, s, group, kids, end) && Stops(input, group, kids, end, count)
    ensures DecodeGroups(p, input, s, group, count) == Ok((kids, if count.None? then Behind(end) else end))
    decreases |input| - s.offset
  {
    hide DecodeGroup, HoldsNext, Paid, Charged, ElementCost, DecodeValue;
    if count == Some(0) || (count.None? && input[s.offset] == 3) {
      kids, end := [], s;
    } else {
      var paid := s.(spent := Paid(p, s, group));
      PaidIsCharged(p, s, group);
      var (vals, mid) := DecodeGroup(p, input, paid, group).value;
      var rest;
      rest, end := HeldGroups(p, input, mid, group, Less(count));
      NextOfGroup(p, input, paid, group, rest, end);
      kids := vals + rest;
      assert DecodeGroups(p, input, s, group, count).value.0 == vals + rest;
    }
  }

  /** Why the next element cannot be read, if it cannot. */
  function NextError(p: Params, input: seq<byte>, s: State, group: nat, open: bool): Option<Error> {
    if open && s.offset >= |input| then Some(UnexpectedEof(s.offset))
    else if open && input[s.offset] == 3 then None
    else if Paid(p, s, group) > p.budget then Some(BudgetExceeded(p.budget, s.offset))
    else
      match DecodeValue(p, input, s.(spent := Paid(p, s, group)))
      case Err(e) => Some(e)
      case Ok((_, mid)) =>
        if group == 1 then None
        else
          match DecodeValue(p, input, mid)
          case Err(e) => Some(e)
          case Ok(_) => None
  }

  lemma {:induction false} GroupsFail(p: Params, input: seq<byte>, s: State, group: nat, kids: seq<Value>, mid: State,
                                      count: Option<nat>, e: Error)
    requires (group == 1 || group == 2) && s.offset <= |input|
    requires Holds(p, input, s, group, kids, mid) && |kids| % group == 0 && (count.Some? ==> |kids| < group * count.value)
    requires NextError(p, input, mid, group, count.None?) == Some(e)
    ensures DecodeGroups(p, input, s, group, count) == Err(e)
    decreases |kids|
  {
    hide DecodeValue, HoldsNext, Paid, Charged, ElementCost;
    var paid := s.(spent := Paid(p, s, group));
    PaidIsCharged(p, s, group);
    if kids == [] {
    } else {
      hide DecodeGroup, NextError;
      GroupOfNext(p, input, paid, group, kids, mid);
      TerminatorIsNoValue(p, input, paid);
      GroupsFail(p, input, DecodeGroup(p, input, paid, group).value.1, group, kids[group..], mid, Less(count), e);
    }
  }

  // ----- Whole containers -------------------------------------------------------------------------

  /** Whether the next byte opens a container, of what kind, and how many elements it announces. */
  predicate Opens(input: seq<byte>, s: State) {
    s.offset < |input| && input[s.offset] >= 208
  }

  function Announced(input: seq<byte>, s: State): (count: Option<nat>)
    requires Opens(input, s)
  {
    var n := input[s.offset] % 16;
    if n == 15 then None else Some(n)
  }

  function Inside(s: State): State {
    s.(offset := s.offset + 1, depth := s.depth + 1)
  }

  /** An array is followed by its items; a dictionary by its keys and values in turn. */
  function KindOf(input: seq<byte>, s: State): (group: nat)
    requires Opens(input, s)
    ensures group == 1 || group == 2
  {
    if input[s.offset] < 224 then 1 else 2
  }

  /** The container at `s` holds `kids`, and `end` is the state at its end. */
  ghost predicate ContainerHolds(p: Params, input: seq<byte>, s: State, kids: seq<Value>, end: State)
    requires Opens(input, s)
  {
    Holds(p, input, Inside(s), KindOf(input, s), kids, end) && Stops(input, KindOf(input, s), kids, end, Announced(input, s))
  }

  /** What stands for `kids` in a container of this kind. */
  predicate MadeOf(v: Value, group: nat, kids: seq<Value>) {
    match v
    case Array(items) => group == 1 && kids == items
    case Dict(entries) => group == 2 && kids == Flatten(entries)
    case _ => false
  }

  lemma MadeOfOne(group: nat, kids: seq<Value>) returns (v: Value)
    requires (group == 1 || group == 2) && |kids| % group == 0
    ensures v == (if group == 1 then Array(kids) else Dict(PairUp(kids))) && MadeOf(v, group, kids)
  {
    v := if group == 1 then Array(kids) else Dict(PairUp(kids));
    if group == 2 {
      FlattenPairUp(kids);
    }
  }

  lemma MadeOfUnique(v: Value, w: Value, group: nat, kids: seq<Value>)
    requires MadeOf(v, group, kids) && MadeOf(w, group, kids)
    ensures v == w
  {
    if group == 2 {
      PairUpFlatten(v.entries);
      PairUpFlatten(w.entries);
    }
  }

  /** What the tag of a container makes of the values behind it. */
  lemma ContainerTagIsRead(p: Params, input: seq<byte>, s: State)
    requires Opens(input, s)
    ensures s.depth >= 32 ==> DecodeValue(p, input, s) == Err(DepthLimitExceeded(32))
    ensures s.depth < 32 ==>
              var r := DecodeGroups(p, input, Inside(s), KindOf(input, s), Announced(input, s));
              DecodeValue(p, input, s)
              == if r.Err? then Err(r.error)
                 else Ok((if KindOf(input, s) == 1 then Array(r.value.0) else Dict(PairUp(r.value.0)), r.value.1.(depth := s.depth)))
  {
    hide DecodeGroups;
    assert s.(offset := s.offset + 1).(depth := s.depth + 1) == Inside(s);
  }

  /** A container is read exactly if what it announces is there, and it is read as what it holds. */
  lemma ContainerIsRead(p: Params, input: seq<byte>, s: State, v: Value, kids: seq<Value>, end: State)
    requires Opens(input, s) && s.depth < 32 && ContainerHolds(p, input, s, kids, end) && MadeOf(v, KindOf(input, s), kids)
    ensures DecodeValue(p, input, s) == Ok((v, (if Announced(input, s).None? then Behind(end) else end).(depth := s.depth)))
  {
    hide DecodeValue, Holds, MadeOf, DecodeGroups;
    ContainerTagIsRead(p, input, s);
    var group := KindOf(input, s);
    GroupsHeld(p, input, Inside(s), group, kids, end, Announced(input, s));
    KidsEven(input, group, kids, end, Announced(input, s));
    var made := MadeOfOne(group, kids);
    MadeOfUnique(v, made, group, kids);
  }

  lemma KidsEven(input: seq<byte>, group: nat, kids: seq<Value>, end: State, count: Option<nat>)
    requires (group == 1 || group == 2) && Stops(input, group, kids, end, count)
    ensures |kids| % group == 0
  {
  }

  lemma ContainerReadsIff(p: Params, input: seq<byte>, s: State)
    requires Opens(input, s)
    ensures DecodeValue(p, input, s).Ok? <==> s.depth < 32 && exists kids, end :: ContainerHolds(p, input, s, kids, end)
  {
    hide DecodeValue, Holds, DecodeGroups, MadeOf;
    ContainerTagIsRead(p, input, s);
    if DecodeValue(p, input, s).Ok? {
      var kids, end := HeldGroups(p, input, Inside(s), KindOf(input, s), Announced(input, s));
      assert ContainerHolds(p, input, s, kids, end);
    }
    forall kids, end | s.depth < 32 && ContainerHolds(p, input, s, kids, end)
      ensures DecodeValue(p, input, s).Ok?
    {
      KidsEven(input, KindOf(input, s), kids, end, Announced(input, s));
      var v := MadeOfOne(KindOf(input, s), kids);
      ContainerIsRead(p, input, s, v, kids, end);
    }
  }

  /** A container fails as its first unreadable element does, or for being nested too deeply. */
  lemma ContainerFails(p: Params, input: seq<byte>, s: State, kids: seq<Value>, mid: State, e: Error)
    requires Opens(input, s)
    requires var group, count := KindOf(input, s), Announced(input, s);
             && Holds(p, input, Inside(s), group, kids, mid) && |kids| % group == 0
             && (count.Some? ==> |kids| < group * count.value)
             && NextError(p, input, mid, group, count.None?) == Some(e)
    ensures DecodeValue(p, input, s) == Err(if s.depth >= 32 then DepthLimitExceeded(32) else e)
  {
    hide DecodeValue, Holds, DecodeGroups, NextError;
    ContainerTagIsRead(p, input, s);
    if s.depth < 32 {
      GroupsFail(p, input, Inside(s), KindOf(input, s), kids, mid, Announced(input, s), e);
    }
  }

  /** The smallest open container. */
  lemma EmptyOpenArray(p: Params)
    ensures UnpackWith(p, [0xDF, 0x03]) == Ok((Array([]), 2))
    ensures UnpackWith(p, [0xEF, 0x03]) == Ok((Dict([]), 2))
  {
    hide DecodeValue;
    forall tag: byte | tag == 0xDF || tag == 0xEF
      ensures UnpackWith(p, [tag, 0x03]) == Ok((if tag == 0xDF then Array([]) else Dict([]), 2))
    {
      var input, s := [tag, 0x03], Start();
      ContainerIsRead(p, input, s, if tag == 0xDF then Array([]) else Dict([]), [], Inside(s));
    }
  }

  // ----- The default budget -------------------------------------------------------------------------

  /** Four times the input, but no less than 64 KiB and no more than 16 MiB. */
  lemma DefaultBudgetMeans(len: nat)
    ensures DefaultBudget(len) == if len <= 16384 then 65536 else if len >= 4194304 then 16777216 else 4 * len
  {
  }
}
