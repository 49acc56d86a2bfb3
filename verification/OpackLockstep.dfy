/**
 The encoder's byte-keyed table and the decoder's value-keyed table stay in step.

 `ValueLands` is the heart of the codec: from any pair of tables in lockstep, at any
 depth, decoding what the encoder wrote yields the canonical value, stops right after
 it, costs exactly what `WireCost` says, and leaves the tables in lockstep again.
 */
module OpackLockstep {
  import opened Bytes
  import opened OpackValue
  import opened OpackTables
  import opened OpackSer
  import opened OpackDe
  import opened OpackScalars
  import opened Wrappers

  /** Every string inside `v` passes the decoder's UTF-8 check. */
  predicate Textual(p: Params, v: Value)
    decreases Size(v), 0
  {
    if IsContainer(v) then TextualItems(p, Children(v)) else v.Str? ==> p.utf8(v.text)
  }

  predicate TextualItems(p: Params, items: seq<Value>)
    decreases SizeItems(items), 1
  {
    items == [] || (Textual(p, items[0]) && TextualItems(p, items[1..]))
  }

  // ----- What decoding costs -----------------------------------------------------

  /** The exact charge for decoding what `v` is encoded to under table `t`. */
  function WireCost(slot: nat, t: seq<seq<byte>>, depth: nat, v: Value): nat
    decreases Size(v), 0
  {
    if IsContainer(v) then ItemsCost(slot, t, depth + 1, Children(v))
    else if ScalarBytes(v).Err? then 0
    else
      match IndexOf(t, ScalarBytes(v).value)
      case Some(i) => if i < POINTER_LIMIT then slot else Payload(v)
      case None => Payload(v)
  }

  /** Each element is a slot plus its own cost. */
  function ItemsCost(slot: nat, t: seq<seq<byte>>, depth: nat, items: seq<Value>): nat
    decreases SizeItems(items), 1
  {
    if items == [] then 0
    else
      slot + WireCost(slot, t, depth, items[0])
      + (match EncodeValue(t, depth, items[0])
         case Ok(e) => ItemsCost(slot, e.table, depth, items[1..])
         case Err(_) => 0)
  }

  // ----- Lockstep ------------------------------------------------------------------

  /** `b` and `v` are the same scalar as the two sides store it. */
  ghost predicate SameScalar(b: seq<byte>, v: Value) {
    !IsContainer(v) && CanonScalar(v) == v && ScalarBytes(v) == Ok(b)
  }

  /** The encoder's list has no duplicates and no container, terminator or pointer in it. */
  ghost predicate Interned(t: seq<seq<byte>>) {
    && (forall i :: 0 <= i < |t| ==> InternedHead(t[i]))
    && (forall i, j :: 0 <= i < j < |t| ==> t[i] != t[j])
  }

  /** Both sides number the same scalars, as far as back-references reach. */
  ghost predicate Lockstep(t: seq<seq<byte>>, values: seq<Value>) {
    && Interned(t)
    && (forall i :: 0 <= i < |values| ==> !IsContainer(values[i]))
    && (if |t| <= POINTER_LIMIT then |values| == |t| else |values| >= POINTER_LIMIT)
    && (forall i :: 0 <= i < |t| && i < POINTER_LIMIT ==> SameScalar(t[i], values[i]))
  }

  /** A scalar that is new to the encoder's table is new to the decoder's. */
  lemma FreshIsRecorded(digest: Value -> nat, t: seq<seq<byte>>, values: seq<Value>, v: Value)
    requires SeparatesZeros(digest)
    requires Lockstep(t, values) && |t| < POINTER_LIMIT
    requires !IsContainer(v) && ScalarBytes(v).Ok? && ScalarBytes(v).value !in t
    ensures Recorded(digest, values, CanonScalar(v)) == values + [CanonScalar(v)]
  {
    var c := CanonScalar(v);
    CanonSameBytes(v);
    forall i | 0 <= i < |values| && digest(values[i]) == digest(c)
      ensures !ValueEq(values[i], c)
    {
      assert SameScalar(t[i], values[i]);
      if ValueEq(values[i], c) {
        EqualScalarsIdentical(digest, values[i], c);
      }
    }
    assert !Known(digest, values, c);
  }

  /** Numbering a first appearance on both sides keeps them in step. */
  lemma RecordKeepsLockstep(digest: Value -> nat, t: seq<seq<byte>>, values: seq<Value>, v: Value)
    requires SeparatesZeros(digest)
    requires Lockstep(t, values)
    requires !IsContainer(v) && ScalarBytes(v).Ok? && ScalarBytes(v).value !in t
    ensures Lockstep(t + [ScalarBytes(v).value], Recorded(digest, values, CanonScalar(v)))
  {
    hide ScalarBytes, Recorded, CanonScalar, InternedHead, SeparatesZeros;
    ScalarHead(v);
    CanonSameBytes(v);
    CanonScalarIsCanonical(v);
    if |t| < POINTER_LIMIT {
      FreshIsRecorded(digest, t, values, v);
    }
  }

  lemma CanonScalarIsCanonical(v: Value)
    requires !IsContainer(v)
    ensures CanonScalar(CanonScalar(v)) == CanonScalar(v) && !IsContainer(CanonScalar(v))
  {
  }

  /** Past the reach of back-references the decoder may record a repeat without harm. */
  lemma RepeatKeepsLockstep(digest: Value -> nat, t: seq<seq<byte>>, values: seq<Value>, v: Value)
    requires Lockstep(t, values) && |t| > POINTER_LIMIT
    requires !IsContainer(v)
    ensures Lockstep(t, Recorded(digest, values, v))
  {
  }

  // ----- Structure of encodings ------------------------------------------------------

  /** Encoding extends the table with new, interned encodings only. */
  lemma {:induction false} EncodeKeepsInterned(t: seq<seq<byte>>, depth: nat, v: Value)
    requires Interned(t) && EncodeValue(t, depth, v).Ok?
    ensures Interned(EncodeValue(t, depth, v).value.table)
    ensures WriteValue(t, depth, v).Ok? && Interned(WriteValue(t, depth, v).value.table)
    decreases Size(v), 0
  {
    if IsContainer(v) {
      hide Interned, InternedHead, Size, SizeItems;
      EncodeItemsKeepInterned(t, depth + 1, Children(v));
    } else {
      hide ScalarBytes;
      ScalarHead(v);
    }
  }

  lemma {:induction false} EncodeItemsKeepInterned(t: seq<seq<byte>>, depth: nat, items: seq<Value>)
    requires Interned(t) && EncodeItems(t, depth, items).Ok?
    ensures Interned(EncodeItems(t, depth, items).value.table)
    decreases SizeItems(items), 1
  {
    hide Interned, EncodeValue;
    if items == [] {
    } else {
      EncodeKeepsInterned(t, depth, items[0]);
      EncodeItemsKeepInterned(EncodeValue(t, depth, items[0]).value.table, depth, items[1..]);
    }
  }

  /** A container is never mistaken for a repeat. */
  lemma ContainerStaysInline(t: seq<seq<byte>>, depth: nat, v: Value)
    requires Interned(t) && IsContainer(v) && EncodeValue(t, depth, v).Ok?
    ensures EncodeValue(t, depth, v) == WriteValue(t, depth, v)
  {
    EncodeKeepsInterned(t, depth, v);
    var w := WriteValue(t, depth, v).value;
    assert w.bytes[0] == ContainerTag(v);
    assert !InternedHead(w.bytes);
  }

  /** No encoding starts like the terminator of an open-ended container. */
  lemma EncodingHead(t: seq<seq<byte>>, depth: nat, v: Value)
    requires EncodeValue(t, depth, v).Ok?
    ensures EncodeValue(t, depth, v).value.bytes != []
    ensures EncodeValue(t, depth, v).value.bytes[0] != TERMINATOR
  {
    hide ScalarBytes, EncodeItems;
    if !IsContainer(v) {
      ScalarHead(v);
    }
  }

  lemma {:induction false} EncodeItemsSplit(slot: nat, t: seq<seq<byte>>, depth: nat, a: seq<Value>, b: seq<Value>)
    requires EncodeItems(t, depth, a + b).Ok?
    ensures EncodeItems(t, depth, a).Ok?
    ensures EncodeItems(EncodeItems(t, depth, a).value.table, depth, b).Ok?
    ensures var e, f := EncodeItems(t, depth, a).value, EncodeItems(EncodeItems(t, depth, a).value.table, depth, b).value;
            EncodeItems(t, depth, a + b) == Ok(Encoded(e.bytes + f.bytes, f.table))
    ensures ItemsCost(slot, t, depth, a + b)
         == ItemsCost(slot, t, depth, a) + ItemsCost(slot, EncodeItems(t, depth, a).value.table, depth, b)
    decreases |a|
  {
    hide EncodeValue, WireCost;
    if a == [] {
      assert a + b == b;
      var f := EncodeItems(t, depth, b).value;
      assert [] + f.bytes == f.bytes;
    } else {
      assert (a + b)[1..] == a[1..] + b;
      assert (a + b)[0] == a[0];
      var h := EncodeValue(t, depth, a[0]).value;
      EncodeItemsSplit(slot, h.table, depth, a[1..], b);
      var e := EncodeItems(h.table, depth, a[1..]).value;
      var f := EncodeItems(e.table, depth, b).value;
      assert h.bytes + (e.bytes + f.bytes) == h.bytes + e.bytes + f.bytes;
    }
  }

  lemma {:induction false} CanonItemsSplit(a: seq<Value>, b: seq<Value>)
    ensures CanonItems(a + b) == CanonItems(a) + CanonItems(b)
    decreases |a|
  {
    if a == [] {
      assert a + b == b;
    } else {
      assert (a + b)[1..] == a[1..] + b;
      CanonItemsSplit(a[1..], b);
    }
  }

  lemma {:induction false} TextualItemsSplit(p: Params, a: seq<Value>, b: seq<Value>)
    ensures TextualItems(p, a + b) == (TextualItems(p, a) && TextualItems(p, b))
    decreases |a|
  {
    if a == [] {
      assert a + b == b;
    } else {
      assert (a + b)[1..] == a[1..] + b;
      TextualItemsSplit(p, a[1..], b);
    }
  }

  lemma {:induction false} SizeItemsSplit(a: seq<Value>, b: seq<Value>)
    ensures SizeItems(a + b) == SizeItems(a) + SizeItems(b)
    decreases |a|
  {
    if a == [] {
      assert a + b == b;
    } else {
      assert (a + b)[1..] == a[1..] + b;
      SizeItemsSplit(a[1..], b);
    }
  }

  // ----- The round trip, from any state -------------------------------------------------

  /** `r` is `v`, `count` bytes and `cost` later, with the tables in lockstep. */
  ghost predicate Lands<T>(r: Result<(T, State), Error>, v: T, s: State, count: nat, cost: nat, t: seq<seq<byte>>) {
    && r.Ok?
    && r.value.0 == v
    && r.value.1 == Advance(s, count, cost).(table := r.value.1.table)
    && Lockstep(t, r.value.1.table)
  }

  lemma ScalarValueLands(p: Params, input: seq<byte>, s: State, t: seq<seq<byte>>, v: Value)
    requires Unlimited(p) && SeparatesZeros(p.digest)
    requires !IsContainer(v) && Textual(p, v)
    requires EncodeValue(t, s.depth, v).Ok? && At(input, s.offset, EncodeValue(t, s.depth, v).value.bytes)
    requires Lockstep(t, s.table)
    ensures Lands(DecodeValue(p, input, s), Canon(v), s, |EncodeValue(t, s.depth, v).value.bytes|,
                  WireCost(p.slot, t, s.depth, v), EncodeValue(t, s.depth, v).value.table)
  {
    hide ScalarBytes, DecodeLeaf, Lockstep, CanonScalar, Recorded, SeparatesZeros;
    var b := ScalarBytes(v).value;
    var e := EncodeValue(t, s.depth, v).value;
    EncodingHead(t, s.depth, v);
    assert input[s.offset] == e.bytes[0];
    var found := IndexOf(t, b);
    if found.Some? && found.value < POINTER_LIMIT {
      PointerIsValue(p, t, s.table, v, found.value);
      PointerLands(p, input, s, found.value);
    } else {
      ScalarLands(p, input, s, v);
      CanonScalarIsCanonical(v);
      if found.Some? {
        LongTable(t, s.table, found.value);
        RepeatKeepsLockstep(p.digest, t, s.table, CanonScalar(v));
      } else if IsInterned(v) {
        RecordKeepsLockstep(p.digest, t, s.table, v);
      }
    }
  }

  lemma LongTable(t: seq<seq<byte>>, values: seq<Value>, i: nat)
    requires POINTER_LIMIT <= i < |t|
    ensures |t| > POINTER_LIMIT
  {
  }

  /** A back-reference resolves to the very value it replaced. */
  lemma PointerIsValue(p: Params, t: seq<seq<byte>>, values: seq<Value>, v: Value, i: nat)
    requires Lockstep(t, values)
    requires i < |t| && i < POINTER_LIMIT
    requires !IsContainer(v) && ScalarBytes(v) == Ok(t[i])
    ensures i < |values| && values[i] == Canon(v)
  {
    hide ScalarBytes, CanonScalar;
    assert SameScalar(t[i], values[i]);
    ScalarBytesInjective(v, values[i]);
  }

  lemma {:induction false} ValueLands(p: Params, input: seq<byte>, s: State, t: seq<seq<byte>>, v: Value)
    requires Unlimited(p) && SeparatesZeros(p.digest) && Textual(p, v)
    requires EncodeValue(t, s.depth, v).Ok? && At(input, s.offset, EncodeValue(t, s.depth, v).value.bytes)
    requires Lockstep(t, s.table)
    ensures Lands(DecodeValue(p, input, s), Canon(v), s, |EncodeValue(t, s.depth, v).value.bytes|,
                  WireCost(p.slot, t, s.depth, v), EncodeValue(t, s.depth, v).value.table)
    decreases Size(v), 0
  {
    hide ScalarBytes, DecodeLeaf, Lockstep, CanonScalar, Recorded, SeparatesZeros, Interned;
    if !IsContainer(v) {
      ScalarValueLands(p, input, s, t, v);
    } else {
      assert Interned(t) by { LockstepInterned(t, s.table); }
      ContainerStaysInline(t, s.depth, v);
      ContainerLands(p, input, s, t, v);
    }
  }

  lemma LockstepInterned(t: seq<seq<byte>>, values: seq<Value>)
    requires Lockstep(t, values)
    ensures Interned(t)
  {
  }

  lemma {:induction false} ContainerLands(p: Params, input: seq<byte>, s: State, t: seq<seq<byte>>, v: Value)
    requires Unlimited(p) && SeparatesZeros(p.digest) && Textual(p, v) && IsContainer(v)
    requires WriteValue(t, s.depth, v).Ok? && At(input, s.offset, WriteValue(t, s.depth, v).value.bytes)
    requires Lockstep(t, s.table)
    ensures Lands(DecodeValue(p, input, s), Canon(v), s, |WriteValue(t, s.depth, v).value.bytes|,
                  WireCost(p.slot, t, s.depth, v), WriteValue(t, s.depth, v).value.table)
    decreases SizeItems(Children(v)), 4
  {
    hide ScalarBytes, DecodeLeaf, Lockstep, SeparatesZeros, EncodeItems, DecodeGroups, Children, CanonItems, Size, SizeItems, At;
    var body := EncodeItems(t, s.depth + 1, Children(v)).value;
    var tag, closing := ContainerTag(v), Closing(Count(v));
    assert [tag] + body.bytes + closing == [tag] + (body.bytes + closing);
    AtSplit(input, s.offset, [tag], body.bytes + closing);
    AtBounds(input, s.offset, [tag] + (body.bytes + closing));
    var inner := s.(offset := s.offset + 1, depth := s.depth + 1);
    var count := if Count(v) >= 0x0F then None else Some(Count(v));
    GroupsLand(p, input, inner, t, Children(v), GroupSize(v), count);
  }

  lemma AtBounds(input: seq<byte>, offset: nat, b: seq<byte>)
    requires At(input, offset, b)
    ensures offset + |b| <= |input|
  {
  }

  /** One element read and paid for, then the rest. */
  lemma GroupsUnfold(p: Params, input: seq<byte>, s: State, group: nat, count: Option<nat>,
                     vals: seq<Value>, mid: State, rest: seq<Value>, end: State)
    requires Unlimited(p) && (group == 1 || group == 2) && count != Some(0)
    requires s.offset < |input| && input[s.offset] != TERMINATOR && mid.offset <= |input|
    requires DecodeGroup(p, input, s.(spent := Saturate(s.spent + ElementCost(p.slot, group))), group) == Ok((vals, mid))
    requires DecodeGroups(p, input, mid, group, Less(count)) == Ok((rest, end))
    ensures DecodeGroups(p, input, s, group, count) == Ok((vals + rest, end))
  {
    ChargedPays(p, s, ElementCost(p.slot, group));
    hide DecodeGroup, ElementCost, Less, Charged, Saturate;
    var paid := Charged(p, s, ElementCost(p.slot, group)).value;
    var first, others := DecodeGroup(p, input, paid, group), DecodeGroups(p, input, mid, group, Less(count));
    assert first == Ok((vals, mid)) && others == Ok((rest, end));
  }

  lemma ChargedPays(p: Params, s: State, cost: nat)
    requires Unlimited(p)
    ensures Charged(p, s, cost) == Ok(s.(spent := Saturate(s.spent + cost)))
  {
  }

  lemma AtSplit3(input: seq<byte>, offset: nat, a: seq<byte>, b: seq<byte>, c: seq<byte>)
    requires At(input, offset, a + b + c)
    ensures At(input, offset, a) && At(input, offset + |a|, b + c)
    ensures |a + b + c| == |a| + |b + c|
  {
    assert a + b + c == a + (b + c);
    AtSplit(input, offset, a, b + c);
  }

  /** Charging for a slot and then advancing is advancing by the sum. */
  lemma AdvancePaid(s: State, slots: nat, mid: State, n: nat, c: nat)
    requires c >= slots
    requires mid == Advance(s.(spent := Saturate(s.spent + slots)), n, c - slots).(table := mid.table)
    ensures mid == Advance(s, n, c).(table := mid.table)
  {
  }

  lemma AdvanceTwice(s: State, m: nat, b: nat, mid: State, n: nat, c: nat, end: State)
    requires mid == Advance(s, m, b).(table := mid.table)
    requires end == Advance(mid, n, c).(table := end.table)
    ensures end == Advance(s, m + n, b + c).(table := end.table)
  {
  }

  /** An element and the run behind it, decoded one after the other, land together. */
  lemma GroupsJoin(p: Params, input: seq<byte>, s: State, group: nat, count: Option<nat>,
                   vals: seq<Value>, mid: State, m: nat, b: nat, rest: seq<Value>, n: nat, c: nat, t: seq<seq<byte>>)
    requires Unlimited(p) && (group == 1 || group == 2) && count != Some(0)
    requires s.offset < |input| && input[s.offset] != TERMINATOR && mid.offset <= |input|
    requires DecodeGroup(p, input, s.(spent := Saturate(s.spent + ElementCost(p.slot, group))), group) == Ok((vals, mid))
    requires mid == Advance(s, m, b).(table := mid.table)
    requires Lands(DecodeGroups(p, input, mid, group, Less(count)), rest, mid, n, c, t)
    ensures Lands(DecodeGroups(p, input, s, group, count), vals + rest, s, m + n, b + c, t)
  {
    hide DecodeGroup, DecodeGroups, ElementCost, Less, Advance, Lockstep, Saturate, Unlimited;
    var end := DecodeGroups(p, input, mid, group, Less(count)).value.1;
    GroupsUnfold(p, input, s, group, count, vals, mid, rest, end);
    AdvanceTwice(s, m, b, mid, n, c, end);
  }

  /** `len` values make up exactly the elements a run still expects. */
  predicate Fits(len: nat, group: nat, count: Option<nat>) {
    if count.None? then group == 2 ==> len % 2 == 0
    else len == if group == 1 then count.value else 2 * count.value
  }

  lemma FitsRest(len: nat, group: nat, count: Option<nat>)
    requires group == 1 || group == 2
    requires len > 0 && Fits(len, group, count)
    ensures len >= group && count != Some(0) && Fits(len - group, group, Less(count))
    ensures CloserFor(Less(count)) == CloserFor(count)
  {
  }

  function CloserFor(count: Option<nat>): seq<byte> {
    if count.None? then [TERMINATOR] else []
  }

  lemma GroupsDone(p: Params, input: seq<byte>, s: State, t: seq<seq<byte>>, group: nat, count: Option<nat>)
    requires group == 1 || group == 2
    requires Fits(0, group, count)
    requires s.offset <= |input| && At(input, s.offset, CloserFor(count))
    requires Lockstep(t, s.table)
    ensures Lands(DecodeGroups(p, input, s, group, count), [], s, |CloserFor(count)|, 0, t)
  {
  }

  /** The first element of a run lands, and what is left is again a run. */
  lemma {:induction false} GroupsStep(p: Params, input: seq<byte>, s: State, t: seq<seq<byte>>,
                                      items: seq<Value>, group: nat, closing: seq<byte>)
    returns (paid: State, e: Encoded, f: Encoded, mid: State)
    requires Unlimited(p) && SeparatesZeros(p.digest) && TextualItems(p, items)
    requires group == 1 || group == 2
    requires |items| >= group
    requires EncodeItems(t, s.depth, items).Ok?
    requires At(input, s.offset, EncodeItems(t, s.depth, items).value.bytes + closing)
    requires Lockstep(t, s.table)
    ensures paid == s.(spent := Saturate(s.spent + ElementCost(p.slot, group)))
    ensures DecodeGroup(p, input, paid, group) == Ok((CanonItems(items[..group]), mid))
    ensures EncodeItems(e.table, mid.depth, items[group..]) == Ok(f)
    ensures EncodeItems(t, s.depth, items) == Ok(Encoded(e.bytes + f.bytes, f.table))
    ensures mid == Advance(s, |e.bytes|, ItemsCost(p.slot, t, s.depth, items[..group])).(table := mid.table)
    ensures ItemsCost(p.slot, t, s.depth, items)
         == ItemsCost(p.slot, t, s.depth, items[..group]) + ItemsCost(p.slot, e.table, s.depth, items[group..])
    ensures CanonItems(items) == CanonItems(items[..group]) + CanonItems(items[group..])
    ensures SizeItems(items[group..]) < SizeItems(items)
    ensures TextualItems(p, items[group..])
    ensures Lockstep(e.table, mid.table)
    ensures At(input, mid.offset, f.bytes + closing)
    ensures s.offset < |input| && input[s.offset] != TERMINATOR
    decreases SizeItems(items), 2
  {
    hide Lockstep, SeparatesZeros, At, EncodeItems, ItemsCost, CanonItems, TextualItems, DecodeGroup, SizeItems;
    var vals, rest := items[..group], items[group..];
    assert items == vals + rest;
    EncodeItemsSplit(p.slot, t, s.depth, vals, rest);
    SizeItemsSplit(vals, rest);
    SizeOfItem(vals, 0);
    CanonItemsSplit(vals, rest);
    TextualItemsSplit(p, vals, rest);
    e := EncodeItems(t, s.depth, vals).value;
    f := EncodeItems(e.table, s.depth, rest).value;
    AtSplit3(input, s.offset, e.bytes, f.bytes, closing);
    paid := s.(spent := Saturate(s.spent + ElementCost(p.slot, group)));
    GroupLands(p, input, paid, t, vals, group);
    mid := DecodeGroup(p, input, paid, group).value.1;
    AdvancePaid(s, ElementCost(p.slot, group), mid, |e.bytes|, ItemsCost(p.slot, t, s.depth, vals));
  }

  lemma {:induction false} GroupsLand(p: Params, input: seq<byte>, s: State, t: seq<seq<byte>>,
                                      items: seq<Value>, group: nat, count: Option<nat>)
    requires Unlimited(p) && SeparatesZeros(p.digest) && TextualItems(p, items)
    requires group == 1 || group == 2
    requires Fits(|items|, group, count)
    requires EncodeItems(t, s.depth, items).Ok?
    requires At(input, s.offset, EncodeItems(t, s.depth, items).value.bytes + CloserFor(count))
    requires Lockstep(t, s.table)
    requires s.offset <= |input|
    ensures Lands(DecodeGroups(p, input, s, group, count), CanonItems(items), s,
                  |EncodeItems(t, s.depth, items).value.bytes + CloserFor(count)|,
                  ItemsCost(p.slot, t, s.depth, items), EncodeItems(t, s.depth, items).value.table)
    decreases SizeItems(items), 3
  {
    hide Lockstep, SeparatesZeros, At, Fits, DecodeGroup, SizeItems, EncodeItems, ItemsCost, CanonItems;
    hide TextualItems, DecodeGroups, ElementCost, Saturate, Less, Unlimited, Advance, CloserFor, Lands;
    if items == [] {
      GroupsEmpty(p, input, s, t, group, count);
    } else {
      FitsRest(|items|, group, count);
      var paid, e, f, mid := GroupsStep(p, input, s, t, items, group, CloserFor(count));
      GroupsLand(p, input, mid, e.table, items[group..], group, Less(count));
      var m, b := |e.bytes|, ItemsCost(p.slot, t, s.depth, items[..group]);
      var n, c := |f.bytes + CloserFor(count)|, ItemsCost(p.slot, e.table, s.depth, items[group..]);
      GroupsJoin(p, input, s, group, count, CanonItems(items[..group]), mid, m, b, CanonItems(items[group..]), n, c, f.table);
      assert |e.bytes + f.bytes + CloserFor(count)| == m + n;
    }
  }

  lemma GroupsEmpty(p: Params, input: seq<byte>, s: State, t: seq<seq<byte>>, group: nat, count: Option<nat>)
    requires group == 1 || group == 2
    requires Fits(0, group, count) && Lockstep(t, s.table)
    requires s.offset <= |input| && At(input, s.offset, EncodeItems(t, s.depth, []).value.bytes + CloserFor(count))
    ensures Lands(DecodeGroups(p, input, s, group, count), CanonItems([]), s,
                  |EncodeItems(t, s.depth, []).value.bytes + CloserFor(count)|,
                  ItemsCost(p.slot, t, s.depth, []), EncodeItems(t, s.depth, []).value.table)
  {
    hide Lockstep, At, Fits, DecodeGroups;
    assert [] + CloserFor(count) == CloserFor(count);
    GroupsDone(p, input, s, t, group, count);
  }

  lemma EncodeOne(slot: nat, t: seq<seq<byte>>, depth: nat, v: Value)
    ensures EncodeItems(t, depth, [v]) == EncodeValue(t, depth, v)
    ensures ItemsCost(slot, t, depth, [v]) == slot + WireCost(slot, t, depth, v)
  {
    hide EncodeValue, WireCost;
    if EncodeValue(t, depth, v).Ok? {
      var e := EncodeValue(t, depth, v).value;
      assert e.bytes + [] == e.bytes;
    }
  }

  lemma {:induction false} GroupLands(p: Params, input: seq<byte>, s: State, t: seq<seq<byte>>, vals: seq<Value>, group: nat)
    requires Unlimited(p) && SeparatesZeros(p.digest) && TextualItems(p, vals)
    requires group == 1 || group == 2
    requires |vals| == group
    requires EncodeItems(t, s.depth, vals).Ok? && At(input, s.offset, EncodeItems(t, s.depth, vals).value.bytes)
    requires Lockstep(t, s.table)
    ensures ItemsCost(p.slot, t, s.depth, vals) >= ElementCost(p.slot, group)
    ensures Lands(DecodeGroup(p, input, s, group), CanonItems(vals), s, |EncodeItems(t, s.depth, vals).value.bytes|,
                  ItemsCost(p.slot, t, s.depth, vals) - ElementCost(p.slot, group),
                  EncodeItems(t, s.depth, vals).value.table)
    ensures s.offset < |input| && input[s.offset] != TERMINATOR
    decreases SizeItems(vals), 1
  {
    hide Lockstep, SeparatesZeros, EncodeValue, DecodeValue, Size;
    var e := EncodeValue(t, s.depth, vals[0]).value;
    var f := EncodeItems(e.table, s.depth, vals[1..]).value;
    EncodingHead(t, s.depth, vals[0]);
    AtSplit(input, s.offset, e.bytes, f.bytes);
    ValueLands(p, input, s, t, vals[0]);
    if group == 2 {
      var s1 := DecodeValue(p, input, s).value.1;
      EncodeOne(p.slot, e.table, s.depth, vals[1]);
      assert vals[1..] == [vals[1]];
      SizeOfItem(vals, 1);
      ValueLands(p, input, s1, e.table, vals[1]);
      assert CanonItems(vals[1..]) == [Canon(vals[1])];
      assert CanonItems(vals) == [Canon(vals[0]), Canon(vals[1])];
      assert DecodeGroup(p, input, s, group).Ok?;
      assert ItemsCost(p.slot, t, s.depth, vals)
          == 2 * p.slot + WireCost(p.slot, t, s.depth, vals[0]) + WireCost(p.slot, e.table, s.depth, vals[1]);
    } else {
      assert vals[1..] == [];
      assert e.bytes + [] == e.bytes;
      assert ItemsCost(p.slot, e.table, s.depth, []) == 0;
      assert CanonItems(vals) == [Canon(vals[0])];
    }
  }
}
