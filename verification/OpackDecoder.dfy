/** The imperative decoder: offset, depth, spent counter and table updated in place. */
module OpackDecoder {
  import opened Bytes
  import opened OpackValue
  import opened OpackTables
  import opened OpackSer
  import opened OpackDe
  import opened Wrappers

  /** `whole` is what comes of having decoded `done` with `rest` still to come. */
  ghost predicate Continues(whole: Result<(seq<Value>, State), Error>, done: seq<Value>,
                            rest: Result<(seq<Value>, State), Error>) {
    match rest
    case Ok((vals, end)) => whole == Ok((done + vals, end))
    case Err(e) => whole == Err(e)
  }

  lemma ContinuesStart(whole: Result<(seq<Value>, State), Error>)
    ensures Continues(whole, [], whole)
  {
    if whole.Ok? {
      assert [] + whole.value.0 == whole.value.0;
    }
  }

  /** The values of one element before those of the rest. */
  function Before(vals: seq<Value>, rest: Result<(seq<Value>, State), Error>): Result<(seq<Value>, State), Error> {
    match rest
    case Ok((more, end)) => Ok((vals + more, end))
    case Err(e) => Err(e)
  }

  lemma ContinuesPast(whole: Result<(seq<Value>, State), Error>, done: seq<Value>, vals: seq<Value>,
                      rest: Result<(seq<Value>, State), Error>)
    requires Continues(whole, done, Before(vals, rest))
    ensures Continues(whole, done + vals, rest)
  {
    if rest.Ok? {
      assert done + (vals + rest.value.0) == done + vals + rest.value.0;
    }
  }

  /** One turn of the loop over elements. */
  lemma GroupsStep(p: Params, input: seq<byte>, s: State, group: nat, count: Option<nat>)
    requires group == 1 || group == 2
    requires count != Some(0) && s.offset <= |input|
    requires count.None? ==> s.offset < |input| && input[s.offset] != TERMINATOR
    ensures var paid := Charged(p, s, ElementCost(p.slot, group));
            DecodeGroups(p, input, s, group, count)
            == if paid.Err? then Err(paid.error)
               else
                 var one := DecodeGroup(p, input, paid.value, group);
                 if one.Err? then Err(one.error)
                 else Before(one.value.0, DecodeGroups(p, input, one.value.1, group, Less(count)))
  {
    hide DecodeValue, DecodeGroup, ElementCost, Charged, Less;
  }

  lemma ContinuesStep(p: Params, input: seq<byte>, s: State, group: nat, count: Option<nat>,
                      whole: Result<(seq<Value>, State), Error>, done: seq<Value>)
    requires group == 1 || group == 2
    requires count != Some(0) && s.offset <= |input|
    requires count.None? ==> s.offset < |input| && input[s.offset] != TERMINATOR
    requires Continues(whole, done, DecodeGroups(p, input, s, group, count))
    ensures var paid := Charged(p, s, ElementCost(p.slot, group));
            if paid.Err? then whole == Err(paid.error)
            else
              var one := DecodeGroup(p, input, paid.value, group);
              if one.Err? then whole == Err(one.error)
              else Continues(whole, done + one.value.0, DecodeGroups(p, input, one.value.1, group, Less(count)))
  {
    hide DecodeValue, DecodeGroup, DecodeGroups, ElementCost, Charged, Less, Before;
    GroupsStep(p, input, s, group, count);
    var paid := Charged(p, s, ElementCost(p.slot, group));
    if paid.Ok? {
      var one := DecodeGroup(p, input, paid.value, group);
      if one.Ok? {
        ContinuesPast(whole, done, one.value.0, DecodeGroups(p, input, one.value.1, group, Less(count)));
      }
    }
  }

  lemma ContinuesEnd(whole: Result<(seq<Value>, State), Error>, done: seq<Value>, end: State)
    requires Continues(whole, done, Ok(([], end)))
    ensures whole == Ok((done, end))
  {
    assert done + [] == done;
  }

  lemma ContinuesFails(whole: Result<(seq<Value>, State), Error>, done: seq<Value>, e: Error)
    requires Continues(whole, done, Err(e))
    ensures whole == Err(e)
  {
  }

  class Decoder {
    const p: Params
    const input: seq<byte>
    const table: UnpackTable
    var offset: nat
    var depth: nat
    var spent: usize

    ghost predicate Valid()
      reads this, table
    {
      table.Valid() && table.digest == p.digest && offset <= |input|
    }

    /** The decoder's state as the specification sees it. */
    ghost function Now(): State
      reads this, table
    {
      State(offset, table.values, depth, spent)
    }

    /** The result and the new state are what the specification says. */
    ghost predicate Follows<T>(spec: Result<(T, State), Error>, r: Result<T, Error>)
      reads this, table
    {
      match spec
      case Ok((v, s)) => r == Ok(v) && Now() == s
      case Err(e) => r == Err(e)
    }

    constructor (p: Params, input: seq<byte>)
      ensures Valid() && fresh(table) && this.p == p && this.input == input
      ensures Now() == Start()
    {
      this.p, this.input := p, input;
      table := new UnpackTable(p.digest);
      offset, depth, spent := 0, 0, 0;
    }

    method Take(count: nat) returns (r: Result<seq<byte>, Error>)
      requires Valid()
      modifies this`offset
      ensures Valid() && old(offset) <= offset
      ensures Follows(Taken(input, old(Now()), count), r)
    {
      var end := offset + count;
      if end > |input| {
        return Err(UnexpectedEof(offset));
      }
      r := Ok(input[offset..end]);
      offset := end;
    }

    method Peek() returns (r: Result<byte, Error>)
      requires Valid()
      ensures r == if offset < |input| then Ok(input[offset]) else Err(UnexpectedEof(offset))
    {
      r := if offset < |input| then Ok(input[offset]) else Err(UnexpectedEof(offset));
    }

    method LeUint(count: nat) returns (r: Result<u64, Error>)
      requires Valid() && count <= 8
      modifies this`offset
      ensures Valid() && old(offset) <= offset
      ensures Follows(TakenUint(input, old(Now()), count), r)
    {
      var b :- Take(count);
      FromLeBound(b);
      return Ok(FromLe(b));
    }

    method Enter() returns (r: Result<(), Error>)
      modifies this`depth
      ensures r == if old(depth) >= MAX_DEPTH then Err(DepthLimitExceeded(MAX_DEPTH)) else Ok(())
      ensures depth == if r.Ok? then old(depth) + 1 else old(depth)
    {
      if depth >= MAX_DEPTH {
        return Err(DepthLimitExceeded(MAX_DEPTH));
      }
      depth := depth + 1;
      return Ok(());
    }

    method Charge(cost: nat) returns (r: Result<(), Error>)
      requires Valid()
      modifies this`spent
      ensures Valid()
      ensures match Charged(p, old(Now()), cost)
              case Ok(s) => r == Ok(()) && Now() == s
              case Err(e) => r == Err(e)
    {
      spent := Saturate(spent + cost);
      if spent > p.budget {
        return Err(BudgetExceeded(p.budget, offset));
      }
      return Ok(());
    }

    /** The leaf a method below produced, against its specification. */
    ghost predicate FollowsLeaf(spec: Result<Leaf, Error>, r: Result<(Value, bool), Error>)
      reads this, table
    {
      match spec
      case Ok(leaf) => r == Ok((leaf.value, leaf.record)) && Now() == leaf.next
      case Err(e) => r == Err(e)
    }

    method String(len: usize, start: nat) returns (r: Result<(Value, bool), Error>)
      requires Valid()
      modifies this`offset, this`spent
      ensures Valid() && old(offset) <= offset
      ensures FollowsLeaf(DecodeString(p, input, old(Now()), start, len), r)
    {
      var b :- Take(len);
      if !p.utf8(b) {
        return Err(InvalidUtf8(start));
      }
      var _ :- Charge(len);
      return Ok((Str(b), true));
    }

    method DataBytes(len: usize) returns (r: Result<(Value, bool), Error>)
      requires Valid()
      modifies this`offset, this`spent
      ensures Valid() && old(offset) <= offset
      ensures FollowsLeaf(DecodeData(p, input, old(Now()), len), r)
    {
      var b :- Take(len);
      var _ :- Charge(len);
      return Ok((Data(b), true));
    }

    method Resolve(index: nat) returns (r: Result<(Value, bool), Error>)
      requires Valid()
      modifies this`spent
      ensures Valid()
      ensures FollowsLeaf(BackReference(p, old(Now()), index), r)
    {
      var _ :- Charge(p.slot);
      var found := table.Get(index);
      if found.None? {
        return Err(BadBackReference(index, |table.values|));
      }
      return Ok((found.value, false));
    }

    /** Decode what follows a tag that opens no container, and say whether to record it. */
    method Scalar(tag: byte, start: nat) returns (r: Result<(Value, bool), Error>)
      requires Valid() && !IsContainerTag(tag)
      modifies this`offset, this`spent
      ensures Valid() && old(offset) <= offset
      ensures FollowsLeaf(DecodeLeaf(p, input, old(Now()), start, tag), r)
    {
      if tag < 0x30 {
        r := Tiny(tag, start);
      } else if tag < 0x40 {
        r := Number(tag, start);
      } else {
        r := Sized(tag, start);
      }
    }

    method Tiny(tag: byte, start: nat) returns (r: Result<(Value, bool), Error>)
      requires Valid() && tag < 0x30
      modifies this`offset
      ensures Valid() && old(offset) <= offset
      ensures FollowsLeaf(DecodeTiny(input, old(Now()), start, tag), r)
    {
      if tag == 0x01 {
        return Ok((Bool(true), false));
      } else if tag == 0x02 {
        return Ok((Bool(false), false));
      } else if tag == 0x04 {
        return Ok((Null, false));
      } else if tag == 0x05 {
        var b :- Take(16);
        return Ok((Uuid(b), true));
      } else if tag == 0x06 {
        var n :- LeUint(8);
        return Ok((AbsoluteTime(n), true));
      } else if 0x08 <= tag {
        return Ok((Uint(tag - 0x08), false));
      }
      return Err(UnknownTag(tag, start));
    }

    method Number(tag: byte, start: nat) returns (r: Result<(Value, bool), Error>)
      requires Valid() && 0x30 <= tag < 0x40
      modifies this`offset
      ensures Valid() && old(offset) <= offset
      ensures FollowsLeaf(DecodeNumber(input, old(Now()), start, tag), r)
    {
      if tag <= 0x33 {
        var width := WidthFromTag(tag);
        var n :- LeUint(width.ByteCount());
        return Ok((SizedUint(n, width), true));
      } else if tag == 0x35 {
        var b :- Take(4);
        Pow256Values();
        return Ok((Float32(FromLe(b)), true));
      } else if tag == 0x36 {
        var n :- LeUint(8);
        return Ok((Float(n), true));
      }
      return Err(IntegerTooWide(tag, start));
    }

    method Sized(tag: byte, start: nat) returns (r: Result<(Value, bool), Error>)
      requires Valid() && 0x40 <= tag < 0xD0
      modifies this`offset, this`spent
      ensures Valid() && old(offset) <= offset
      ensures FollowsLeaf(DecodeSized(p, input, old(Now()), start, tag), r)
    {
      hide Taken, DecodeString, DecodeData, BackReference;
      if tag <= 0x60 {
        r := String(tag - 0x40, start);
      } else if tag <= 0x64 {
        var len :- LeUint(tag - 0x60);
        r := String(len, start);
      } else if 0x70 <= tag <= 0x90 {
        r := DataBytes(tag - 0x70);
      } else if 0x91 <= tag <= 0x94 {
        var len :- LeUint(DataPrefixWidth(tag));
        r := DataBytes(len);
      } else if 0xA0 <= tag <= 0xC0 {
        r := Resolve(tag - 0xA0);
      } else if 0xC1 <= tag <= 0xC4 {
        var index :- LeUint(tag - 0xC0);
        r := Resolve(index);
      } else {
        r := Err(UnknownTag(tag, start));
      }
    }

    method Value() returns (r: Result<Value, Error>)
      requires Valid()
      modifies this, table
      ensures Valid()
      ensures Follows(DecodeValue(p, input, old(Now())), r)
      decreases |input| - offset, 0
    {
      hide DecodeLeaf, DecodeGroups, UnpackTable.Valid;
      var start := offset;
      var head :- Take(1);
      var tag := head[0];
      if IsContainerTag(tag) {
        if tag < 0xE0 {
          r := Array(tag);
        } else {
          r := Dict(tag);
        }
        return;
      }
      LeafAdvances(p, input, Now(), start, tag);
      var leaf :- Scalar(tag, start);
      if leaf.1 {
        table.Record(leaf.0);
      }
      return Ok(leaf.0);
    }

    method Array(tag: byte) returns (r: Result<Value, Error>)
      requires Valid() && 0xD0 <= tag < 0xE0
      requires 0 < offset && input[offset - 1] == tag
      modifies this, table
      ensures Valid()
      ensures Follows(DecodeValue(p, input, old(Now()).(offset := old(offset) - 1)), r)
      decreases |input| - offset, 4
    {
      hide DecodeGroups, UnpackTable.Valid;
      var _ :- Enter();
      var kids: seq<OpackValue.Value>;
      if tag % 0x10 == 0x0F {
        kids :- EndlessItems();
      } else {
        kids :- CountedItems(tag % 0x10);
      }
      depth := depth - 1;
      return Ok(OpackValue.Array(kids));
    }

    method Dict(tag: byte) returns (r: Result<Value, Error>)
      requires Valid() && 0xE0 <= tag
      requires 0 < offset && input[offset - 1] == tag
      modifies this, table
      ensures Valid()
      ensures Follows(DecodeValue(p, input, old(Now()).(offset := old(offset) - 1)), r)
      decreases |input| - offset, 4
    {
      hide DecodeGroups, UnpackTable.Valid;
      var _ :- Enter();
      var entries: seq<(OpackValue.Value, OpackValue.Value)>;
      if tag % 0x10 == 0x0F {
        entries :- EndlessEntries();
      } else {
        entries :- CountedEntries(tag % 0x10);
      }
      depth := depth - 1;
      return Ok(OpackValue.Dict(entries));
    }

    method EndlessItems() returns (r: Result<seq<Value>, Error>)
      requires Valid()
      modifies this, table
      ensures Valid()
      ensures Follows(DecodeGroups(p, input, old(Now()), 1, None), r)
      decreases |input| - offset, 3
    {
      hide DecodeValue, UnpackTable.Valid, Continues;
      ghost var whole := DecodeGroups(p, input, Now(), 1, None);
      var items: seq<Value> := [];
      ContinuesStart(whole);
      while true
        invariant Valid() && old(offset) <= offset
        invariant Continues(whole, items, DecodeGroups(p, input, Now(), 1, None))
        decreases |input| - offset
      {
        if offset >= |input| {
          ContinuesFails(whole, items, UnexpectedEof(offset));
        }
        var next :- Peek();
        if next == TERMINATOR {
          ContinuesEnd(whole, items, Now().(offset := offset + 1));
          offset := offset + 1;
          return Ok(items);
        }
        ContinuesStep(p, input, Now(), 1, None, whole, items);
        var _ :- Charge(p.slot);
        var item :- Value();
        items := items + [item];
      }
    }

    method CountedItems(count: nat) returns (r: Result<seq<Value>, Error>)
      requires Valid()
      modifies this, table
      ensures Valid()
      ensures Follows(DecodeGroups(p, input, old(Now()), 1, Some(count)), r)
      decreases |input| - offset, 3
    {
      hide DecodeValue, UnpackTable.Valid, Continues;
      ghost var whole := DecodeGroups(p, input, Now(), 1, Some(count));
      var items: seq<Value> := [];
      ContinuesStart(whole);
      for i := 0 to count
        invariant Valid() && old(offset) <= offset
        invariant Continues(whole, items, DecodeGroups(p, input, Now(), 1, Some((count - i) as nat)))
      {
        ContinuesStep(p, input, Now(), 1, Some((count - i) as nat), whole, items);
        var _ :- Charge(p.slot);
        var item :- Value();
        items := items + [item];
      }
      ContinuesEnd(whole, items, Now());
      return Ok(items);
    }

    method Entry() returns (r: Result<(Value, Value), Error>)
      requires Valid()
      modifies this, table
      ensures Valid()
      ensures match DecodeGroup(p, input, old(Now()), 2)
              case Ok((vals, s)) => r.Ok? && vals == [r.value.0, r.value.1] && Now() == s && old(offset) < offset
              case Err(e) => r == Err(e)
      decreases |input| - offset, 1
    {
      hide DecodeValue, UnpackTable.Valid;
      var key :- Value();
      var value :- Value();
      return Ok((key, value));
    }

    method EndlessEntries() returns (r: Result<seq<(Value, Value)>, Error>)
      requires Valid()
      modifies this, table
      ensures Valid()
      ensures FollowsPairs(DecodeGroups(p, input, old(Now()), 2, None), r)
      decreases |input| - offset, 3
    {
      hide DecodeValue, DecodeGroup, UnpackTable.Valid, Continues;
      ghost var whole := DecodeGroups(p, input, Now(), 2, None);
      var entries: seq<(Value, Value)> := [];
      ContinuesStart(whole);
      while true
        invariant Valid() && old(offset) <= offset
        invariant Continues(whole, Flatten(entries), DecodeGroups(p, input, Now(), 2, None))
        decreases |input| - offset
      {
        if offset >= |input| {
          ContinuesFails(whole, Flatten(entries), UnexpectedEof(offset));
        }
        var next :- Peek();
        if next == TERMINATOR {
          ContinuesEnd(whole, Flatten(entries), Now().(offset := offset + 1));
          PairUpFlatten(entries);
          offset := offset + 1;
          return Ok(entries);
        }
        ContinuesStep(p, input, Now(), 2, None, whole, Flatten(entries));
        var _ :- Charge(2 * p.slot);
        var entry :- Entry();
        FlattenAppend(entries, entry);
        entries := entries + [entry];
      }
    }

    method CountedEntries(count: nat) returns (r: Result<seq<(Value, Value)>, Error>)
      requires Valid()
      modifies this, table
      ensures Valid()
      ensures FollowsPairs(DecodeGroups(p, input, old(Now()), 2, Some(count)), r)
      decreases |input| - offset, 3
    {
      hide DecodeValue, DecodeGroup, UnpackTable.Valid, Continues;
      ghost var whole := DecodeGroups(p, input, Now(), 2, Some(count));
      var entries: seq<(Value, Value)> := [];
      ContinuesStart(whole);
      for i := 0 to count
        invariant Valid() && old(offset) <= offset
        invariant Continues(whole, Flatten(entries), DecodeGroups(p, input, Now(), 2, Some((count - i) as nat)))
      {
        ContinuesStep(p, input, Now(), 2, Some((count - i) as nat), whole, Flatten(entries));
        var _ :- Charge(2 * p.slot);
        var entry :- Entry();
        FlattenAppend(entries, entry);
        entries := entries + [entry];
      }
      ContinuesEnd(whole, Flatten(entries), Now());
      PairUpFlatten(entries);
      return Ok(entries);
    }

    ghost predicate FollowsPairs(spec: Result<(seq<Value>, State), Error>, r: Result<seq<(Value, Value)>, Error>)
      requires spec.Ok? ==> |spec.value.0| % 2 == 0
      reads this, table
    {
      match spec
      case Ok((vals, s)) => r == Ok(PairUp(vals)) && Now() == s
      case Err(e) => r == Err(e)
    }
  }

  lemma {:induction false} FlattenAppend(entries: seq<(Value, Value)>, entry: (Value, Value))
    ensures Flatten(entries + [entry]) == Flatten(entries) + [entry.0, entry.1]
  {
    if entries == [] {
      assert Flatten([entry]) == [entry.0, entry.1];
    } else {
      FlattenAppend(entries[1..], entry);
      assert (entries + [entry])[1..] == entries[1..] + [entry];
    }
  }

  /** Decode one value from the front of `input`, with an explicit budget in `p`. */
  method Unpack(p: Params, input: seq<byte>) returns (r: Result<(Value, nat), Error>)
    ensures r == UnpackWith(p, input)
  {
    var decoder := new Decoder(p, input);
    var value :- decoder.Value();
    return Ok((value, decoder.offset));
  }
}
