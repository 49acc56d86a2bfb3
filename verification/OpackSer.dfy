/**
 The OPACK encoder.

 `EncodeValue`, `WriteValue` and `EncodeItems` say which bytes a value becomes under a
 given table and what the table is afterwards; the class `Encoder` appends to a
 buffer, truncates it and loops, and is proved against them.
 */
module OpackSer {
  import opened Bytes
  import opened OpackValue
  import opened OpackTables
  import opened Wrappers

  const TERMINATOR: byte := 0x03

  // ----- Scalars -------------------------------------------------------------

  function SizedBytes(n: u64, w: UintWidth): seq<byte> {
    [w.Tag()] + Le(n, w.ByteCount())
  }

  function StringHeader(len: nat): Result<seq<byte>, Error> {
    if len <= 0x20 then Ok([0x40 + len])
    else if len <= 0xFF then Ok([0x61] + Le(len, 1))
    else if len <= 0xFFFF then Ok([0x62] + Le(len, 2))
    else if len <= 0xFF_FFFF then Ok([0x63] + Le(len, 3))
    else if len <= 0xFFFF_FFFF then Ok([0x64] + Le(len, 4))
    else Err(ValueTooLong(len))
  }

  function DataHeader(len: nat): seq<byte> {
    if len <= 0x20 then [0x70 + len]
    else if len <= 0xFF then [0x91] + Le(len, 1)
    else if len <= 0xFFFF then [0x92] + Le(len, 2)
    else if len <= 0xFFFF_FFFF then [0x93] + Le(len, 4)
    else [0x94] + Le(len, 8)
  }

  function ScalarBytes(v: Value): Result<seq<byte>, Error>
    requires !IsContainer(v)
  {
    match v
    case Null => Ok([0x04])
    case Bool(flag) => Ok([if flag then 0x01 else 0x02])
    case Uint(n) => Ok(if n < 0x28 then [n + 0x08] else SizedBytes(n, NarrowestFor(n)))
    case SizedUint(n, w) =>
      if n >= Pow256(w.ByteCount()) then Err(SizedIntegerOverflow(n, w.ByteCount()))
      else Ok(SizedBytes(n, w))
    case Float(bits) => Ok([0x36] + Le(bits, 8))
    case Float32(bits) => Ok([0x35] + Le(bits, 4))
    case Str(text) =>
      var header :- StringHeader(|text|);
      Ok(header + text)
    case Data(data) => Ok(DataHeader(|data|) + data)
    case Uuid(uuid) => Ok([0x05] + uuid)
    case AbsoluteTime(_) => Err(UnpackOnlyTag(0x06))
  }

  // ----- Containers and back-references --------------------------------------

  predicate IsInterned(v: Value) {
    match v
    case Null => false
    case Bool(_) => false
    case Array(_) => false
    case Dict(_) => false
    case Uint(n) => n >= 0x28
    case _ => true
  }

  function ContainerTag(v: Value): byte
    requires IsContainer(v)
  {
    (if v.Array? then 0xD0 else 0xE0) + (if Count(v) < 0x0F then Count(v) else 0x0F)
  }

  function Closing(count: nat): seq<byte> {
    if count >= 0x0F then [TERMINATOR] else []
  }

  /** Indices at or above this are never emitted. */
  const POINTER_LIMIT: nat := U16_LIMIT

  function PointerBytes(index: nat): Option<seq<byte>> {
    if index <= 0x20 then Some([0xA0 + index])
    else if index <= 0xFF then Some([0xC1] + Le(index, 1))
    else if index < POINTER_LIMIT then Some([0xC2] + Le(index, 2))
    else None
  }

  /** What encoding one value produced, and the table it left behind. */
  datatype Encoded = Encoded(bytes: seq<byte>, table: seq<seq<byte>>)

  /** Replace a repeat by a back-reference, or number a first appearance. */
  function Intern(w: Encoded, v: Value): Encoded {
    match IndexOf(w.table, w.bytes)
    case Some(i) => (match PointerBytes(i)
                     case Some(pointer) => w.(bytes := pointer)
                     case None => w)
    case None => if IsInterned(v) then w.(table := w.table + [w.bytes]) else w
  }

  function EncodeValue(t: seq<seq<byte>>, depth: nat, v: Value): Result<Encoded, Error>
    decreases Size(v), 1
  {
    var w :- WriteValue(t, depth, v);
    Ok(Intern(w, v))
  }

  function WriteValue(t: seq<seq<byte>>, depth: nat, v: Value): Result<Encoded, Error>
    decreases Size(v), 0
  {
    if IsContainer(v) then
      if depth >= MAX_DEPTH then Err(DepthLimitExceeded(MAX_DEPTH))
      else
        var body :- EncodeItems(t, depth + 1, Children(v));
        Ok(Encoded([ContainerTag(v)] + body.bytes + Closing(Count(v)), body.table))
    else
      var b :- ScalarBytes(v);
      Ok(Encoded(b, t))
  }

  function EncodeItems(t: seq<seq<byte>>, depth: nat, items: seq<Value>): Result<Encoded, Error>
    decreases SizeItems(items), 2
  {
    if items == [] then Ok(Encoded([], t))
    else
      var head :- EncodeValue(t, depth, items[0]);
      var tail :- EncodeItems(head.table, depth, items[1..]);
      Ok(Encoded(head.bytes + tail.bytes, tail.table))
  }

  /** The bytes of a whole document, which starts from an empty table. */
  function PackBytes(v: Value): Result<seq<byte>, Error> {
    var e :- EncodeValue([], 0, v);
    Ok(e.bytes)
  }

  /** A container is its tag, its items and, from fifteen elements on, the terminator. */
  lemma ContainerWritten(t: seq<seq<byte>>, depth: nat, v: Value, before: seq<byte>)
    requires IsContainer(v)
    ensures WriteValue(t, depth, v).Ok? <==> depth < MAX_DEPTH && EncodeItems(t, depth + 1, Children(v)).Ok?
    ensures depth >= MAX_DEPTH ==> WriteValue(t, depth, v) == Err(DepthLimitExceeded(MAX_DEPTH))
    ensures depth < MAX_DEPTH && EncodeItems(t, depth + 1, Children(v)).Err?
        ==> WriteValue(t, depth, v) == Err(EncodeItems(t, depth + 1, Children(v)).error)
    ensures WriteValue(t, depth, v).Ok? ==>
              var body, w := EncodeItems(t, depth + 1, Children(v)).value, WriteValue(t, depth, v).value;
              w.table == body.table && before + w.bytes == before + [ContainerTag(v)] + body.bytes + Closing(Count(v))
  {
    hide EncodeItems, Closing, ContainerTag, Children;
    if WriteValue(t, depth, v).Ok? {
      var body := EncodeItems(t, depth + 1, Children(v)).value;
      assert before + ([ContainerTag(v)] + body.bytes + Closing(Count(v)))
          == before + [ContainerTag(v)] + body.bytes + Closing(Count(v));
    }
  }

  // ----- The imperative encoder ----------------------------------------------

  /** What a run over the whole of `all` produces, given `done` bytes and what is left to do. */
  ghost predicate Resumes(whole: Result<Encoded, Error>, done: seq<byte>, rest: Result<Encoded, Error>) {
    match rest
    case Ok(e) => whole == Ok(Encoded(done + e.bytes, e.table))
    case Err(e) => whole == Err(e)
  }

  lemma ResumesStart(e: Result<Encoded, Error>)
    ensures Resumes(e, [], e)
  {
    if e.Ok? {
      assert [] + e.value.bytes == e.value.bytes;
    }
  }

  lemma ResumesStep(whole: Result<Encoded, Error>, done: seq<byte>, t: seq<seq<byte>>, depth: nat, items: seq<Value>)
    requires items != []
    requires Resumes(whole, done, EncodeItems(t, depth, items))
    ensures match EncodeValue(t, depth, items[0])
            case Ok(h) => Resumes(whole, done + h.bytes, EncodeItems(h.table, depth, items[1..]))
            case Err(e) => whole == Err(e)
  {
    var head := EncodeValue(t, depth, items[0]);
    if head.Ok? {
      var tail := EncodeItems(head.value.table, depth, items[1..]);
      if tail.Ok? {
        assert done + (head.value.bytes + tail.value.bytes) == done + head.value.bytes + tail.value.bytes;
      }
    }
  }

  lemma ResumesPair(whole: Result<Encoded, Error>, done: seq<byte>, t: seq<seq<byte>>, depth: nat, items: seq<Value>)
    requires |items| >= 2
    requires Resumes(whole, done, EncodeItems(t, depth, items))
    ensures match EncodeValue(t, depth, items[0])
            case Err(e) => whole == Err(e)
            case Ok(h) => (match EncodeValue(h.table, depth, items[1])
                           case Err(e) => whole == Err(e)
                           case Ok(g) => Resumes(whole, done + h.bytes + g.bytes,
                                                 EncodeItems(g.table, depth, items[2..])))
  {
    ResumesStep(whole, done, t, depth, items);
    var head := EncodeValue(t, depth, items[0]);
    if head.Ok? {
      assert items[1..][1..] == items[2..];
      ResumesStep(whole, done + head.value.bytes, head.value.table, depth, items[1..]);
    }
  }

  lemma ResumesEnd(whole: Result<Encoded, Error>, done: seq<byte>, t: seq<seq<byte>>, depth: nat)
    requires Resumes(whole, done, EncodeItems(t, depth, []))
    ensures whole == Ok(Encoded(done, t))
  {
    assert done + [] == done;
  }

  class Encoder {
    const table: PackTable
    var depth: nat
    var out: seq<byte>

    constructor (out: seq<byte>)
      ensures table.Valid() && table.order == [] && fresh(table)
      ensures depth == 0 && this.out == out
    {
      table := new PackTable();
      depth := 0;
      this.out := out;
    }

    /** The buffer, the table and the result are what the specification `e` says, starting from `before`. */
    ghost predicate Appended(e: Result<Encoded, Error>, r: Result<(), Error>, before: seq<byte>)
      reads this, table
    {
      && before <= out
      && (match e
          case Ok(e) => r == Ok(()) && out == before + e.bytes && table.order == e.table
          case Err(error) => r == Err(error))
    }

    method Enter() returns (r: Result<(), Error>)
      modifies this`depth
      ensures r == if old(depth) >= MAX_DEPTH then Err(DepthLimitExceeded(MAX_DEPTH)) else Ok(())
      ensures depth == if r.Ok? then old(depth) + 1 else old(depth)
    {
      if depth >= MAX_DEPTH {
        return Err(DepthLimitExceeded(MAX_DEPTH));
      }
      depth := depth + 1;
      return Ok(());
    }

    method Value(v: Value) returns (r: Result<(), Error>)
      requires table.Valid()
      modifies this, table
      ensures table.Valid()
      ensures Appended(EncodeValue(old(table.order), old(depth), v), r, old(out))
      ensures r.Ok? ==> depth == old(depth)
      decreases Size(v), 1
    {
      hide PackTable.Valid, WriteValue, PointerBytes, IndexOf, Size, IsInterned;
      var mark := |out|;
      var w := Write(v);
      if w.Err? {
        return w;
      }
      var found := table.Lookup(out[mark..]);
      if found.Some? {
        var pointer := PointerBytes(found.value);
        if pointer.Some? {
          out := out[..mark] + pointer.value;
        }
        return Ok(());
      }
      if IsInterned(v) {
        table.Record(out[mark..]);
      }
      return Ok(());
    }

    method Write(v: Value) returns (r: Result<(), Error>)
      requires table.Valid()
      modifies this, table
      ensures table.Valid()
      ensures Appended(WriteValue(old(table.order), old(depth), v), r, old(out))
      ensures r.Ok? ==> depth == old(depth)
      decreases Size(v), 0
    {
      if v.Array? {
        r := WriteArray(v.items);
      } else if v.Dict? {
        r := WriteDict(v.entries);
      } else {
        var b := ScalarBytes(v);
        if b.Err? {
          return Err(b.error);
        }
        out := out + b.value;
        return Ok(());
      }
    }

    method WriteArray(items: seq<Value>) returns (r: Result<(), Error>)
      requires table.Valid()
      modifies this, table
      ensures table.Valid()
      ensures Appended(WriteValue(old(table.order), old(depth), Array(items)), r, old(out))
      ensures r.Ok? ==> depth == old(depth)
      decreases SizeItems(items), 4
    {
      hide PackTable.Valid, EncodeItems, EncodeValue, WriteValue, Closing, Size, SizeItems;
      ContainerWritten(table.order, depth, Array(items), out);
      var entered := Enter();
      if entered.Err? {
        return entered;
      }
      out := out + [0xD0 + if |items| < 0x0F then |items| else 0x0F];
      r := Items(items);
      if r.Ok? {
        Finish(|items|);
      }
    }

    method WriteDict(entries: seq<(Value, Value)>) returns (r: Result<(), Error>)
      requires table.Valid()
      modifies this, table
      ensures table.Valid()
      ensures Appended(WriteValue(old(table.order), old(depth), Dict(entries)), r, old(out))
      ensures r.Ok? ==> depth == old(depth)
      decreases SizeEntries(entries), 4
    {
      hide PackTable.Valid, EncodeItems, EncodeValue, WriteValue, Closing, Size, SizeEntries;
      ContainerWritten(table.order, depth, Dict(entries), out);
      var entered := Enter();
      if entered.Err? {
        return entered;
      }
      out := out + [0xE0 + if |entries| < 0x0F then |entries| else 0x0F];
      r := Entries(entries);
      if r.Ok? {
        Finish(|entries|);
      }
    }

    method Finish(count: nat)
      requires depth > 0
      modifies this
      ensures depth == old(depth) - 1
      ensures out == old(out) + Closing(count)
    {
      if count >= 0x0F {
        out := out + [TERMINATOR];
      }
      depth := depth - 1;
    }

    method Items(items: seq<Value>) returns (r: Result<(), Error>)
      requires table.Valid()
      modifies this, table
      ensures table.Valid()
      ensures Appended(EncodeItems(old(table.order), old(depth), items), r, old(out))
      ensures r.Ok? ==> depth == old(depth)
      decreases SizeItems(items), 3
    {
      hide PackTable.Valid, Resumes, EncodeValue, EncodeItems, Size, SizeItems;
      ghost var done: seq<byte> := [];
      ghost var whole := EncodeItems(table.order, depth, items);
      assert items[0..] == items;
      ResumesStart(whole);
      for i := 0 to |items|
        invariant table.Valid()
        invariant depth == old(depth)
        invariant out == old(out) + done
        invariant Resumes(whole, done, EncodeItems(table.order, depth, items[i..]))
      {
        SizeOfItem(items, i);
        assert items[i..][1..] == items[i + 1..];
        ghost var t := table.order;
        ResumesStep(whole, done, t, depth, items[i..]);
        var one := Value(items[i]);
        if one.Err? {
          return one;
        }
        done := done + EncodeValue(t, depth, items[i]).value.bytes;
      }
      ResumesEnd(whole, done, table.order, depth);
      return Ok(());
    }

    method Entries(entries: seq<(Value, Value)>) returns (r: Result<(), Error>)
      requires table.Valid()
      modifies this, table
      ensures table.Valid()
      ensures Appended(EncodeItems(old(table.order), old(depth), Flatten(entries)), r, old(out))
      ensures r.Ok? ==> depth == old(depth)
      decreases SizeEntries(entries), 3
    {
      hide PackTable.Valid, Resumes, EncodeValue, EncodeItems, Size, SizeEntries, SizeItems;
      ghost var done: seq<byte> := [];
      ghost var whole := EncodeItems(table.order, depth, Flatten(entries));
      assert entries[0..] == entries;
      ResumesStart(whole);
      for i := 0 to |entries|
        invariant table.Valid()
        invariant depth == old(depth)
        invariant out == old(out) + done
        invariant Resumes(whole, done, EncodeItems(table.order, depth, Flatten(entries[i..])))
      {
        SizeOfEntry(entries, i);
        ghost var t := table.order;
        assert Flatten(entries[i..])[2..] == Flatten(entries[i + 1..]) by {
          assert entries[i..][1..] == entries[i + 1..];
        }
        ResumesPair(whole, done, t, depth, Flatten(entries[i..]));
        var key := Value(entries[i].0);
        if key.Err? {
          return key;
        }
        ghost var k := EncodeValue(t, depth, entries[i].0).value;
        var entry := Value(entries[i].1);
        if entry.Err? {
          return entry;
        }
        done := done + k.bytes + EncodeValue(k.table, depth, entries[i].1).value.bytes;
      }
      ResumesEnd(whole, done, table.order, depth);
      return Ok(());
    }
  }

  lemma {:induction false} SizeOfEntry(entries: seq<(Value, Value)>, i: nat)
    requires i < |entries|
    ensures Size(entries[i].0) <= SizeEntries(entries)
    ensures Size(entries[i].1) <= SizeEntries(entries)
  {
    if i == 0 {
    } else {
      SizeOfEntry(entries[1..], i - 1);
    }
  }

  /** Encode a value into a fresh buffer. */
  method Pack(v: Value) returns (r: Result<seq<byte>, Error>)
    ensures r == PackBytes(v)
  {
    var encoder := new Encoder([]);
    var done := encoder.Value(v);
    if done.Err? {
      return Err(done.error);
    }
    ghost var e := EncodeValue([], 0, v).value;
    assert [] + e.bytes == e.bytes;
    return Ok(encoder.out);
  }
}
