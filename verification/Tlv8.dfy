/**
 The TLV8 pairing messages: an insertion-ordered map, a fragmenting writer, a reassembling reader.
 */
module Tlv8 {
  import opened Bytes
  import opened Wrappers

  const MAX_CHUNK: nat := 0xFF

  datatype Entry = Entry(tag: byte, value: seq<byte>)

  type Entries = seq<Entry>

  datatype Error = TruncatedHeader(offset: nat) | TruncatedValue(tag: byte, length: nat, remaining: nat)

  // ----- The map -----------------------------------------------------------------------

  /** Where a tag is, or the end if it is nowhere. */
  function Slot(m: Entries, tag: byte): (i: nat)
    ensures i <= |m| && (i < |m| ==> m[i].tag == tag) && forall j :: 0 <= j < i ==> m[j].tag != tag
  {
    if m == [] || m[0].tag == tag then 0 else 1 + Slot(m[1..], tag)
  }

  function Put(m: Entries, tag: byte, value: seq<byte>): Entries {
    var i := Slot(m, tag);
    if i < |m| then m[i := Entry(tag, value)] else m + [Entry(tag, value)]
  }

  function Find(m: Entries, tag: byte): Option<seq<byte>> {
    var i := Slot(m, tag);
    if i < |m| then Some(m[i].value) else None
  }

  /** Append to a tag's value, or add the tag at the end. */
  function Extend(m: Entries, tag: byte, more: seq<byte>): Entries {
    var i := Slot(m, tag);
    if i < |m| then m[i := Entry(tag, m[i].value + more)] else m + [Entry(tag, more)]
  }

  predicate Distinct(m: Entries) {
    forall i, j :: 0 <= i < j < |m| ==> m[i].tag != m[j].tag
  }

  function Tags(m: Entries): (tags: seq<byte>)
    ensures |tags| == |m| && forall i :: 0 <= i < |m| ==> tags[i] == m[i].tag
  {
    seq(|m|, i requires 0 <= i < |m| => m[i].tag)
  }

  lemma SlotUnique(m: Entries, tag: byte, i: nat)
    requires i <= |m| && (i < |m| ==> m[i].tag == tag) && forall j :: 0 <= j < i ==> m[j].tag != tag
    ensures Slot(m, tag) == i
  {
  }

  /** Setting a tag keeps the tags distinct, keeps the position of a tag that was there, and disturbs no other. */
  lemma PutLaws(m: Entries, tag: byte, value: seq<byte>, other: byte)
    requires Distinct(m)
    ensures Distinct(Put(m, tag, value))
    ensures Find(Put(m, tag, value), other) == if other == tag then Some(value) else Find(m, other)
    ensures Tags(Put(m, tag, value)) == if tag in Tags(m) then Tags(m) else Tags(m) + [tag]
  {
    hide Slot;
    var m' := Put(m, tag, value);
    SlotUnique(m', tag, Slot(m, tag));
    if other != tag {
      var i := Slot(m, other);
      SlotUnique(m', other, if i < |m| then i else |m'|);
    }
    if tag in Tags(m) {
      var k :| 0 <= k < |m| && m[k].tag == tag;
    }
  }

  lemma ExtendLaws(m: Entries, tag: byte, more: seq<byte>, other: byte)
    requires Distinct(m)
    ensures Distinct(Extend(m, tag, more))
    ensures Find(Extend(m, tag, more), other)
         == if other != tag then Find(m, other)
            else Some((if Find(m, tag).Some? then Find(m, tag).value else []) + more)
    ensures Tags(Extend(m, tag, more)) == if tag in Tags(m) then Tags(m) else Tags(m) + [tag]
  {
    hide Slot;
    var i := Slot(m, tag);
    assert [] + more == more;
    if i < |m| {
      PutLaws(m, tag, m[i].value + more, other);
      assert Extend(m, tag, more) == Put(m, tag, m[i].value + more);
    } else {
      PutLaws(m, tag, more, other);
      assert Extend(m, tag, more) == Put(m, tag, more);
    }
  }

  // ----- The wire form -------------------------------------------------------------------

  /** One value as consecutive chunks of at most 255 bytes; an empty value is one empty chunk. */
  function Fragments(tag: byte, value: seq<byte>): (s: seq<byte>)
    decreases |value|
  {
    if |value| <= MAX_CHUNK then [tag, |value|] + value
    else [tag, MAX_CHUNK] + value[..MAX_CHUNK] + Fragments(tag, value[MAX_CHUNK..])
  }

  function EncodeEntries(m: Entries): seq<byte> {
    if m == [] then [] else Fragments(m[0].tag, m[0].value) + EncodeEntries(m[1..])
  }

  function DecodeFrom(input: seq<byte>, offset: nat, m: Entries): Result<Entries, Error>
    requires offset <= |input|
    decreases |input| - offset
  {
    if offset == |input| then Ok(m)
    else if offset + 2 > |input| then Err(TruncatedHeader(offset))
    else
      var tag, length := input[offset], input[offset + 1];
      var end := offset + 2 + length;
      if end > |input| then Err(TruncatedValue(tag, length, |input| - (offset + 2)))
      else DecodeFrom(input, end, Extend(m, tag, input[offset + 2..end]))
  }

  function DecodeEntries(input: seq<byte>): Result<Entries, Error> {
    DecodeFrom(input, 0, [])
  }

  /** Everything the reader accepts has distinct tags. */
  lemma {:induction false} DecodeDistinct(input: seq<byte>, offset: nat, m: Entries)
    requires offset <= |input| && Distinct(m)
    requires DecodeFrom(input, offset, m).Ok?
    ensures Distinct(DecodeFrom(input, offset, m).value)
    decreases |input| - offset
  {
    hide Distinct, Extend;
    if offset == |input| {
    } else {
      var tag, end := input[offset], offset + 2 + input[offset + 1];
      var more := input[offset + 2..end];
      ExtendLaws(m, tag, more, tag);
      DecodeDistinct(input, end, Extend(m, tag, more));
    }
  }

  // ----- Round trip --------------------------------------------------------------------------

  /** One chunk is read into its tag's value. */
  lemma ChunkLands(input: seq<byte>, offset: nat, m: Entries, tag: byte, chunk: seq<byte>)
    requires |chunk| <= MAX_CHUNK && At(input, offset, [tag, |chunk|] + chunk)
    ensures DecodeFrom(input, offset, m) == DecodeFrom(input, offset + 2 + |chunk|, Extend(m, tag, chunk))
  {
    hide Extend;
    AtSplit(input, offset, [tag, |chunk|], chunk);
    assert input[offset..offset + 2] == [tag, |chunk|];
    assert input[offset] == [tag, |chunk|][0] && input[offset + 1] == [tag, |chunk|][1];
  }

  lemma ExtendTwice(m: Entries, tag: byte, a: seq<byte>, b: seq<byte>)
    ensures Extend(Extend(m, tag, a), tag, b) == Extend(m, tag, a + b)
  {
    hide Slot;
    SlotUnique(Extend(m, tag, a), tag, Slot(m, tag));
    if Slot(m, tag) < |m| {
      assert (m[Slot(m, tag)].value + a) + b == m[Slot(m, tag)].value + (a + b);
    }
  }

  /** A whole value, however many chunks it took, is reassembled into its tag. */
  lemma {:induction false} FragmentsLand(input: seq<byte>, offset: nat, m: Entries, tag: byte, value: seq<byte>)
    requires At(input, offset, Fragments(tag, value))
    ensures DecodeFrom(input, offset, m) == DecodeFrom(input, offset + |Fragments(tag, value)|, Extend(m, tag, value))
    decreases |value|
  {
    hide DecodeFrom, Extend;
    if |value| <= MAX_CHUNK {
      ChunkLands(input, offset, m, tag, value);
    } else {
      var chunk, rest := value[..MAX_CHUNK], value[MAX_CHUNK..];
      AtSplit(input, offset, [tag, MAX_CHUNK] + chunk, Fragments(tag, rest));
      ChunkLands(input, offset, m, tag, chunk);
      FragmentsLand(input, offset + 2 + MAX_CHUNK, Extend(m, tag, chunk), tag, rest);
      ExtendTwice(m, tag, chunk, rest);
      assert chunk + rest == value;
    }
  }

  lemma ExtendFresh(m: Entries, e: Entry)
    requires e.tag !in Tags(m)
    ensures Extend(m, e.tag, e.value) == m + [e]
  {
    hide Slot;
    FindTags(m, e.tag);
  }

  lemma FreshAfter(done: Entries, e: Entry, rest: Entries)
    requires Distinct(done + ([e] + rest))
    ensures e.tag !in Tags(done)
  {
    var all := done + ([e] + rest);
    assert all[|done|] == e;
    assert forall i :: 0 <= i < |done| ==> all[i] == done[i];
  }

  lemma {:induction false} EntriesLand(input: seq<byte>, offset: nat, done: Entries, left: Entries)
    requires Distinct(done + left)
    requires At(input, offset, EncodeEntries(left)) && offset + |EncodeEntries(left)| == |input|
    ensures DecodeFrom(input, offset, done) == Ok(done + left)
    decreases |left|
  {
    hide Fragments, DecodeFrom, Distinct, Extend, At;
    if left == [] {
      assert done + left == done;
      AtEnd(input, done);
    } else {
      var e, rest := left[0], left[1..];
      assert left == [e] + rest;
      AtSplit(input, offset, Fragments(e.tag, e.value), EncodeEntries(rest));
      FragmentsLand(input, offset, done, e.tag, e.value);
      FreshAfter(done, e, rest);
      ExtendFresh(done, e);
      assert done + [e] + rest == done + left;
      EntriesLand(input, offset + |Fragments(e.tag, e.value)|, done + [e], rest);
    }
  }

  /**
   A message is read back exactly as it was written if and only if its tags are distinct,
   whatever the lengths of its values.
   */
  lemma RoundTripIffDistinct(m: Entries)
    ensures Distinct(m) <==> DecodeEntries(EncodeEntries(m)) == Ok(m)
  {
    hide EncodeEntries, DecodeFrom;
    var wire := EncodeEntries(m);
    assert wire[0..|wire|] == wire;
    if Distinct(m) {
      assert [] + m == m;
      EntriesLand(wire, 0, [], m);
    } else if DecodeFrom(wire, 0, []).Ok? {
      DecodeDistinct(wire, 0, []);
    }
  }

  /** Every chunk costs two bytes of header; only an empty value has an empty chunk. */
  lemma {:induction false} FragmentsLength(tag: byte, value: seq<byte>)
    ensures |Fragments(tag, value)| == |value| + 2 * (if value == [] then 1 else (|value| + 254) / 255)
    decreases |value|
  {
    if |value| <= MAX_CHUNK {
    } else {
      FragmentsLength(tag, value[MAX_CHUNK..]);
    }
  }

  // ----- Reading two messages in a row --------------------------------------------------------

  /** Every entry of `b`, in order, appended to `a`. */
  function Merge(a: Entries, b: Entries): Entries {
    if b == [] then a
    else
      var last := b[|b| - 1];
      Extend(Merge(a, b[..|b| - 1]), last.tag, last.value)
  }

  /** The tags of `b` that `a` lacks. */
  function NewTags(a: Entries, b: Entries): (tags: seq<byte>)
    ensures forall t :: t in tags <==> t in Tags(b) && t !in Tags(a)
  {
    if b == [] then []
    else
      var last := b[|b| - 1].tag;
      var front := NewTags(a, b[..|b| - 1]);
      assert Tags(b) == Tags(b[..|b| - 1]) + [last];
      if last in Tags(a) || last in front then front else front + [last]
  }

  lemma {:induction false} MergeTags(a: Entries, b: Entries)
    requires Distinct(a)
    ensures Distinct(Merge(a, b)) && Tags(Merge(a, b)) == Tags(a) + NewTags(a, b)
    decreases |b|
  {
    hide Slot, Extend, Distinct, Tags, Find;
    if b == [] {
    } else {
      var front, last := b[..|b| - 1], b[|b| - 1];
      MergeTags(a, front);
      ExtendLaws(Merge(a, front), last.tag, last.value, last.tag);
      var before, more := Tags(a), NewTags(a, front);
      assert (before + more) + [last.tag] == before + (more + [last.tag]);
      assert last.tag in before + more <==> last.tag in before || last.tag in more;
    }
  }

  /** Everything a list holds under one tag, in order. */
  function Values(b: Entries, tag: byte): seq<byte> {
    if b == [] then []
    else Values(b[..|b| - 1], tag) + if b[|b| - 1].tag == tag then b[|b| - 1].value else []
  }

  function ValueOr(r: Option<seq<byte>>): seq<byte> {
    if r.Some? then r.value else []
  }

  /**
   Merging appends, per tag, everything the second list holds under it, however often the tag
   occurs there and wherever; tags keep the order in which they first appear.
   */
  lemma {:induction false} MergeMeans(a: Entries, b: Entries, tag: byte)
    requires Distinct(a)
    ensures Distinct(Merge(a, b)) && Tags(Merge(a, b)) == Tags(a) + NewTags(a, b)
    ensures Find(Merge(a, b), tag)
         == if tag in Tags(a) || tag in Tags(b) then Some(ValueOr(Find(a, tag)) + Values(b, tag)) else None
    decreases |b|
  {
    hide Slot, Extend, Distinct, Find, NewTags;
    MergeTags(a, b);
    FindTags(a, tag);
    if b == [] {
      assert ValueOr(Find(a, tag)) + [] == ValueOr(Find(a, tag));
    } else {
      hide Values, Merge, NewTags;
      var front, last := b[..|b| - 1], b[|b| - 1];
      assert b == front + [last];
      MergeTags(a, front);
      MergeMeans(a, front, tag);
      MergeSnoc(a, front, last);
      ExtendLaws(Merge(a, front), last.tag, last.value, tag);
      ValuesSnoc(front, last, tag);
      ValueGrows(ValueOr(Find(a, tag)), Values(front, tag), last.value);
      FindTags(Merge(a, front), tag);
      if tag !in Tags(a) && tag !in Tags(front) {
        ValuesNone(front, tag);
      }
    }
  }

  lemma ValueGrows(before: seq<byte>, values: seq<byte>, more: seq<byte>)
    ensures (before + values) + more == before + (values + more)
    ensures before + (values + []) == before + values
    ensures [] + more == more && [] + ([] + more) == more
  {
  }

  lemma ValuesSnoc(front: Entries, last: Entry, tag: byte)
    ensures Values(front + [last], tag) == Values(front, tag) + if last.tag == tag then last.value else []
    ensures Tags(front + [last]) == Tags(front) + [last.tag]
  {
    assert (front + [last])[..|front|] == front;
  }

  lemma {:induction false} ValuesNone(b: Entries, tag: byte)
    requires tag !in Tags(b)
    ensures Values(b, tag) == []
    decreases |b|
  {
    if b == [] {
    } else {
      assert Tags(b) == Tags(b[..|b| - 1]) + [b[|b| - 1].tag];
      ValuesNone(b[..|b| - 1], tag);
    }
  }

  lemma FindEmpty(tag: byte)
    ensures Find([], tag) == None
  {
  }

  lemma FindTags(m: Entries, tag: byte)
    ensures Find(m, tag).Some? <==> tag in Tags(m)
  {
    hide Slot;
    if tag in Tags(m) {
      var k :| 0 <= k < |m| && m[k].tag == tag;
    }
    if Slot(m, tag) < |m| {
      assert Tags(m)[Slot(m, tag)] == tag;
    }
  }

  /** Appending to a tag that is there commutes with appending to another. */
  lemma ExtendCommutes(m: Entries, s: byte, x: seq<byte>, t: byte, y: seq<byte>)
    requires s != t && s in Tags(m)
    ensures Extend(Extend(m, s, x), t, y) == Extend(Extend(m, t, y), s, x)
  {
    hide Slot;
    FindTags(m, s);
    var i, j := Slot(m, s), Slot(m, t);
    SlotUnique(Extend(m, s, x), t, j);
    SlotUnique(Extend(m, t, y), s, i);
  }

  lemma {:induction false} MergeKeepsTag(a: Entries, b: Entries, tag: byte)
    requires tag in Tags(b)
    ensures tag in Tags(Merge(a, b))
    decreases |b|
  {
    hide Slot;
    var front, last := b[..|b| - 1], b[|b| - 1];
    var m := Merge(a, front);
    var i := Slot(m, last.tag);
    assert Tags(Merge(a, b))[i] == last.tag;
    if tag != last.tag {
      var k :| 0 <= k < |b| && Tags(b)[k] == tag;
      assert Tags(front)[k] == tag;
      MergeKeepsTag(a, front, tag);
      var n :| 0 <= n < |m| && Tags(m)[n] == tag;
      assert Tags(Merge(a, b))[n] == tag;
    }
  }

  lemma ExtendLast(front: Entries, last: Entry, tag: byte, more: seq<byte>)
    requires Distinct(front + [last])
    ensures Extend(front + [last], tag, more)
         == if tag == last.tag then front + [Entry(tag, last.value + more)]
            else if tag in Tags(front) then Extend(front, tag, more) + [last]
            else front + [last] + [Entry(tag, more)]
  {
    hide Slot;
    var b := front + [last];
    FindTags(front, tag);
    assert forall i :: 0 <= i < |front| ==> b[i] == front[i] && b[i].tag != b[|front|].tag;
    var i := Slot(front, tag);
    SlotUnique(b, tag, if tag == last.tag then |front| else if i < |front| then i else |b|);
  }

  /** Extending after a merge is merging what was extended. */
  lemma {:induction false} ExtendMerge(a: Entries, b: Entries, tag: byte, more: seq<byte>)
    requires Distinct(b)
    ensures Extend(Merge(a, b), tag, more) == Merge(a, Extend(b, tag, more))
    decreases |b|
  {
    hide Extend, Slot;
    if b == [] {
      assert Extend(b, tag, more) == [Entry(tag, more)] by { ExtendFresh(b, Entry(tag, more)); }
      MergeSnoc(a, [], Entry(tag, more));
    } else {
      var front, last := b[..|b| - 1], b[|b| - 1];
      var m := Merge(a, front);
      assert b == front + [last];
      ExtendLast(front, last, tag, more);
      if tag == last.tag {
        ExtendTwice(m, tag, last.value, more);
        MergeSnoc(a, front, Entry(tag, last.value + more));
      } else if tag in Tags(front) {
        ExtendMerge(a, front, tag, more);
        MergeKeepsTag(a, front, tag);
        ExtendCommutes(m, tag, more, last.tag, last.value);
        MergeSnoc(a, Extend(front, tag, more), last);
      } else {
        MergeSnoc(a, b, Entry(tag, more));
      }
    }
  }

  lemma MergeSnoc(a: Entries, b: Entries, e: Entry)
    ensures Merge(a, b + [e]) == Extend(Merge(a, b), e.tag, e.value)
  {
    assert (b + [e])[..|b|] == b;
  }

  /** Reading on from a map is reading afresh and merging. */
  lemma {:induction false} DecodeMerges(input: seq<byte>, offset: nat, a: Entries, b: Entries)
    requires offset <= |input| && Distinct(b)
    ensures DecodeFrom(input, offset, Merge(a, b))
         == match DecodeFrom(input, offset, b)
            case Ok(m) => Ok(Merge(a, m))
            case Err(e) => Err(e)
    decreases |input| - offset
  {
    hide Extend, Merge, Distinct;
    if offset + 2 <= |input| && offset + 2 + input[offset + 1] <= |input| {
      var tag, end := input[offset], offset + 2 + input[offset + 1];
      var more := input[offset + 2..end];
      ExtendMerge(a, b, tag, more);
      ExtendLaws(b, tag, more, tag);
      DecodeMerges(input, end, a, Extend(b, tag, more));
    }
  }

  /** The same error, found so much later in the input. */
  function Later(e: Error, skip: nat): Error {
    match e
    case TruncatedHeader(offset) => TruncatedHeader(offset + skip)
    case TruncatedValue(_, _, _) => e
  }

  function Shifted(r: Result<Entries, Error>, skip: nat): Result<Entries, Error> {
    match r
    case Ok(m) => Ok(m)
    case Err(e) => Err(Later(e, skip))
  }

  /** Reading the tail of `x + y` is reading `y`. */
  lemma {:induction false} DecodeTail(x: seq<byte>, y: seq<byte>, offset: nat, m: Entries)
    requires offset <= |y|
    ensures DecodeFrom(x + y, |x| + offset, m) == Shifted(DecodeFrom(y, offset, m), |x|)
    decreases |y| - offset
  {
    hide Extend;
    if offset + 2 <= |y| && offset + 2 + y[offset + 1] <= |y| {
      var tag, end := y[offset], offset + 2 + y[offset + 1];
      assert (x + y)[|x| + offset] == tag && (x + y)[|x| + offset + 1] == y[offset + 1];
      assert (x + y)[|x| + offset + 2..|x| + end] == y[offset + 2..end];
      DecodeTail(x, y, end, Extend(m, tag, y[offset + 2..end]));
    }
  }

  /** What reads to the end of `x` reads the same way in `x + y`, and goes on there. */
  lemma {:induction false} DecodeHead(x: seq<byte>, y: seq<byte>, offset: nat, m: Entries)
    requires offset <= |x| && DecodeFrom(x, offset, m).Ok?
    ensures DecodeFrom(x + y, offset, m) == DecodeFrom(x + y, |x|, DecodeFrom(x, offset, m).value)
    decreases |x| - offset
  {
    hide Extend;
    if offset == |x| {
    } else {
      var tag, end := x[offset], offset + 2 + x[offset + 1];
      assert (x + y)[offset + 2..end] == x[offset + 2..end];
      DecodeHead(x, y, end, Extend(m, tag, x[offset + 2..end]));
    }
  }

  /**
   Reading two well-formed messages in a row gives their merge; if the second is malformed, so
   is the whole, with the same complaint.
   */
  lemma DecodeConcatenation(x: seq<byte>, y: seq<byte>)
    requires DecodeEntries(x).Ok?
    ensures DecodeEntries(x + y)
         == if DecodeEntries(y).Ok? then Ok(Merge(DecodeEntries(x).value, DecodeEntries(y).value))
            else Err(Later(DecodeEntries(y).error, |x|))
  {
    hide DecodeFrom;
    var a := DecodeEntries(x).value;
    DecodeHead(x, y, 0, []);
    DecodeTail(x, y, 0, a);
    assert Merge(a, []) == a;
    DecodeMerges(y, 0, a, []);
  }

  // ----- What can be read at all ------------------------------------------------------------------

  /** A chunk on the wire holds at most 255 bytes. */
  predicate Small(chunks: Entries) {
    forall i :: 0 <= i < |chunks| ==> |chunks[i].value| <= 255
  }

  function Join(chunks: Entries): seq<byte>
    requires Small(chunks)
  {
    if chunks == [] then [] else [chunks[0].tag, |chunks[0].value|] + chunks[0].value + Join(chunks[1..])
  }

  lemma {:induction false} MergeCons(a: Entries, e: Entry, b: Entries)
    ensures Merge(a, [e] + b) == Merge(Extend(a, e.tag, e.value), b)
    decreases |b|
  {
    hide Extend;
    if b == [] {
      assert [e] + b == [e];
      MergeOne(a, e);
    } else {
      var all := [e] + b;
      assert all[..|all| - 1] == [e] + b[..|b| - 1] && all[|all| - 1] == b[|b| - 1];
      MergeCons(a, e, b[..|b| - 1]);
    }
  }

  lemma {:induction false} ChunksLand(input: seq<byte>, offset: nat, m: Entries, chunks: Entries)
    requires Small(chunks) && At(input, offset, Join(chunks)) && offset + |Join(chunks)| == |input|
    ensures DecodeFrom(input, offset, m) == Ok(Merge(m, chunks))
    decreases |chunks|
  {
    hide DecodeFrom, Extend, At, Merge;
    if chunks == [] {
      AtEnd(input, m);
      assert Merge(m, []) == m by { MergeEmpty(m); }
    } else {
      var e, rest := chunks[0], chunks[1..];
      AtSplit(input, offset, [e.tag, |e.value|] + e.value, Join(rest));
      ChunkLands(input, offset, m, e.tag, e.value);
      ChunksLand(input, offset + 2 + |e.value|, Extend(m, e.tag, e.value), rest);
      MergeCons(m, e, rest);
      assert [e] + rest == chunks;
    }
  }

  lemma MergeEmpty(m: Entries)
    ensures Merge(m, []) == m
  {
  }

  /** The chunks an accepted input consists of. */
  lemma {:induction false} ChunksOf(input: seq<byte>, offset: nat, m: Entries) returns (chunks: Entries)
    requires offset <= |input| && DecodeFrom(input, offset, m).Ok?
    ensures Small(chunks) && input[offset..] == Join(chunks)
    decreases |input| - offset
  {
    hide Extend;
    if offset == |input| {
      chunks := [];
    } else {
      var tag, end := input[offset], offset + 2 + input[offset + 1];
      var value := input[offset + 2..end];
      var rest := ChunksOf(input, end, Extend(m, tag, value));
      chunks := [Entry(tag, value)] + rest;
      assert chunks[1..] == rest;
      assert input[offset..] == input[offset..offset + 2] + value + input[end..];
      assert input[offset..offset + 2] == [tag, |value|];
    }
  }

  /** `m` lists the tags of `chunks` once each, as they first appear, with all their values joined. */
  ghost predicate JoinedPerTag(m: Entries, chunks: Entries) {
    && Distinct(m)
    && Tags(m) == NewTags([], chunks)
    && forall tag :: Find(m, tag) == if tag in Tags(chunks) then Some(Values(chunks, tag)) else None
  }

  lemma MergedFromNothing(chunks: Entries)
    ensures JoinedPerTag(Merge([], chunks), chunks)
  {
    hide Merge, Find, Values, NewTags;
    var none: Entries := [];
    forall tag: byte
      ensures Find(Merge(none, chunks), tag) == if tag in Tags(chunks) then Some(Values(chunks, tag)) else None
    {
      MergeMeans(none, chunks, tag);
      FindEmpty(tag);
      assert [] + Values(chunks, tag) == Values(chunks, tag);
    }
    MergeMeans(none, chunks, 0);
    assert Tags(none) + NewTags(none, chunks) == NewTags(none, chunks);
  }

  /**
   The reader accepts exactly sequences of whole chunks. What it returns lists each tag once, in
   order of first appearance, with the values of all its chunks joined in order.
   */
  lemma ReadsIffChunks(input: seq<byte>)
    ensures DecodeEntries(input).Ok? <==> exists chunks: Entries :: Small(chunks) && input == Join(chunks)
    ensures forall chunks: Entries :: Small(chunks) && input == Join(chunks) ==>
              DecodeEntries(input).Ok? && JoinedPerTag(DecodeEntries(input).value, chunks)
  {
    hide DecodeFrom, Join, Small, Merge, JoinedPerTag;
    forall chunks: Entries | Small(chunks) && input == Join(chunks)
      ensures DecodeEntries(input).Ok? && JoinedPerTag(DecodeEntries(input).value, chunks)
    {
      JoinReads(chunks);
      MergedFromNothing(chunks);
    }
    if DecodeEntries(input).Ok? {
      var chunks := ChunksOf(input, 0, []);
      assert input[0..] == input;
      assert Small(chunks) && input == Join(chunks);
    }
  }

  lemma JoinReads(chunks: Entries)
    requires Small(chunks)
    ensures DecodeEntries(Join(chunks)) == Ok(Merge([], chunks))
  {
    hide DecodeFrom, Join, Small, Merge;
    assert Join(chunks)[0..|Join(chunks)|] == Join(chunks);
    ChunksLand(Join(chunks), 0, [], chunks);
  }

  /** A chunk of which something is missing: its length, or part of its value. */
  predicate Cut(tail: seq<byte>) {
    |tail| == 1 || (|tail| >= 2 && |tail| - 2 < tail[1])
  }

  /** Whole chunks and then a cut one are refused for the cut, wherever it is. */
  lemma CutIsReported(chunks: Entries, tail: seq<byte>)
    requires Small(chunks) && Cut(tail)
    ensures DecodeEntries(Join(chunks) + tail)
         == Err(if |tail| == 1 then TruncatedHeader(|Join(chunks)|) else TruncatedValue(tail[0], tail[1], |tail| - 2))
  {
    hide Join, Small;
    JoinReads(chunks);
    DecodeStep(tail, 0, []);
    DecodeConcatenation(Join(chunks), tail);
  }

  /** The whole chunks of an input and what is left behind them. */
  lemma {:induction false} ChunksBefore(input: seq<byte>, offset: nat) returns (chunks: Entries, tail: seq<byte>)
    requires offset <= |input|
    ensures Small(chunks) && input[offset..] == Join(chunks) + tail && (tail == [] || Cut(tail))
    decreases |input| - offset
  {
    if |input| - offset < 2 || offset + 2 + input[offset + 1] > |input| {
      chunks, tail := [], input[offset..];
      assert [] + tail == tail;
    } else {
      var tag, end := input[offset], offset + 2 + input[offset + 1];
      var value := input[offset + 2..end];
      var rest;
      rest, tail := ChunksBefore(input, end);
      chunks := [Entry(tag, value)] + rest;
      assert chunks[1..] == rest;
      assert input[offset..] == [tag, |value|] + value + input[end..];
      assert [tag, |value|] + value + (Join(rest) + tail) == [tag, |value|] + value + Join(rest) + tail;
    }
  }

  ghost predicate EndsCut(input: seq<byte>, chunks: Entries, tail: seq<byte>) {
    Small(chunks) && Cut(tail) && input == Join(chunks) + tail
  }

  /** The reader refuses exactly the inputs that end within a chunk. */
  lemma RefusedIffCut(input: seq<byte>)
    ensures DecodeEntries(input).Err? <==> exists chunks, tail :: EndsCut(input, chunks, tail)
  {
    hide Join, Small, Cut, DecodeFrom;
    if DecodeEntries(input).Err? {
      var chunks, tail := ChunksBefore(input, 0);
      assert input[0..] == input;
      if tail == [] {
        assert Join(chunks) + [] == Join(chunks);
        JoinReads(chunks);
      } else {
        assert EndsCut(input, chunks, tail);
      }
    }
    forall chunks, tail | EndsCut(input, chunks, tail)
      ensures DecodeEntries(input).Err?
    {
      CutIsReported(chunks, tail);
    }
  }

  /** A value cut into pieces of 255 bytes and a rest; an empty value is one empty piece. */
  function PiecesOf(tag: byte, value: seq<byte>): (pieces: Entries)
    ensures Small(pieces)
  {
    if value == [] then [Entry(tag, [])]
    else
      seq((|value| + 254) / 255, i requires 0 <= i < (|value| + 254) / 255 =>
        Entry(tag, value[255 * i..if 255 * i + 255 < |value| then 255 * i + 255 else |value|]))
  }

  /** The writer puts out a value as these pieces, each behind its tag and its length. */
  lemma {:induction false} FragmentsArePieces(tag: byte, value: seq<byte>)
    ensures Fragments(tag, value) == Join(PiecesOf(tag, value))
    decreases |value|
  {
    var pieces := PiecesOf(tag, value);
    if |value| <= 255 {
      assert |pieces| == 1 && value[0..|value|] == value;
      assert pieces == [Entry(tag, value)];
      assert pieces[1..] == [];
      assert [tag, |value|] + value + [] == [tag, |value|] + value;
    } else {
      var rest := value[255..];
      FragmentsArePieces(tag, rest);
      assert |pieces| == 1 + |PiecesOf(tag, rest)|;
      forall i | 0 <= i < |pieces| - 1
        ensures pieces[i + 1] == PiecesOf(tag, rest)[i]
      {
        assert 255 * (i + 1) == 255 * i + 255;
      }
      assert pieces[1..] == PiecesOf(tag, rest);
      assert pieces[0] == Entry(tag, value[..255]);
    }
  }

  // ----- Contiguous runs ----------------------------------------------------------------------------

  /** Joining only chunks that stand next to each other. */
  function Runs(chunks: Entries): (m: Entries)
    ensures chunks == [] <==> m == []
    ensures m != [] ==> m[|m| - 1].tag == chunks[|chunks| - 1].tag
    ensures forall t :: t in Tags(m) <==> t in Tags(chunks)
  {
    if chunks == [] then []
    else
      var front, e := chunks[..|chunks| - 1], chunks[|chunks| - 1];
      assert Tags(chunks) == Tags(front) + [e.tag];
      Attached(Runs(front), e)
  }

  /** A chunk after a list of runs: it lengthens the last one or starts another. */
  function Attached(m: Entries, e: Entry): (r: Entries)
    ensures r != [] && r[|r| - 1].tag == e.tag
    ensures forall t :: t in Tags(r) <==> t in Tags(m) || t == e.tag
  {
    if m != [] && m[|m| - 1].tag == e.tag then
      var r := m[|m| - 1 := Entry(e.tag, m[|m| - 1].value + e.value)];
      assert Tags(r) == Tags(m) && Tags(m)[|m| - 1] == e.tag;
      r
    else
      assert Tags(m + [e]) == Tags(m) + [e.tag];
      m + [e]
  }

  /** No tag comes back after another has stood in between. */
  ghost predicate NoTagReturns(chunks: Entries) {
    forall i, j, k :: 0 <= i < j < k < |chunks| && chunks[i].tag == chunks[k].tag ==> chunks[j].tag == chunks[i].tag
  }

  lemma AttachedDistinct(m: Entries, e: Entry)
    ensures Distinct(Attached(m, e))
       <==> Distinct(m) && (m == [] || m[|m| - 1].tag == e.tag || e.tag !in Tags(m))
  {
    var r := Attached(m, e);
    if m != [] && m[|m| - 1].tag == e.tag {
      assert forall i :: 0 <= i < |m| ==> r[i].tag == m[i].tag;
    } else {
      assert forall i :: 0 <= i < |m| ==> r[i] == m[i] && Tags(m)[i] == m[i].tag;
    }
  }

  lemma ReturnsLast(front: Entries, e: Entry)
    ensures NoTagReturns(front + [e])
       <==> NoTagReturns(front) && (front == [] || front[|front| - 1].tag == e.tag || e.tag !in Tags(front))
  {
    var all := front + [e];
    assert forall i :: 0 <= i < |front| ==> all[i] == front[i] && Tags(front)[i] == front[i].tag;
    if NoTagReturns(all) {
      assert NoTagReturns(front);
      if front != [] && e.tag in Tags(front) {
        var i :| 0 <= i < |front| && Tags(front)[i] == e.tag;
        if i < |front| - 1 {
          assert all[i].tag == all[|front|].tag && all[|front| - 1].tag == all[i].tag;
        }
      }
    }
    if NoTagReturns(front) && (front == [] || front[|front| - 1].tag == e.tag || e.tag !in Tags(front)) {
      forall i, j, k | 0 <= i < j < k < |all| && all[i].tag == all[k].tag
        ensures all[j].tag == all[i].tag
      {
        if k < |front| {
          assert front[j].tag == front[i].tag;
        } else {
          assert Tags(front)[i] == e.tag;
          if j < |front| - 1 {
            assert front[i].tag == front[|front| - 1].tag;
          }
        }
      }
    }
  }

  lemma RunsSnoc(front: Entries, e: Entry)
    ensures Runs(front + [e]) == Attached(Runs(front), e)
  {
    hide Attached;
    assert (front + [e])[..|front|] == front;
  }

  lemma NothingReturns()
    ensures Distinct(Runs([])) && NoTagReturns([])
  {
  }

  /** The runs have distinct tags exactly when no tag returns. */
  lemma {:induction false} RunsDistinctIff(chunks: Entries)
    ensures Distinct(Runs(chunks)) <==> NoTagReturns(chunks)
    decreases |chunks|
  {
    hide Distinct, NoTagReturns, Attached, Runs;
    if chunks == [] {
      NothingReturns();
    } else {
      var front, e := chunks[..|chunks| - 1], chunks[|chunks| - 1];
      assert chunks == front + [e];
      RunsSnoc(front, e);
      RunsDistinctIff(front);
      AttachedDistinct(Runs(front), e);
      ReturnsLast(front, e);
    }
  }

  /** Attaching to runs that stay distinct is appending to the map. */
  lemma AttachedIsExtend(m: Entries, e: Entry)
    requires Distinct(Attached(m, e))
    ensures Attached(m, e) == Extend(m, e.tag, e.value)
  {
    AttachedDistinct(m, e);
    if m != [] && m[|m| - 1].tag == e.tag {
      SlotUnique(m, e.tag, |m| - 1);
    } else {
      ExtendFresh(m, e);
    }
  }

  lemma {:induction false} RunsMerge(chunks: Entries)
    requires NoTagReturns(chunks)
    ensures Merge([], chunks) == Runs(chunks)
    decreases |chunks|
  {
    if chunks == [] {
    } else {
      hide Distinct, NoTagReturns, Attached, Extend;
      var front, e := chunks[..|chunks| - 1], chunks[|chunks| - 1];
      assert chunks == front + [e];
      ReturnsLast(front, e);
      RunsMerge(front);
      RunsDistinctIff(chunks);
      AttachedIsExtend(Runs(front), e);
    }
  }

  /**
   The documented reading, which joins only contiguous chunks of a tag, is what the reader
   returns if and only if no tag comes back after another.
   */
  lemma ContiguousReadingIff(chunks: Entries)
    requires Small(chunks)
    ensures DecodeEntries(Join(chunks)) == Ok(Runs(chunks)) <==> NoTagReturns(chunks)
  {
    hide DecodeEntries, Join, Small, Merge, Runs, NoTagReturns, Distinct;
    JoinReads(chunks);
    RunsDistinctIff(chunks);
    if NoTagReturns(chunks) {
      RunsMerge(chunks);
    }
    EmptyDistinct();
    MergeTags([], chunks);
  }

  /** Chunks of one tag are joined even when another tag stands between them. */
  lemma ScatteredChunksJoin(s: byte, t: byte, a: seq<byte>, b: seq<byte>, c: seq<byte>)
    requires s != t
    ensures DecodeEntries(Fragments(s, a) + Fragments(t, b) + Fragments(s, c)) == Ok([Entry(s, a + c), Entry(t, b)])
  {
    hide Fragments, DecodeEntries, Extend, Merge;
    var x, y, z := Fragments(s, a), Fragments(t, b), Fragments(s, c);
    OneValueReads(s, a);
    OneValueReads(t, b);
    OneValueReads(s, c);
    DecodeConcatenation(x, y);
    DecodeConcatenation(x + y, z);
    MergeOne([Entry(s, a)], Entry(t, b));
    MergeOne([Entry(s, a), Entry(t, b)], Entry(s, c));
    ExtendFirst(s, t, a, b, c);
  }

  lemma OneValueReads(tag: byte, value: seq<byte>)
    ensures DecodeEntries(Fragments(tag, value)) == Ok([Entry(tag, value)])
  {
    hide Fragments, DecodeEntries;
    var m := [Entry(tag, value)];
    RoundTripIffDistinct(m);
    assert m[1..] == [] && EncodeEntries(m) == Fragments(tag, value) + [];
    assert Fragments(tag, value) + [] == Fragments(tag, value);
  }

  lemma MergeOne(a: Entries, e: Entry)
    ensures Merge(a, [e]) == Extend(a, e.tag, e.value)
  {
    hide Extend;
    MergeSnoc(a, [], e);
    assert [] + [e] == [e];
  }

  lemma ExtendFirst(s: byte, t: byte, a: seq<byte>, b: seq<byte>, c: seq<byte>)
    requires s != t
    ensures Extend([Entry(s, a)], t, b) == [Entry(s, a), Entry(t, b)]
    ensures Extend([Entry(s, a), Entry(t, b)], s, c) == [Entry(s, a + c), Entry(t, b)]
  {
  }

  lemma AtEnd(input: seq<byte>, m: Entries)
    ensures DecodeFrom(input, |input|, m) == Ok(m)
  {
  }

  /** One turn of the reader. */
  lemma DecodeStep(input: seq<byte>, offset: nat, m: Entries)
    requires offset < |input|
    ensures DecodeFrom(input, offset, m)
         == if offset + 2 > |input| then Err(TruncatedHeader(offset))
            else if offset + 2 + input[offset + 1] > |input|
            then Err(TruncatedValue(input[offset], input[offset + 1], |input| - (offset + 2)))
            else DecodeFrom(input, offset + 2 + input[offset + 1],
                            Extend(m, input[offset], input[offset + 2..offset + 2 + input[offset + 1]]))
  {
    hide Extend;
  }

  /** One turn of the writer. */
  lemma NextChunk(tag: byte, value: seq<byte>, at: nat, end: nat)
    requires at < |value| && end == if at + MAX_CHUNK < |value| then at + MAX_CHUNK else |value|
    ensures var chunk := value[at..end];
            Fragments(tag, value[at..])
            == [tag, |chunk|] + chunk + if end < |value| then Fragments(tag, value[end..]) else []
  {
    var chunk := value[at..end];
    if end < |value| {
      assert value[at..][..MAX_CHUNK] == chunk && value[at..][MAX_CHUNK..] == value[end..];
    } else {
      assert value[at..] == chunk;
    }
  }

  // ----- The message object ----------------------------------------------------------------------

  method Locate(m: Entries, tag: byte) returns (i: nat)
    ensures i == Slot(m, tag)
  {
    i := 0;
    while i < |m| && m[i].tag != tag
      invariant i <= |m|
      invariant forall j :: 0 <= j < i ==> m[j].tag != tag
    {
      i := i + 1;
    }
    SlotUnique(m, tag, i);
  }

  class Tlv8 {
    var entries: Entries

    ghost predicate Valid()
      reads this
    {
      Distinct(entries)
    }

    constructor ()
      ensures Valid() && entries == []
    {
      entries := [];
    }

    /** Insert, or replace in place. */
    method SetRaw(tag: byte, value: seq<byte>)
      requires Valid()
      modifies this
      ensures Valid() && entries == Put(old(entries), tag, value)
    {
      PutLaws(entries, tag, value, tag);
      var i := Locate(entries, tag);
      if i < |entries| {
        entries := entries[i := Entry(tag, value)];
      } else {
        entries := entries + [Entry(tag, value)];
      }
    }

    method GetRaw(tag: byte) returns (r: Option<seq<byte>>)
      ensures r == Find(entries, tag)
    {
      var i := Locate(entries, tag);
      return if i < |entries| then Some(entries[i].value) else None;
    }

    method Encode() returns (out: seq<byte>)
      requires Valid()
      ensures out == EncodeEntries(entries)
      ensures DecodeEntries(out) == Ok(entries)
    {
      hide DecodeFrom, Fragments, Distinct;
      out := [];
      assert entries[0..] == entries;
      for i := 0 to |entries|
        invariant out + EncodeEntries(entries[i..]) == EncodeEntries(entries)
      {
        assert entries[i..][1..] == entries[i + 1..];
        var chunks := Chunked(entries[i].tag, entries[i].value);
        out := out + chunks;
      }
      RoundTripIffDistinct(entries);
    }

    static method Chunked(tag: byte, value: seq<byte>) returns (out: seq<byte>)
      ensures out == Fragments(tag, value)
    {
      if value == [] {
        return [tag, 0];
      }
      hide Fragments;
      out := [];
      var at := 0;
      assert value[0..] == value;
      while at < |value|
        invariant at <= |value|
        invariant if at < |value| then out + Fragments(tag, value[at..]) == Fragments(tag, value)
                  else out == Fragments(tag, value)
      {
        var end := if at + MAX_CHUNK < |value| then at + MAX_CHUNK else |value|;
        var chunk := value[at..end];
        NextChunk(tag, value, at, end);
        assert forall rest: seq<byte> :: out + ([tag, |chunk|] + chunk + rest) == out + [tag, |chunk|] + chunk + rest;
        out := out + [tag, |chunk|] + chunk;
        at := end;
      }
    }

    /** Read a message, joining all values of one tag. */
    static method Decode(input: seq<byte>) returns (r: Result<Tlv8, Error>)
      ensures r.Ok? ==> fresh(r.value) && r.value.Valid() && DecodeEntries(input) == Ok(r.value.entries)
      ensures r.Err? ==> DecodeEntries(input) == Err(r.error)
    {
      hide Distinct, DecodeFrom, Slot;
      var m: Entries := [];
      var offset := 0;
      while offset < |input|
        invariant offset <= |input|
        invariant DecodeFrom(input, offset, m) == DecodeEntries(input)
      {
        DecodeStep(input, offset, m);
        if offset + 2 > |input| {
          return Err(TruncatedHeader(offset));
        }
        var tag, length := input[offset], input[offset + 1];
        offset := offset + 2;
        if offset + length > |input| {
          return Err(TruncatedValue(tag, length, |input| - offset));
        }
        var value := input[offset..offset + length];
        offset := offset + length;
        var i := Locate(m, tag);
        if i < |m| {
          m := m[i := Entry(tag, m[i].value + value)];
        } else {
          m := m + [Entry(tag, value)];
        }
      }
      AtEnd(input, m);
      EmptyDistinct();
      DecodeDistinct(input, 0, []);
      var message := new Tlv8();
      message.entries := m;
      return Ok(message);
    }
  }

  lemma EmptyDistinct()
    ensures Distinct([])
  {
  }
}
