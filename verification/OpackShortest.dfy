/** The encoder's choice among the forms the decoder accepts. */
module OpackShortest {
  import opened Bytes
  import opened OpackDe
  import opened OpackSer
  import opened OpackTables
  import opened OpackValue

  /** A length prefix of `w` bytes holds less than `256^w`. */
  lemma PrefixHolds(input: seq<byte>, s: State, w: nat)
    requires w <= 8 && TakenUint(input, s, w).Ok?
    ensures var (n, next) := TakenUint(input, s, w).value; n < Pow256(w) && next == s.(offset := s.offset + w)
  {
    hide Pow256, FromLe;
    FromLeBound(Taken(input, s, w).value.0);
  }

  lemma StringTakes(p: Params, input: seq<byte>, s: State, start: nat, len: usize)
    requires DecodeString(p, input, s, start, len).Ok?
    ensures var leaf := DecodeString(p, input, s, start, len).value;
            leaf.value.Str? && |leaf.value.text| == len && leaf.next.offset == s.offset + len
  {
  }

  lemma DataTakes(p: Params, input: seq<byte>, s: State, len: usize)
    requires DecodeData(p, input, s, len).Ok?
    ensures var leaf := DecodeData(p, input, s, len).value;
            leaf.value.Data? && |leaf.value.data| == len && leaf.next.offset == s.offset + len
  {
  }

  lemma TextIsShortest(p: Params, input: seq<byte>, s: State, start: nat, tag: byte)
    requires 0x40 <= tag <= 0x64 && DecodeSized(p, input, s, start, tag).Ok?
    ensures var leaf := DecodeSized(p, input, s, start, tag).value;
            ScalarBytes(leaf.value).Ok? && |ScalarBytes(leaf.value).value| <= 1 + leaf.next.offset - s.offset
  {
    hide DecodeString, TakenUint;
    Pow256Values();
    if tag <= 0x60 {
      StringTakes(p, input, s, start, tag - 0x40);
    } else {
      PrefixHolds(input, s, tag - 0x60);
      var (len, next) := TakenUint(input, s, tag - 0x60).value;
      StringTakes(p, input, next, start, len);
      assert len < U32_LIMIT by {
        Pow256Monotone(tag - 0x60, 4);
      }
    }
  }

  lemma BytesAreShortest(p: Params, input: seq<byte>, s: State, start: nat, tag: byte)
    requires 0x70 <= tag <= 0x94 && DecodeSized(p, input, s, start, tag).Ok?
    ensures var leaf := DecodeSized(p, input, s, start, tag).value;
            ScalarBytes(leaf.value).Ok? && |ScalarBytes(leaf.value).value| <= 1 + leaf.next.offset - s.offset
  {
    hide DecodeData, TakenUint;
    Pow256Values();
    if tag <= 0x90 {
      DataTakes(p, input, s, tag - 0x70);
    } else {
      var w := DataPrefixWidth(tag);
      PrefixHolds(input, s, w);
      var (len, next) := TakenUint(input, s, w).value;
      DataTakes(p, input, next, len);
    }
  }

  lemma NumberIsShortest(input: seq<byte>, s: State, start: nat, tag: byte)
    requires 0x30 <= tag < 0x40 && DecodeNumber(input, s, start, tag).Ok?
    ensures var leaf := DecodeNumber(input, s, start, tag).value;
            ScalarBytes(leaf.value).Ok? && |ScalarBytes(leaf.value).value| <= 1 + leaf.next.offset - s.offset
  {
    if tag <= 0x33 {
      PrefixHolds(input, s, WidthFromTag(tag).ByteCount());
    }
  }

  lemma TinyIsShortest(input: seq<byte>, s: State, start: nat, tag: byte)
    requires tag < 0x30 && DecodeTiny(input, s, start, tag).Ok?
    ensures var leaf := DecodeTiny(input, s, start, tag).value;
            leaf.value.AbsoluteTime?
            || (ScalarBytes(leaf.value).Ok? && |ScalarBytes(leaf.value).value| <= 1 + leaf.next.offset - s.offset)
  {
  }

  /**
   Whatever inline form of a scalar the decoder accepts, the encoder's form of the decoded value
   is no longer. The one scalar it has no form for is a timestamp.
   */
  lemma InlineIsShortest(p: Params, input: seq<byte>, s: State, start: nat, tag: byte)
    requires tag < 0xA0 && DecodeLeaf(p, input, s, start, tag).Ok?
    ensures var leaf := DecodeLeaf(p, input, s, start, tag).value;
            && !IsContainer(leaf.value)
            && (leaf.value.AbsoluteTime?
                || (ScalarBytes(leaf.value).Ok? && |ScalarBytes(leaf.value).value| <= 1 + leaf.next.offset - s.offset))
  {
    hide ScalarBytes;
    if tag < 0x30 {
      TinyIsShortest(input, s, start, tag);
    } else if tag < 0x40 {
      NumberIsShortest(input, s, start, tag);
    } else if tag <= 0x64 {
      TextIsShortest(p, input, s, start, tag);
    } else if 0x70 <= tag {
      BytesAreShortest(p, input, s, start, tag);
    }
  }

  // ----- Back-references ----------------------------------------------------------------------

  /** Scalars whose inline form is a single byte although they are numbered. */
  predicate IsEmptyText(v: Value) {
    (v.Str? && v.text == []) || (v.Data? && v.data == [])
  }

  /** Numbered scalars whose inline form is a tag and one byte. */
  predicate IsOneByte(v: Value) {
    || (v.Str? && |v.text| == 1)
    || (v.Data? && |v.data| == 1)
    || (v.Uint? && 0x28 <= v.number < 0x100)
    || (v.SizedUint? && v.width == One)
  }

  lemma ShortForms(v: Value)
    requires !IsContainer(v) && IsInterned(v) && ScalarBytes(v).Ok?
    ensures |ScalarBytes(v).value| == 1 <==> IsEmptyText(v)
    ensures |ScalarBytes(v).value| == 2 <==> IsOneByte(v)
    ensures ScalarBytes(v).value != []
  {
  }

  /**
   A back-reference is longer than the inline form it replaces exactly for empty strings and byte
   strings numbered from 33 on, and for one-byte scalars numbered from 256 on.
   */
  lemma PointerIsLongerIff(v: Value, index: nat)
    requires !IsContainer(v) && IsInterned(v) && ScalarBytes(v).Ok? && PointerBytes(index).Some?
    ensures |PointerBytes(index).value| > |ScalarBytes(v).value|
       <==> (IsEmptyText(v) && index >= 0x21) || (IsOneByte(v) && index >= 0x100)
  {
    hide ScalarBytes, IsEmptyText, IsOneByte;
    ShortForms(v);
  }

  /** The longest pointer to one of `m` entries. */
  function PointerLength(m: nat): nat {
    if m == 0 then 0 else if m <= 0x21 then 1 else if m <= 0x100 then 2 else 3
  }

  /** The length of `v` with every scalar inline, or as a pointer among `m` entries if that is longer. */
  function LengthWithin(m: nat, v: Value): nat
    decreases Size(v), 0
  {
    if IsContainer(v) then 1 + ItemsWithin(m, Children(v)) + |Closing(Count(v))|
    else if ScalarBytes(v).Err? then 0
    else if IsInterned(v) && PointerLength(m) > |ScalarBytes(v).value| then PointerLength(m)
    else |ScalarBytes(v).value|
  }

  function ItemsWithin(m: nat, items: seq<Value>): nat
    decreases SizeItems(items), 1
  {
    if items == [] then 0 else LengthWithin(m, items[0]) + ItemsWithin(m, items[1..])
  }

  /** First bytes of the scalars that are numbered. */
  predicate NumberedHead(b: seq<byte>) {
    b != [] && (b[0] == 0x05 || 0x30 <= b[0] < 0xA0)
  }

  ghost predicate Numbered(t: seq<seq<byte>>) {
    forall i :: 0 <= i < |t| ==> NumberedHead(t[i])
  }

  lemma HeadTellsInterned(v: Value)
    requires !IsContainer(v) && ScalarBytes(v).Ok?
    ensures NumberedHead(ScalarBytes(v).value) <==> IsInterned(v)
  {
  }

  lemma PointerWithin(i: nat, m: nat)
    requires i < m && PointerBytes(i).Some?
    ensures |PointerBytes(i).value| <= PointerLength(m)
  {
  }

  lemma ScalarWithin(t: seq<seq<byte>>, depth: nat, v: Value, m: nat)
    requires Numbered(t) && !IsContainer(v) && EncodeValue(t, depth, v).Ok?
    requires |EncodeValue(t, depth, v).value.table| <= m
    ensures Numbered(EncodeValue(t, depth, v).value.table) && |t| <= |EncodeValue(t, depth, v).value.table|
    ensures |EncodeValue(t, depth, v).value.bytes| <= LengthWithin(m, v)
  {
    hide ScalarBytes, IsInterned, PointerBytes, PointerLength;
    HeadTellsInterned(v);
    match IndexOf(t, ScalarBytes(v).value)
    case Some(i) =>
      assert NumberedHead(t[i]);
      if PointerBytes(i).Some? {
        PointerWithin(i, m);
      }
    case None =>
  }

  lemma {:induction false} EncodedWithin(t: seq<seq<byte>>, depth: nat, v: Value, m: nat)
    requires Numbered(t) && EncodeValue(t, depth, v).Ok?
    requires |EncodeValue(t, depth, v).value.table| <= m
    ensures Numbered(EncodeValue(t, depth, v).value.table) && |t| <= |EncodeValue(t, depth, v).value.table|
    ensures |EncodeValue(t, depth, v).value.bytes| <= LengthWithin(m, v)
    decreases Size(v), 0
  {
    if IsContainer(v) {
      hide Numbered, Size, SizeItems, Children, EncodeItems, ItemsWithin;
      var w := WriteValue(t, depth, v).value;
      ContainerTable(t, depth, v);
      ItemsWithinTable(t, depth + 1, Children(v), m);
      ContainerNotNumbered(w, v);
    } else {
      ScalarWithin(t, depth, v, m);
    }
  }

  /** Replacing and numbering leave at least the table the items left. */
  lemma ContainerTable(t: seq<seq<byte>>, depth: nat, v: Value)
    requires IsContainer(v) && EncodeValue(t, depth, v).Ok?
    ensures WriteValue(t, depth, v).Ok? && EncodeItems(t, depth + 1, Children(v)).Ok?
    ensures EncodeItems(t, depth + 1, Children(v)).value.table == EncodeValue(t, depth, v).value.table
    ensures WriteValue(t, depth, v).value.table == EncodeValue(t, depth, v).value.table
  {
    hide EncodeItems, Children;
  }

  lemma ContainerNotNumbered(w: Encoded, v: Value)
    requires IsContainer(v) && Numbered(w.table) && w.bytes != [] && w.bytes[0] >= 0xD0
    ensures Intern(w, v) == w
  {
  }

  lemma {:induction false} ItemsWithinTable(t: seq<seq<byte>>, depth: nat, items: seq<Value>, m: nat)
    requires Numbered(t) && EncodeItems(t, depth, items).Ok?
    requires |EncodeItems(t, depth, items).value.table| <= m
    ensures Numbered(EncodeItems(t, depth, items).value.table) && |t| <= |EncodeItems(t, depth, items).value.table|
    ensures |EncodeItems(t, depth, items).value.bytes| <= ItemsWithin(m, items)
    decreases SizeItems(items), 1
  {
    hide Numbered, EncodeValue, LengthWithin;
    if items == [] {
    } else {
      var head := EncodeValue(t, depth, items[0]).value;
      TableGrows(head.table, depth, items[1..]);
      EncodedWithin(t, depth, items[0], m);
      ItemsWithinTable(head.table, depth, items[1..], m);
    }
  }

  lemma {:induction false} ValueTableGrows(t: seq<seq<byte>>, depth: nat, v: Value)
    requires EncodeValue(t, depth, v).Ok?
    ensures |t| <= |EncodeValue(t, depth, v).value.table|
    decreases Size(v), 0
  {
    hide ScalarBytes;
    if IsContainer(v) {
      hide Size, SizeItems, Children, EncodeItems;
      TableGrows(t, depth + 1, Children(v));
    }
  }

  lemma {:induction false} TableGrows(t: seq<seq<byte>>, depth: nat, items: seq<Value>)
    requires EncodeItems(t, depth, items).Ok?
    ensures |t| <= |EncodeItems(t, depth, items).value.table|
    decreases SizeItems(items), 1
  {
    hide EncodeValue;
    if items == [] {
    } else {
      ValueTableGrows(t, depth, items[0]);
      TableGrows(EncodeValue(t, depth, items[0]).value.table, depth, items[1..]);
    }
  }

  /** How many scalars packing a document numbers. */
  function TableSize(v: Value): nat {
    match EncodeValue([], 0, v)
    case Ok(e) => |e.table|
    case Err(_) => 0
  }

  /**
   Interning lengthens a document at most by what its shortest scalars lose as pointers into its
   own table; a document that numbers at most 33 scalars is never longer than without interning.
   */
  lemma InterningCost(v: Value)
    requires PackBytes(v).Ok?
    ensures |PackBytes(v).value| <= LengthWithin(TableSize(v), v)
    ensures TableSize(v) <= 0x21 ==> |PackBytes(v).value| <= LengthWithin(0, v)
  {
    hide EncodeValue, LengthWithin, TableSize;
    var n := TableSize(v);
    assert n == |EncodeValue([], 0, v).value.table| by { TableSizeIs(v); }
    EncodedWithin([], 0, v, n);
    if n <= 0x21 {
      SmallTableInline(n, v);
    }
  }

  lemma TableSizeIs(v: Value)
    requires PackBytes(v).Ok?
    ensures EncodeValue([], 0, v).Ok? && TableSize(v) == |EncodeValue([], 0, v).value.table|
  {
    hide EncodeValue;
  }

  lemma {:induction false} SmallTableInline(m: nat, v: Value)
    requires m <= 0x21
    ensures LengthWithin(m, v) == LengthWithin(0, v)
    decreases Size(v), 0
  {
    if IsContainer(v) {
      hide Size, SizeItems, Children, ItemsWithin;
      SmallTableItems(m, Children(v));
    } else if ScalarBytes(v).Ok? && IsInterned(v) {
      hide ScalarBytes;
      ShortForms(v);
    }
  }

  lemma {:induction false} SmallTableItems(m: nat, items: seq<Value>)
    requires m <= 0x21
    ensures ItemsWithin(m, items) == ItemsWithin(0, items)
    decreases SizeItems(items), 1
  {
    hide LengthWithin;
    if items == [] {
    } else {
      SmallTableInline(m, items[0]);
      SmallTableItems(m, items[1..]);
    }
  }
}
