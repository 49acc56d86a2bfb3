/**
 The recursive OPACK value model and the structural views of it that the
 encoder, the decoder and their proofs share.

 Floats are carried as IEEE-754 bit patterns and strings as their bytes; whether
 a byte string is UTF-8 is left to a parameter of the decoder.
 */
module OpackValue {
  import opened Bytes
  import opened Wrappers

  datatype UintWidth = One | Two | Four | Eight {
    function ByteCount(): nat {
      match this
      case One => 1
      case Two => 2
      case Four => 4
      case Eight => 8
    }

    function Tag(): byte {
      match this
      case One => 0x30
      case Two => 0x31
      case Four => 0x32
      case Eight => 0x33
    }
  }

  type Uuid16 = s: seq<byte> | |s| == 16 witness [0, 0, 0, 0, 0, 0, 0, 0, 0, 0, 0, 0, 0, 0, 0, 0]

  datatype Value =
    | Null
    | Bool(flag: bool)
    | Uint(number: u64)
    | SizedUint(sized: u64, width: UintWidth)
    | Float(bits: u64)
    | Float32(bits32: u32)
    | Str(text: Blob)
    | Data(data: Blob)
    | Uuid(uuid: Uuid16)
    | AbsoluteTime(time: u64)
    | Array(items: seq<Value>)
    | Dict(entries: seq<(Value, Value)>)

  datatype Error =
    | UnexpectedEof(consumed: nat)
    | UnknownTag(tag: byte, offset: nat)
    | UnpackOnlyTag(tag: byte)
    | IntegerTooWide(tag: byte, offset: nat)
    | BadBackReference(index: nat, len: nat)
    | InvalidUtf8(offset: nat)
    | BudgetExceeded(limit: nat, offset: nat)
    | DepthLimitExceeded(limit: nat)
    | ValueTooLong(length: nat)
    | SizedIntegerOverflow(value: nat, bytes: nat)

  const MAX_DEPTH: nat := 32

  function NarrowestFor(n: u64): (w: UintWidth)
    ensures n < Pow256(w.ByteCount())
    ensures forall w': UintWidth :: n < Pow256(w'.ByteCount()) ==> w.ByteCount() <= w'.ByteCount()
  {
    Pow256Values();
    if n <= 0xFF then One
    else if n <= 0xFFFF then Two
    else if n <= 0xFFFF_FFFF then Four
    else Eight
  }

  // ----- Structure ---------------------------------------------------------

  predicate IsContainer(v: Value) {
    v.Array? || v.Dict?
  }

  /** How many elements or entries a container declares. */
  function Count(v: Value): nat
    requires IsContainer(v)
  {
    if v.Array? then |v.items| else |v.entries|
  }

  /** How many values make up one element of a container. */
  function GroupSize(v: Value): (g: nat)
    requires IsContainer(v)
    ensures g == 1 || g == 2
  {
    if v.Array? then 1 else 2
  }

  function Size(v: Value): (n: nat)
    ensures n > 0
  {
    match v
    case Array(items) => 1 + SizeItems(items)
    case Dict(entries) => 1 + SizeEntries(entries)
    case _ => 1
  }

  function SizeItems(items: seq<Value>): nat {
    if items == [] then 0 else Size(items[0]) + SizeItems(items[1..])
  }

  function SizeEntry(entry: (Value, Value)): nat {
    Size(entry.0) + Size(entry.1)
  }

  function SizeEntries(entries: seq<(Value, Value)>): nat {
    if entries == [] then 0 else SizeEntry(entries[0]) + SizeEntries(entries[1..])
  }

  /** The keys and values of a dictionary, in wire order. */
  function Flatten(entries: seq<(Value, Value)>): (s: seq<Value>)
    ensures |s| == 2 * |entries|
    ensures SizeItems(s) == SizeEntries(entries)
  {
    if entries == [] then []
    else
      var s := [entries[0].0, entries[0].1] + Flatten(entries[1..]);
      assert s[1..][1..] == Flatten(entries[1..]);
      s
  }

  /** The inverse of `Flatten`. */
  function PairUp(s: seq<Value>): (entries: seq<(Value, Value)>)
    requires |s| % 2 == 0
    ensures 2 * |entries| == |s|
  {
    if s == [] then [] else [(s[0], s[1])] + PairUp(s[2..])
  }

  lemma {:induction false} PairUpFlatten(entries: seq<(Value, Value)>)
    ensures PairUp(Flatten(entries)) == entries
  {
    if entries == [] {
    } else {
      PairUpFlatten(entries[1..]);
      assert Flatten(entries)[2..] == Flatten(entries[1..]);
      assert entries == [entries[0]] + entries[1..];
    }
  }

  lemma {:induction false} FlattenPairUp(s: seq<Value>)
    requires |s| % 2 == 0
    ensures Flatten(PairUp(s)) == s
  {
    if s == [] {
    } else {
      FlattenPairUp(s[2..]);
      assert PairUp(s)[1..] == PairUp(s[2..]);
      assert s == [s[0], s[1]] + s[2..];
    }
  }

  /** The values inside a container, in wire order. */
  function Children(v: Value): (kids: seq<Value>)
    requires IsContainer(v)
    ensures |kids| == GroupSize(v) * Count(v)
    ensures SizeItems(kids) < Size(v)
  {
    if v.Array? then v.items else Flatten(v.entries)
  }

  /** A container of the same kind as `v` around other children. */
  function Rebuild(v: Value, kids: seq<Value>): (r: Value)
    requires IsContainer(v)
    requires |kids| % GroupSize(v) == 0
    ensures IsContainer(r) && r.Array? == v.Array?
    ensures GroupSize(r) * Count(r) == |kids|
  {
    if v.Array? then Array(kids) else Dict(PairUp(kids))
  }

  lemma RebuildChildren(v: Value, kids: seq<Value>)
    requires IsContainer(v)
    requires |kids| % GroupSize(v) == 0
    ensures Children(Rebuild(v, kids)) == kids
    ensures Rebuild(v, Children(v)) == v
  {
    if v.Dict? {
      PairUpFlatten(v.entries);
      FlattenPairUp(kids);
    }
  }

  lemma {:induction false} SizeOfItem(items: seq<Value>, i: nat)
    requires i < |items|
    ensures Size(items[i]) <= SizeItems(items)
  {
    if i == 0 {
    } else {
      SizeOfItem(items[1..], i - 1);
    }
  }

  /** How deeply containers nest inside `v`; a scalar has depth 0. */
  function Depth(v: Value): nat
    decreases Size(v), 0
  {
    if IsContainer(v) then 1 + DepthItems(Children(v)) else 0
  }

  function DepthItems(items: seq<Value>): (d: nat)
    decreases SizeItems(items), 1
  {
    if items == [] then 0
    else
      var head, tail := Depth(items[0]), DepthItems(items[1..]);
      if head > tail then head else tail
  }

  // ----- Canonical form ----------------------------------------------------

  /** What a scalar becomes once it has travelled: wide integers come back pinned to their width. */
  function CanonScalar(v: Value): Value {
    if v.Uint? && v.number >= 0x28 then SizedUint(v.number, NarrowestFor(v.number)) else v
  }

  function Canon(v: Value): (r: Value)
    ensures IsContainer(r) == IsContainer(v)
    ensures r.Array? == v.Array?
    decreases Size(v), 0
  {
    if IsContainer(v) then Rebuild(v, CanonItems(Children(v))) else CanonScalar(v)
  }

  function CanonItems(items: seq<Value>): (r: seq<Value>)
    ensures |r| == |items|
    decreases SizeItems(items), 1
  {
    if items == [] then [] else [Canon(items[0])] + CanonItems(items[1..])
  }

  lemma CanonChildren(v: Value)
    requires IsContainer(v)
    ensures Children(Canon(v)) == CanonItems(Children(v))
    ensures Count(Canon(v)) == Count(v)
  {
    RebuildChildren(v, CanonItems(Children(v)));
  }

  /** Canonicalising twice changes nothing. */
  lemma {:induction false} CanonIdempotent(v: Value)
    ensures Canon(Canon(v)) == Canon(v)
    decreases Size(v), 0
  {
    if IsContainer(v) {
      CanonChildren(v);
      CanonItemsIdempotent(Children(v));
      RebuildChildren(Canon(v), CanonItems(Children(v)));
    }
  }

  lemma {:induction false} CanonItemsIdempotent(items: seq<Value>)
    ensures CanonItems(CanonItems(items)) == CanonItems(items)
    decreases SizeItems(items), 1
  {
    if items == [] {
    } else {
      CanonIdempotent(items[0]);
      CanonItemsIdempotent(items[1..]);
      assert CanonItems(items)[1..] == CanonItems(items[1..]);
    }
  }

  // ----- Equality ----------------------------------------------------------

  const SIGN64: u64 := 0x8000_0000_0000_0000
  const SIGN32: u32 := 0x8000_0000

  predicate IsNan64(bits: u64) {
    bits % SIGN64 > 0x7FF0_0000_0000_0000
  }

  predicate IsNan32(bits: u32) {
    bits % SIGN32 > 0x7F80_0000
  }

  /** IEEE-754 equality on binary64 bit patterns. */
  predicate FloatEq(a: u64, b: u64) {
    !IsNan64(a) && !IsNan64(b) && (a == b || (a % SIGN64 == 0 && b % SIGN64 == 0))
  }

  /** IEEE-754 equality on binary32 bit patterns. */
  predicate Float32Eq(a: u32, b: u32) {
    !IsNan32(a) && !IsNan32(b) && (a == b || (a % SIGN32 == 0 && b % SIGN32 == 0))
  }

  /** The derived, typed equality on values: structural except where a float is compared. */
  predicate ValueEq(a: Value, b: Value)
    decreases Size(a), 0
  {
    match a
    case Float(x) => b.Float? && FloatEq(x, b.bits)
    case Float32(x) => b.Float32? && Float32Eq(x, b.bits32)
    case Array(_) => b.Array? && ItemsEq(Children(a), Children(b))
    case Dict(_) => b.Dict? && ItemsEq(Children(a), Children(b))
    case _ => a == b
  }

  predicate ItemsEq(a: seq<Value>, b: seq<Value>)
    decreases SizeItems(a), 1
  {
    if a == [] || b == [] then a == b
    else ValueEq(a[0], b[0]) && ItemsEq(a[1..], b[1..])
  }

  // ----- Accessors ---------------------------------------------------------

  function AsU64(v: Value): Option<u64> {
    match v
    case Uint(n) => Some(n)
    case SizedUint(n, _) => Some(n)
    case _ => None
  }

  function AsStr(v: Value): Option<Blob> {
    if v.Str? then Some(v.text) else None
  }

  /** The first entry stored under a string key, in wire order. */
  function Lookup(entries: seq<(Value, Value)>, key: Blob): (r: Option<Value>)
    ensures r.Some? <==> exists i :: 0 <= i < |entries| && entries[i].0 == Str(key)
    ensures r.Some? ==> exists i :: 0 <= i < |entries| && entries[i] == (Str(key), r.value)
                                    && forall j :: 0 <= j < i ==> entries[j].0 != Str(key)
  {
    if entries == [] then None
    else if entries[0].0 == Str(key) then
      assert entries[0] == (Str(key), entries[0].1);
      Some(entries[0].1)
    else
      var r := Lookup(entries[1..], key);
      assert forall i :: 0 < i < |entries| ==> entries[i] == entries[1..][i - 1];
      assert r.Some? ==> exists i :: 0 <= i < |entries[1..]| && entries[1..][i] == (Str(key), r.value)
                                     && entries[i + 1] == (Str(key), r.value)
                                     && forall j :: 0 <= j < i ==> entries[1..][j].0 != Str(key);
      r
  }

  function Get(v: Value, key: Blob): Option<Value> {
    if v.Dict? then Lookup(v.entries, key) else None
  }
}
