/**
 Which items of a list become pointers, and to what.

 The numbers are read off the list itself: an item that repeats an earlier one is written as the
 count of different numbered items before that one's first appearance.
 */
module OpackNumbering {
  import opened Bytes
  import opened OpackLockstep
  import opened OpackSer
  import opened OpackShortest
  import opened OpackTables
  import opened OpackTrees
  import opened OpackValue
  import opened OpackWire
  import opened Wrappers

  /** Scalars that have an encoding. */
  ghost predicate Writable(items: seq<Value>) {
    forall i :: 0 <= i < |items| ==> !IsContainer(items[i]) && ScalarBytes(items[i]).Ok?
  }

  ghost function Inline(items: seq<Value>, i: nat): seq<byte>
    requires Writable(items) && i < |items|
  {
    ScalarBytes(items[i]).value
  }

  /** Two items are written alike when inline. */
  ghost predicate Alike(items: seq<Value>, i: nat, j: nat)
    requires Writable(items) && i < |items| && j < |items|
  {
    Inline(items, i) == Inline(items, j)
  }

  /** All items as they are written inline. */
  ghost function Inlines(items: seq<Value>): (w: seq<seq<byte>>)
    requires Writable(items)
    ensures |w| == |items| && forall i :: 0 <= i < |items| ==> w[i] == Inline(items, i)
  {
    seq(|items|, i requires 0 <= i < |items| => Inline(items, i))
  }

  /** Where what is written at `i` appears first. */
  ghost function First(items: seq<Value>, i: nat): (j: nat)
    requires Writable(items) && i < |items|
    ensures j <= i && Alike(items, j, i) && forall k: nat :: k < j ==> !Alike(items, k, i)
  {
    FirstFrom(Inlines(items), i, 0)
  }

  function FirstFrom(w: seq<seq<byte>>, i: nat, from: nat): (j: nat)
    requires from <= i < |w|
    requires forall k: nat :: k < from ==> w[k] != w[i]
    ensures j <= i && w[j] == w[i] && forall k: nat :: k < j ==> w[k] != w[i]
    decreases i - from
  {
    if w[from] == w[i] then from else FirstFrom(w, i, from + 1)
  }

  /** How many different numbered items stand before `n`. */
  ghost function NumberedBefore(items: seq<Value>, n: nat): nat
    requires Writable(items) && n <= |items|
  {
    if n == 0 then 0
    else NumberedBefore(items, n - 1) + if TakesNumber(items, n - 1) then 1 else 0
  }

  ghost predicate TakesNumber(items: seq<Value>, i: nat)
    requires Writable(items) && i < |items|
  {
    IsInterned(items[i]) && First(items, i) == i
  }

  /** How item `i` is written. */
  ghost function Piece(items: seq<Value>, i: nat): seq<byte>
    requires Writable(items) && i < |items|
  {
    var number := NumberedBefore(items, First(items, i));
    if !IsInterned(items[i]) || First(items, i) == i || number >= 65536 then Inline(items, i)
    else PointerTo(number)
  }

  function PointerTo(number: nat): seq<byte>
    requires number < 65536
  {
    PointerIsWritten(number);
    Wire(if number <= 32 then ShortPointer(number) else PrefixedPointer(if number < 256 then 1 else 2, number))
  }

  ghost function Pieces(items: seq<Value>, n: nat): seq<byte>
    requires Writable(items) && n <= |items|
  {
    if n == 0 then [] else Pieces(items, n - 1) + Piece(items, n - 1)
  }

  // ----- The encoder's table holds exactly those ---------------------------------------------------

  ghost function Numbered(items: seq<Value>, n: nat): (t: seq<seq<byte>>)
    requires Writable(items) && n <= |items|
    ensures |t| == NumberedBefore(items, n)
  {
    if n == 0 then []
    else Numbered(items, n - 1) + if TakesNumber(items, n - 1) then [Inline(items, n - 1)] else []
  }

  /** An item that takes a number is found under it. */
  lemma {:induction false} FoundUnder(items: seq<Value>, j: nat, n: nat)
    requires Writable(items) && j < n <= |items| && TakesNumber(items, j)
    ensures NumberedBefore(items, j) < |Numbered(items, n)| && Numbered(items, n)[NumberedBefore(items, j)] == Inline(items, j)
    decreases n
  {
    hide First, IsInterned, Inline;
    if j == n - 1 {
    } else {
      FoundUnder(items, j, n - 1);
    }
  }

  /** Whatever is in the table was taken from an item before `n` that takes a number. */
  lemma {:induction false} TakenFrom(items: seq<Value>, n: nat, k: nat) returns (j: nat)
    requires Writable(items) && n <= |items| && k < |Numbered(items, n)|
    ensures j < n && TakesNumber(items, j) && NumberedBefore(items, j) == k && Inline(items, j) == Numbered(items, n)[k]
    decreases n
  {
    hide First, IsInterned, Inline;
    if k < |Numbered(items, n - 1)| {
      j := TakenFrom(items, n - 1, k);
    } else {
      j := n - 1;
    }
  }

  /** Items written alike are numbered alike. */
  lemma AlikeInterned(v: Value, w: Value)
    requires !IsContainer(v) && !IsContainer(w) && ScalarBytes(v).Ok? && ScalarBytes(v) == ScalarBytes(w)
    ensures IsInterned(v) == IsInterned(w)
  {
    HeadTellsInterned(v);
    HeadTellsInterned(w);
  }

  lemma FirstOfFirst(items: seq<Value>, i: nat, j: nat)
    requires Writable(items) && i < |items| && j < |items| && Alike(items, i, j)
    ensures First(items, i) == First(items, j)
  {
    hide Inline, FirstFrom;
    var a, b := First(items, i), First(items, j);
    assert Alike(items, a, j) && Alike(items, b, i);
  }

  /** Where an item is found in the table of the items before it. */
  lemma FoundAt(items: seq<Value>, i: nat)
    requires Writable(items) && i < |items|
    ensures var j := First(items, i);
            IndexOf(Numbered(items, i), Inline(items, i))
            == if IsInterned(items[i]) && j < i then Some(NumberedBefore(items, j)) else None
  {
    hide First, FirstFrom, IsInterned, ScalarBytes, Numbered, NumberedBefore;
    var j, t, b := First(items, i), Numbered(items, i), Inline(items, i);
    AlikeInterned(items[j], items[i]);
    FirstOfFirst(items, i, j);
    var found := IndexOf(t, b);
    if found.Some? {
      var taken := TakenFrom(items, i, found.value);
      FirstOfFirst(items, i, taken);
      AlikeInterned(items[taken], items[i]);
    }
    if IsInterned(items[i]) && j < i {
      FoundUnder(items, j, i);
    }
  }

  lemma ItemIsWritten(items: seq<Value>, i: nat, depth: nat)
    requires Writable(items) && i < |items|
    ensures EncodeValue(Numbered(items, i), depth, items[i]) == Ok(Encoded(Piece(items, i), Numbered(items, i + 1)))
  {
    hide First, FirstFrom, IsInterned, ScalarBytes, NumberedBefore, IndexOf, PointerBytes, Wire;
    FoundAt(items, i);
    PointerIsWritten(NumberedBefore(items, First(items, i)));
    assert Numbered(items, i) + [] == Numbered(items, i);
    assert TakesNumber(items, i) == (IsInterned(items[i]) && First(items, i) == i);
  }

  lemma {:induction false} ItemsAreWritten(items: seq<Value>, n: nat, depth: nat)
    requires Writable(items) && n <= |items|
    ensures EncodeItems([], depth, items[..n]) == Ok(Encoded(Pieces(items, n), Numbered(items, n)))
    decreases n
  {
    hide EncodeValue, Piece, TakesNumber;
    if n == 0 {
    } else {
      ItemsAreWritten(items, n - 1, depth);
      ItemIsWritten(items, n - 1, depth);
      assert items[..n] == items[..n - 1] + [items[n - 1]];
      OneMore([], depth, items[..n - 1], items[n - 1]);
    }
  }

  lemma {:induction false} OneMore(t: seq<seq<byte>>, depth: nat, items: seq<Value>, v: Value)
    requires EncodeItems(t, depth, items).Ok? && EncodeValue(EncodeItems(t, depth, items).value.table, depth, v).Ok?
    ensures var e := EncodeItems(t, depth, items).value;
            var f := EncodeValue(e.table, depth, v).value;
            EncodeItems(t, depth, items + [v]) == Ok(Encoded(e.bytes + f.bytes, f.table))
    decreases |items|
  {
    hide EncodeValue;
    if items == [] {
      assert items + [v] == [v] && [v][1..] == [];
      var f := EncodeValue(t, depth, v).value;
      assert f.bytes + [] == f.bytes && [] + f.bytes == f.bytes;
    } else {
      assert (items + [v])[1..] == items[1..] + [v] && (items + [v])[0] == items[0];
      var head := EncodeValue(t, depth, items[0]).value;
      OneMore(head.table, depth, items[1..], v);
      var e := EncodeItems(head.table, depth, items[1..]).value;
      var f := EncodeValue(e.table, depth, v).value;
      assert head.bytes + (e.bytes + f.bytes) == head.bytes + e.bytes + f.bytes;
    }
  }

  /**
   A packed list of scalars, byte for byte: every item inline where it first appears, and from
   then on, if it is of a kind that is numbered, as a pointer to the count of different numbered
   items before that appearance, for as long as that count is below 65,536.
   */
  lemma ListIsWritten(items: seq<Value>)
    requires Writable(items)
    ensures PackBytes(Array(items))
         == Ok([if |items| < 15 then 208 + |items| else 223] + Pieces(items, |items|) + if |items| < 15 then [] else [3])
  {
    hide EncodeItems, Pieces, Writable, WriteValue;
    var none: seq<seq<byte>> := [];
    assert items[..|items|] == items;
    ItemsAreWritten(items, |items|, 1);
    ContainerIsWritten(none, 0, Array(items));
    EmptyInterned();
    ContainerStaysInline(none, 0, Array(items));
  }

  lemma EmptyInterned()
    ensures Interned([])
  {
  }
}
