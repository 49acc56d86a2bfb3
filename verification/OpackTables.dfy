/**
 The two back-reference tables.

 Each table is specified by a function on a plain list: the encoder's list holds
 encodings, the decoder's list holds values. The classes keep the hash map and
 the buckets that make the list cheap to search.
 */
module OpackTables {
  import opened Bytes
  import opened OpackValue
  import opened Wrappers

  // ----- Encoder side ------------------------------------------------------

  /** The position of `b` in a list of encodings. */
  function IndexOf(t: seq<seq<byte>>, b: seq<byte>): (r: Option<nat>)
    ensures r.Some? <==> b in t
    ensures r.Some? ==> r.value < |t| && t[r.value] == b
    ensures r.Some? ==> forall i :: 0 <= i < r.value ==> t[i] != b
  {
    if t == [] then None
    else
      var last := |t| - 1;
      assert t == t[..last] + [t[last]];
      match IndexOf(t[..last], b)
      case Some(i) => Some(i)
      case None => if t[last] == b then Some(last) else None
  }

  /** The encoder-side table, keyed by encoded bytes. */
  class PackTable {
    var indices: map<seq<byte>, nat>
    ghost var order: seq<seq<byte>>

    /** The map numbers the encodings of `order` by position, each exactly once. */
    ghost predicate Valid()
      reads this
    {
      && |indices| == |order|
      && (forall i :: 0 <= i < |order| ==> order[i] in indices && indices[order[i]] == i)
      && (forall b :: b in indices ==> indices[b] < |order| && order[indices[b]] == b)
    }

    constructor ()
      ensures Valid() && order == []
    {
      indices, order := map[], [];
    }

    method Lookup(encoded: seq<byte>) returns (r: Option<nat>)
      requires Valid()
      ensures r == IndexOf(order, encoded)
    {
      r := if encoded in indices then Some(indices[encoded]) else None;
    }

    method Record(encoded: seq<byte>)
      requires Valid()
      modifies this
      ensures Valid()
      ensures order == old(order) + (if encoded in old(order) then [] else [encoded])
    {
      var next := |indices|;
      if encoded !in indices {
        indices := indices[encoded := next];
        order := order + [encoded];
      }
    }
  }

  // ----- Decoder side ------------------------------------------------------

  /** How many values may share one digest before candidates are no longer confirmed. */
  const MAX_BUCKET: nat := 64

  /** The positions of the values with digest `d`, in the order they were recorded. */
  function Bucket(digest: Value -> nat, t: seq<Value>, d: nat): (bucket: seq<nat>)
    ensures forall i :: i in bucket <==> 0 <= i < |t| && digest(t[i]) == d
  {
    if t == [] then []
    else
      var last := |t| - 1;
      var front := Bucket(digest, t[..last], d);
      if digest(t[last]) == d then front + [last] else front
  }

  /** Whether an equal value with the same digest is in the list. */
  predicate Known(digest: Value -> nat, t: seq<Value>, v: Value) {
    exists i :: 0 <= i < |t| && digest(t[i]) == digest(v) && ValueEq(t[i], v)
  }

  /** The decoder's table after `v` has been decoded inline. */
  function Recorded(digest: Value -> nat, t: seq<Value>, v: Value): (r: seq<Value>)
    ensures r == t || r == t + [v]
  {
    if |Bucket(digest, t, digest(v))| < MAX_BUCKET && Known(digest, t, v) then t else t + [v]
  }

  /** The decoder-side table, keyed by value. */
  class UnpackTable {
    const digest: Value -> nat
    var values: seq<Value>
    var buckets: map<nat, seq<nat>>

    /** Every bucket holds exactly the positions of the values filed under its digest. */
    ghost predicate Valid()
      reads this
    {
      forall d: nat :: (if d in buckets then buckets[d] else []) == Bucket(digest, values, d)
    }

    constructor (digest: Value -> nat)
      ensures Valid() && values == [] && this.digest == digest
    {
      this.digest := digest;
      values, buckets := [], map[];
    }

    method Get(index: nat) returns (r: Option<Value>)
      ensures r == if index < |values| then Some(values[index]) else None
    {
      r := if index < |values| then Some(values[index]) else None;
    }

    method Record(value: Value)
      requires Valid()
      modifies this
      ensures Valid()
      ensures values == Recorded(digest, old(values), value)
    {
      var key := digest(value);
      var bucket := if key in buckets then buckets[key] else [];
      if |bucket| < MAX_BUCKET {
        var found := Confirm(bucket, value);
        if found {
          return;
        }
      }
      buckets := buckets[key := bucket + [|values|]];
      forall d: nat
        ensures Bucket(digest, values + [value], d)
             == if d == key then Bucket(digest, values, d) + [|values|] else Bucket(digest, values, d)
      {
        BucketAppend(digest, values, value, d);
      }
      values := values + [value];
    }

    /** Compare the candidates of one bucket against a value. */
    method Confirm(bucket: seq<nat>, value: Value) returns (found: bool)
      requires bucket == Bucket(digest, values, digest(value))
      ensures found == Known(digest, values, value)
    {
      for k := 0 to |bucket|
        invariant forall j :: 0 <= j < k ==> bucket[j] < |values| && !ValueEq(values[bucket[j]], value)
      {
        assert bucket[k] in bucket;
        if ValueEq(values[bucket[k]], value) {
          return true;
        }
      }
      assert forall i :: 0 <= i < |values| && digest(values[i]) == digest(value) ==> i in bucket;
      return false;
    }
  }

  lemma BucketAppend(digest: Value -> nat, t: seq<Value>, v: Value, d: nat)
    ensures Bucket(digest, t + [v], d)
         == if digest(v) == d then Bucket(digest, t, d) + [|t|] else Bucket(digest, t, d)
  {
    assert (t + [v])[..|t|] == t;
  }

  // ----- The buckets refine a linear scan ------------------------------------

  /** A table that simply compares against everything recorded so far. */
  function ScanRecorded(t: seq<Value>, v: Value): seq<Value> {
    if exists i :: 0 <= i < |t| && ValueEq(t[i], v) then t else t + [v]
  }

  function RecordAll(digest: Value -> nat, t: seq<Value>, vs: seq<Value>): seq<Value>
    decreases |vs|
  {
    if vs == [] then t else RecordAll(digest, Recorded(digest, t, vs[0]), vs[1..])
  }

  function ScanAll(t: seq<Value>, vs: seq<Value>): seq<Value>
    decreases |vs|
  {
    if vs == [] then t else ScanAll(ScanRecorded(t, vs[0]), vs[1..])
  }

  /** Among these values, equal ones share a digest. */
  ghost predicate DigestAgreesOn(digest: Value -> nat, vs: seq<Value>) {
    forall a, b :: a in vs && b in vs && ValueEq(a, b) ==> digest(a) == digest(b)
  }

  ghost predicate Scalars(vs: seq<Value>) {
    forall v :: v in vs ==> !IsContainer(v)
  }

  ghost predicate BucketsBelowCap(digest: Value -> nat, t: seq<Value>) {
    forall d: nat :: |Bucket(digest, t, d)| < 64
  }

  lemma {:induction false} BucketGrows(digest: Value -> nat, t: seq<Value>, more: seq<Value>, d: nat)
    ensures Bucket(digest, t, d) <= Bucket(digest, t + more, d)
  {
    if more == [] {
      assert t + more == t;
    } else {
      var last := |more| - 1;
      BucketGrows(digest, t, more[..last], d);
      assert (t + more)[..|t + more| - 1] == t + more[..last];
    }
  }

  lemma {:induction false} RecordAllExtends(digest: Value -> nat, t: seq<Value>, vs: seq<Value>)
    ensures t <= RecordAll(digest, t, vs)
    decreases |vs|
  {
    if vs == [] {
    } else {
      RecordAllExtends(digest, Recorded(digest, t, vs[0]), vs[1..]);
    }
  }

  lemma BelowCapAtStart(digest: Value -> nat, t: seq<Value>, vs: seq<Value>, d: nat)
    requires BucketsBelowCap(digest, RecordAll(digest, t, vs))
    ensures |Bucket(digest, t, d)| < 64
  {
    hide Bucket;
    var final := RecordAll(digest, t, vs);
    RecordAllExtends(digest, t, vs);
    assert final == t + final[|t|..];
    BucketGrows(digest, t, final[|t|..], d);
  }

  lemma RecordedIsScan(digest: Value -> nat, t: seq<Value>, v: Value)
    requires DigestAgreesOn(digest, t + [v]) && |Bucket(digest, t, digest(v))| < 64
    ensures Recorded(digest, t, v) == ScanRecorded(t, v)
  {
    hide Bucket, ValueEq;
    forall i | 0 <= i < |t| && ValueEq(t[i], v)
      ensures digest(t[i]) == digest(v)
    {
      assert t[i] in t + [v] && v in t + [v];
    }
  }

  lemma AgreesOnPart(digest: Value -> nat, part: seq<Value>, vs: seq<Value>)
    requires DigestAgreesOn(digest, vs) && forall v :: v in part ==> v in vs
    ensures DigestAgreesOn(digest, part)
  {
  }

  /**
   As long as the final buckets are below the cap, a digest that agrees with equality on the
   values involved makes the bucketed table number them exactly as a linear scan would.
   */
  lemma {:induction false} BucketsRefineScan(digest: Value -> nat, t: seq<Value>, vs: seq<Value>)
    requires DigestAgreesOn(digest, t + vs)
    requires BucketsBelowCap(digest, RecordAll(digest, t, vs))
    ensures RecordAll(digest, t, vs) == ScanAll(t, vs)
    decreases |vs|
  {
    hide Bucket, Recorded, ScanRecorded, DigestAgreesOn, ValueEq, BucketsBelowCap;
    if vs == [] {
    } else {
      var next := Recorded(digest, t, vs[0]);
      BelowCapAtStart(digest, t, vs, digest(vs[0]));
      AgreesOnPart(digest, t + [vs[0]], t + vs);
      RecordedIsScan(digest, t, vs[0]);
      AgreesOnPart(digest, next + vs[1..], t + vs);
      BucketsRefineScan(digest, next, vs[1..]);
    }
  }

  // ----- Exactly when they do ---------------------------------------------------

  lemma ScalarEqSymmetric(a: Value, b: Value)
    requires !IsContainer(a) && ValueEq(a, b)
    ensures ValueEq(b, a) && ValueEq(a, a)
  {
  }

  lemma ScalarEqTransitive(a: Value, b: Value, c: Value)
    requires !IsContainer(a) && ValueEq(a, b) && ValueEq(b, c)
    ensures ValueEq(a, c)
  {
  }

  ghost predicate PairwiseUnequal(t: seq<Value>) {
    forall i, j :: 0 <= i < j < |t| ==> !ValueEq(t[i], t[j])
  }

  /** A linear scan never holds two equal values. */
  lemma {:induction false} ScanKeepsUnequal(t: seq<Value>, vs: seq<Value>)
    requires PairwiseUnequal(t)
    ensures PairwiseUnequal(ScanAll(t, vs))
    decreases |vs|
  {
    hide ValueEq;
    if vs == [] {
    } else {
      ScanKeepsUnequal(ScanRecorded(t, vs[0]), vs[1..]);
    }
  }

  /** The value itself is in the table, or an equal one with its digest. */
  ghost predicate Represented(digest: Value -> nat, t: seq<Value>, v: Value) {
    exists i :: 0 <= i < |t| && digest(t[i]) == digest(v) && (t[i] == v || ValueEq(t[i], v))
  }

  lemma {:induction false} RecordedRepresented(digest: Value -> nat, t: seq<Value>, vs: seq<Value>, v: Value)
    requires v in vs
    ensures Represented(digest, RecordAll(digest, t, vs), v)
    decreases |vs|
  {
    hide ValueEq, Bucket;
    var next := Recorded(digest, t, vs[0]);
    if v == vs[0] {
      assert Represented(digest, next, v) by {
        assert next == t + [v] ==> next[|t|] == v;
      }
      RecordAllExtends(digest, next, vs[1..]);
    } else {
      RecordedRepresented(digest, next, vs[1..], v);
    }
  }

  /** Where the table holds a value equal to `v` under its digest. */
  lemma EqualInTable(digest: Value -> nat, vs: seq<Value>, v: Value) returns (i: nat)
    requires v in vs && ValueEq(v, v)
    ensures var table := RecordAll(digest, [], vs);
            i < |table| && digest(table[i]) == digest(v) && ValueEq(table[i], v)
  {
    hide RecordAll, ValueEq;
    RecordedRepresented(digest, [], vs, v);
    var table := RecordAll(digest, [], vs);
    i :| 0 <= i < |table| && digest(table[i]) == digest(v) && (table[i] == v || ValueEq(table[i], v));
  }

  /** Two equal values filed under different digests would both be in a table a scan built. */
  lemma SameTableMeansAgreement(digest: Value -> nat, vs: seq<Value>, a: Value, b: Value)
    requires Scalars(vs) && a in vs && b in vs && ValueEq(a, b)
    requires RecordAll(digest, [], vs) == ScanAll([], vs)
    ensures digest(a) == digest(b)
  {
    hide RecordAll, ScanAll, ValueEq;
    var table := RecordAll(digest, [], vs);
    ScalarEqSymmetric(a, b);
    ScalarEqSymmetric(b, a);
    var i := EqualInTable(digest, vs, a);
    var j := EqualInTable(digest, vs, b);
    TableOfScalars(digest, [], vs);
    EqualThrough(table[i], a, b, table[j]);
    ScanKeepsUnequal([], vs);
  }

  lemma EqualThrough(x: Value, a: Value, b: Value, y: Value)
    requires !IsContainer(x) && !IsContainer(y) && !IsContainer(a) && !IsContainer(b)
    requires ValueEq(x, a) && ValueEq(a, b) && ValueEq(y, b)
    ensures ValueEq(x, y) && ValueEq(y, x)
  {
    hide ValueEq;
    ScalarEqTransitive(x, a, b);
    ScalarEqSymmetric(y, b);
    ScalarEqTransitive(x, b, y);
    ScalarEqSymmetric(x, y);
  }

  lemma {:induction false} TableOfScalars(digest: Value -> nat, t: seq<Value>, vs: seq<Value>)
    requires Scalars(t) && Scalars(vs)
    ensures Scalars(RecordAll(digest, t, vs))
    decreases |vs|
  {
    hide Recorded;
    if vs == [] {
    } else {
      TableOfScalars(digest, Recorded(digest, t, vs[0]), vs[1..]);
    }
  }

  /**
   For any scalars, and buckets below the cap, the bucketed table is the linear scan's if and
   only if no two of the recorded values are equal with different digests.
   */
  lemma RefinesScanIff(digest: Value -> nat, vs: seq<Value>)
    requires Scalars(vs) && BucketsBelowCap(digest, RecordAll(digest, [], vs))
    ensures RecordAll(digest, [], vs) == ScanAll([], vs) <==> DigestAgreesOn(digest, vs)
  {
    hide RecordAll, ScanAll, ValueEq, BucketsBelowCap, Scalars;
    if DigestAgreesOn(digest, vs) {
      assert [] + vs == vs;
      BucketsRefineScan(digest, [], vs);
    }
    if RecordAll(digest, [], vs) == ScanAll([], vs) {
      forall a, b | a in vs && b in vs && ValueEq(a, b)
        ensures digest(a) == digest(b)
      {
        SameTableMeansAgreement(digest, vs, a, b);
      }
    }
  }

  // ----- Signed zeros --------------------------------------------------------

  /** The two zeros of either float width land in different buckets. */
  ghost predicate SeparatesZeros(digest: Value -> nat) {
    && digest(Float(0)) != digest(Float(SIGN64))
    && digest(Float32(0)) != digest(Float32(SIGN32))
  }

  /** Both zeros of one width. */
  ghost predicate HoldsBothZeros(vs: seq<Value>) {
    (Float(0) in vs && Float(SIGN64) in vs) || (Float32(0) in vs && Float32(SIGN32) in vs)
  }

  lemma ZerosAreEqual()
    ensures ValueEq(Float(0), Float(SIGN64)) && ValueEq(Float32(0), Float32(SIGN32))
  {
  }

  /** Equal scalars that are not identical are the two zeros of one width. */
  lemma UnequalTwins(a: Value, b: Value)
    requires !IsContainer(a) && ValueEq(a, b) && a != b
    ensures HoldsBothZeros([a, b])
  {
    if a.Float? {
      assert a.bits % SIGN64 == 0 ==> a.bits == 0 || a.bits == SIGN64;
      assert b.bits % SIGN64 == 0 ==> b.bits == 0 || b.bits == SIGN64;
    } else if a.Float32? {
      assert a.bits32 % SIGN32 == 0 ==> a.bits32 == 0 || a.bits32 == SIGN32;
      assert b.bits32 % SIGN32 == 0 ==> b.bits32 == 0 || b.bits32 == SIGN32;
    }
  }

  /**
   A digest that tells the two zeros apart cannot agree with IEEE equality on them: hashing
   the bits of a float is finer than comparing floats.
   */
  lemma SeparatingZerosBreaksAgreement(digest: Value -> nat)
    requires SeparatesZeros(digest)
    ensures !DigestAgreesOn(digest, [Float(0), Float(SIGN64)])
    ensures !DigestAgreesOn(digest, [Float32(0), Float32(SIGN32)])
  {
    ZerosAreEqual();
    assert Float(0) in [Float(0), Float(SIGN64)] && Float(SIGN64) in [Float(0), Float(SIGN64)];
    assert Float32(0) in [Float32(0), Float32(SIGN32)] && Float32(SIGN32) in [Float32(0), Float32(SIGN32)];
  }

  /** Equal scalars that share a digest are identical once the zeros are told apart. */
  lemma EqualScalarsIdentical(digest: Value -> nat, a: Value, b: Value)
    requires SeparatesZeros(digest)
    requires !IsContainer(a)
    requires digest(a) == digest(b) && ValueEq(a, b)
    ensures a == b
  {
    hide ValueEq;
    if a != b {
      UnequalTwins(a, b);
    }
  }

  /**
   With the digest the program has, which separates the zeros, the bucketed table is the linear
   scan's on exactly those recordings that do not include both zeros of one width.
   */
  lemma RefinesScanUnlessBothZeros(digest: Value -> nat, vs: seq<Value>)
    requires SeparatesZeros(digest)
    requires Scalars(vs) && BucketsBelowCap(digest, RecordAll(digest, [], vs))
    ensures RecordAll(digest, [], vs) == ScanAll([], vs) <==> !HoldsBothZeros(vs)
  {
    hide RecordAll, ScanAll, ValueEq, BucketsBelowCap;
    RefinesScanIff(digest, vs);
    ZerosAreEqual();
    if !HoldsBothZeros(vs) {
      forall a, b | a in vs && b in vs && ValueEq(a, b)
        ensures digest(a) == digest(b)
      {
        if a != b {
          UnequalTwins(a, b);
        }
      }
    }
  }

  /** The shortest recording on which the two differ. */
  lemma BothZerosDiffer(digest: Value -> nat)
    requires SeparatesZeros(digest)
    ensures RecordAll(digest, [], [Float(0), Float(SIGN64)]) == [Float(0), Float(SIGN64)]
    ensures ScanAll([], [Float(0), Float(SIGN64)]) == [Float(0)]
  {
    var vs := [Float(0), Float(SIGN64)];
    ZerosAreEqual();
    assert vs[1..] == [Float(SIGN64)] && vs[1..][1..] == [];
    var one := [Float(0)];
    assert Recorded(digest, [], Float(0)) == one && ScanRecorded([], Float(0)) == one;
    assert Recorded(digest, one, Float(SIGN64)) == one + [Float(SIGN64)];
    assert ScanRecorded(one, Float(SIGN64)) == one by {
      assert ValueEq(one[0], Float(SIGN64));
    }
    assert RecordAll(digest, one, vs[1..]) == RecordAll(digest, vs, []);
    assert ScanAll(one, vs[1..]) == ScanAll(one, []);
  }

  /** A table that compares values for identity and never recognises a NaN. */
  function IdentityRecorded(t: seq<Value>, v: Value): seq<Value> {
    if v in t && ValueEq(v, v) then t else t + [v]
  }

  function IdentityAll(t: seq<Value>, vs: seq<Value>): seq<Value>
    decreases |vs|
  {
    if vs == [] then t else IdentityAll(IdentityRecorded(t, vs[0]), vs[1..])
  }

  lemma RecordedIsIdentity(digest: Value -> nat, t: seq<Value>, v: Value)
    requires SeparatesZeros(digest) && Scalars(t) && !IsContainer(v)
    requires |Bucket(digest, t, digest(v))| < 64
    ensures Recorded(digest, t, v) == IdentityRecorded(t, v)
  {
    hide Bucket, ValueEq;
    forall i | 0 <= i < |t| && digest(t[i]) == digest(v) && ValueEq(t[i], v)
      ensures t[i] == v
    {
      EqualScalarsIdentical(digest, t[i], v);
    }
  }

  /**
   With the digest the program has and buckets below the cap, whatever scalars are recorded the
   table holds each of them once, zeros apart, and every NaN as often as it came.
   */
  lemma {:induction false} BucketsRefineIdentity(digest: Value -> nat, t: seq<Value>, vs: seq<Value>)
    requires SeparatesZeros(digest) && Scalars(t) && Scalars(vs)
    requires BucketsBelowCap(digest, RecordAll(digest, t, vs))
    ensures RecordAll(digest, t, vs) == IdentityAll(t, vs)
    decreases |vs|
  {
    hide Bucket, Recorded, IdentityRecorded, BucketsBelowCap, ValueEq, SeparatesZeros;
    if vs == [] {
    } else {
      BelowCapAtStart(digest, t, vs, digest(vs[0]));
      RecordedIsIdentity(digest, t, vs[0]);
      BucketsRefineIdentity(digest, Recorded(digest, t, vs[0]), vs[1..]);
    }
  }

  // ----- The cap ---------------------------------------------------------------------------

  /** Different numbers, as many as wanted. */
  function Numbers(n: nat): (vs: seq<Value>)
    requires n <= U64_LIMIT
    ensures |vs| == n && forall i :: 0 <= i < n ==> vs[i] == SizedUint(i, Eight)
  {
    seq(n, i requires 0 <= i < n => SizedUint(i, Eight))
  }

  lemma {:induction false} OneBucket(d: nat, t: seq<Value>)
    ensures |Bucket(_ => d, t, d)| == |t|
    decreases |t|
  {
    if t == [] {
    } else {
      OneBucket(d, t[..|t| - 1]);
    }
  }

  lemma {:induction false} RecordAllSnoc(digest: Value -> nat, t: seq<Value>, vs: seq<Value>, v: Value)
    ensures RecordAll(digest, t, vs + [v]) == Recorded(digest, RecordAll(digest, t, vs), v)
    decreases |vs|
  {
    hide Recorded;
    if vs == [] {
      assert vs + [v] == [v] && [v][1..] == [];
    } else {
      assert (vs + [v])[1..] == vs[1..] + [v] && (vs + [v])[0] == vs[0];
      RecordAllSnoc(digest, Recorded(digest, t, vs[0]), vs[1..], v);
    }
  }

  lemma {:induction false} NumbersRecorded(d: nat, n: nat)
    requires n < U64_LIMIT
    ensures RecordAll(_ => d, [], Numbers(n)) == Numbers(n)
    decreases n
  {
    hide Bucket;
    if n == 0 {
    } else {
      NumbersRecorded(d, n - 1);
      assert Numbers(n) == Numbers(n - 1) + [SizedUint(n - 1, Eight)];
      RecordAllSnoc(_ => d, [], Numbers(n - 1), SizedUint(n - 1, Eight));
    }
  }

  /**
   With all values under one digest, the repeat of the first one is recognised up to 63 values
   and recorded a second time from 64 on.
   */
  lemma CapIsReached(d: nat, n: nat)
    requires 0 < n < U64_LIMIT
    ensures RecordAll(_ => d, [], Numbers(n) + [SizedUint(0, Eight)])
         == if n < 64 then Numbers(n) else Numbers(n) + [SizedUint(0, Eight)]
  {
    hide Bucket, RecordAll;
    var first := SizedUint(0, Eight);
    NumbersRecorded(d, n);
    RecordAllSnoc(_ => d, [], Numbers(n), first);
    OneBucket(d, Numbers(n));
    assert ValueEq(Numbers(n)[0], first);
  }

  // ----- What equality means ------------------------------------------------------------------

  /** The exponent and the fraction of a binary64 and of a binary32 bit pattern (IEEE 754). */
  function Exponent64(bits: u64): nat {
    bits / 0x10_0000_0000_0000 % 0x800
  }

  function Fraction64(bits: u64): nat {
    bits % 0x10_0000_0000_0000
  }

  function Exponent32(bits: u32): nat {
    bits / 0x80_0000 % 0x100
  }

  function Fraction32(bits: u32): nat {
    bits % 0x80_0000
  }

  /** A float equals itself unless it is a NaN, and the only other one it can equal is the other zero. */
  lemma FloatEqMeans(a: u64, b: u64)
    ensures ValueEq(Float(a), Float(b))
       <==> (a == b && !(Exponent64(a) == 0x7FF && Fraction64(a) != 0))
            || (a != b && a in {0, 0x8000_0000_0000_0000} && b in {0, 0x8000_0000_0000_0000})
  {
  }

  lemma Float32EqMeans(a: u32, b: u32)
    ensures ValueEq(Float32(a), Float32(b))
       <==> (a == b && !(Exponent32(a) == 0xFF && Fraction32(a) != 0))
            || (a != b && a in {0, 0x8000_0000} && b in {0, 0x8000_0000})
  {
  }
}
