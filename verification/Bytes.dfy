/** Machine integers and the little- and big-endian byte encodings the codecs share. */
module Bytes {

  type byte = x: int | 0 <= x < 0x100

  const U16_LIMIT: nat := 0x1_0000
  const U32_LIMIT: nat := 0x1_0000_0000
  const U64_LIMIT: nat := 0x1_0000_0000_0000_0000

  type u32 = x: int | 0 <= x < U32_LIMIT
  type u64 = x: int | 0 <= x < U64_LIMIT

  /** Pointer-sized integers are taken to be 64 bits wide. */
  type usize = u64
  const USIZE_MAX: usize := 0xFFFF_FFFF_FFFF_FFFF

  /** A byte buffer that fits in memory. */
  type Blob = s: seq<byte> | |s| < U64_LIMIT

  function Pow256(w: nat): (p: nat)
    ensures p > 0
  {
    if w == 0 then 1 else 0x100 * Pow256(w - 1)
  }

  lemma Pow256Values()
    ensures Pow256(1) == 0x100
    ensures Pow256(2) == U16_LIMIT
    ensures Pow256(3) == 0x100_0000
    ensures Pow256(4) == U32_LIMIT
    ensures Pow256(8) == U64_LIMIT
  {
    assert Pow256(4) == U32_LIMIT;
    assert Pow256(6) == 0x1_0000_0000_0000;
  }

  lemma {:induction false} Pow256Monotone(a: nat, b: nat)
    requires a <= b
    ensures Pow256(a) <= Pow256(b)
  {
    if a == b {
    } else {
      Pow256Monotone(a, b - 1);
    }
  }

  /** The low `w` bytes of `n`, least significant first. */
  function Le(n: nat, w: nat): (s: seq<byte>)
    ensures |s| == w
  {
    if w == 0 then [] else [n % 0x100] + Le(n / 0x100, w - 1)
  }

  function FromLe(s: seq<byte>): (n: nat)
    ensures n < Pow256(|s|)
  {
    if s == [] then 0 else s[0] + 0x100 * FromLe(s[1..])
  }

  lemma {:induction false} LeRoundTrip(n: nat, w: nat)
    requires n < Pow256(w)
    ensures FromLe(Le(n, w)) == n
  {
    if w == 0 {
    } else {
      LeRoundTrip(n / 0x100, w - 1);
      assert Le(n, w)[1..] == Le(n / 0x100, w - 1);
    }
  }

  lemma {:induction false} FromLeRoundTrip(s: seq<byte>)
    ensures Le(FromLe(s), |s|) == s
    decreases |s|
  {
    if s == [] {
    } else {
      FromLeRoundTrip(s[1..]);
      var high := FromLe(s[1..]);
      assert (s[0] + 0x100 * high) % 0x100 == s[0] && (s[0] + 0x100 * high) / 0x100 == high;
      assert s == [s[0]] + s[1..];
    }
  }

  /** Byte `i` of the little-endian form is the digit of weight 256 to the `i`. */
  lemma {:induction false} LeDigit(n: nat, w: nat, i: nat)
    requires i < w
    ensures Le(n, w)[i] == n / Pow256(i) % 0x100
  {
    if i == 0 {
    } else {
      LeDigit(n / 0x100, w - 1, i - 1);
      DivTwice(n, 0x100, Pow256(i - 1));
    }
  }

  lemma DivTwice(n: nat, a: nat, b: nat)
    requires a > 0 && b > 0
    ensures a * b > 0 && n / a / b == n / (a * b)
  {
    var q, r, low := n / a / b, n / a % b, n % a;
    TwoDigits(a, b, q, r, low);
    assert n == a * (b * q + r) + low;
    QuotientUnique(n, a * b, q);
  }

  lemma TwoDigits(a: nat, b: nat, q: nat, r: nat, low: nat)
    requires r < b && low < a
    ensures 0 < a * b && (a * b) * q <= a * (b * q + r) + low < (a * b) * q + a * b
  {
    assert a * (b * q + r) == a * (b * q) + a * r && a * (b * q) == (a * b) * q;
    assert a * r <= a * (b - 1) && a * (b - 1) == a * b - a;
  }

  lemma QuotientUnique(n: nat, d: nat, q: nat)
    requires d > 0 && d * q <= n < d * q + d
    ensures n / d == q
  {
    var p := n / d;
    assert n == d * p + n % d;
    if p < q {
      TimesMonotone(d, p + 1, q);
    } else if q < p {
      TimesMonotone(d, q + 1, p);
    }
  }

  lemma TimesMonotone(d: nat, x: nat, y: nat)
    requires x <= y
    ensures d * x <= d * y
  {
  }

  /** Little-endian numbers of the widths the formats use, byte by byte. */
  lemma FromLeDigits(b: seq<byte>)
    ensures |b| == 1 ==> FromLe(b) == b[0]
    ensures |b| == 2 ==> FromLe(b) == b[0] as nat + 0x100 * b[1] as nat
    ensures |b| == 3 ==> FromLe(b) == b[0] as nat + 0x100 * b[1] as nat + 0x1_0000 * b[2] as nat
    ensures |b| == 4 ==> FromLe(b) == b[0] as nat + 0x100 * b[1] as nat + 0x1_0000 * b[2] as nat + 0x100_0000 * b[3] as nat
  {
    if |b| >= 1 {
      assert FromLe(b) == b[0] + 0x100 * FromLe(b[1..]);
    }
    if |b| >= 2 {
      assert FromLe(b[1..]) == b[1] + 0x100 * FromLe(b[1..][1..]) && b[1..][1..] == b[2..];
    }
    if |b| >= 3 {
      assert FromLe(b[2..]) == b[2] + 0x100 * FromLe(b[2..][1..]) && b[2..][1..] == b[3..];
    }
    if |b| >= 4 {
      assert FromLe(b[3..]) == b[3] + 0x100 * FromLe(b[3..][1..]) && b[3..][1..] == b[4..];
    }
  }

  /** The bytes `b` stand in `input` at `offset`. */
  predicate At(input: seq<byte>, offset: nat, b: seq<byte>) {
    offset + |b| <= |input| && input[offset..offset + |b|] == b
  }

  lemma AtSplit(input: seq<byte>, offset: nat, a: seq<byte>, b: seq<byte>)
    requires At(input, offset, a + b)
    ensures At(input, offset, a) && At(input, offset + |a|, b)
    ensures a != [] ==> input[offset] == a[0]
  {
    var whole := input[offset..offset + |a + b|];
    assert whole[..|a|] == a && whole[|a|..] == b;
    assert input[offset..offset + |a|] == whole[..|a|];
    assert input[offset + |a|..offset + |a| + |b|] == whole[|a|..];
    assert a != [] ==> input[offset] == whole[0] == a[0];
  }

  lemma AtJoin(input: seq<byte>, offset: nat, a: seq<byte>, b: seq<byte>)
    requires At(input, offset, a) && At(input, offset + |a|, b)
    ensures At(input, offset, a + b)
  {
    assert input[offset..offset + |a + b|] == input[offset..offset + |a|] + input[offset + |a|..offset + |a| + |b|];
  }

  function ZeroBytes(n: nat): (z: seq<byte>)
    ensures |z| == n && forall i :: 0 <= i < n ==> z[i] == 0
  {
    seq(n, _ => 0)
  }

  function Concat(pieces: seq<seq<byte>>): seq<byte> {
    if pieces == [] then [] else pieces[0] + Concat(pieces[1..])
  }
}
