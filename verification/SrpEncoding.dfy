/** Big-endian integers in shortest form, and padded to the width of a modulus. */
module SrpEncoding {
  import opened Bytes

  function FromBe(s: seq<byte>): (n: nat)
    ensures n < Pow256(|s|)
  {
    if s == [] then 0 else FromBe(s[..|s| - 1]) * 0x100 + s[|s| - 1]
  }

  /** The big-integer library's digits: no leading zero, and one digit for zero. */
  function ToBe(n: nat): (s: seq<byte>)
    ensures s != [] && FromBe(s) == n
    ensures |s| > 1 ==> s[0] != 0
  {
    if n < 0x100 then
      assert [n][..0] == [];
      [n]
    else
      var s := ToBe(n / 0x100) + [n % 0x100];
      assert s[..|s| - 1] == ToBe(n / 0x100);
      s
  }

  /** Where the first nonzero byte is, or the end. */
  function Leading(s: seq<byte>): (i: nat)
    ensures i <= |s| && (i < |s| ==> s[i] != 0) && forall j :: 0 <= j < i ==> s[j] == 0
  {
    if s == [] || s[0] != 0 then 0 else 1 + Leading(s[1..])
  }

  function MinimalBe(s: seq<byte>): (r: seq<byte>)
    ensures r != []
  {
    if Leading(s) < |s| then s[Leading(s)..] else [0]
  }

  function IntToBytes(n: nat): seq<byte> {
    MinimalBe(ToBe(n))
  }

  /** Right-justified to the width of the modulus. */
  function Pad(modulus: nat, n: nat): seq<byte> {
    var s, width := IntToBytes(n), |ToBe(modulus)|;
    ZeroBytes(if |s| < width then width - |s| else 0) + s
  }

  // ----- Values ---------------------------------------------------------------------------

  lemma {:induction false} FromBeAppend(a: seq<byte>, b: seq<byte>)
    ensures FromBe(a + b) == FromBe(a) * Pow256(|b|) + FromBe(b)
    decreases |b|
  {
    if b == [] {
      assert a + b == a;
    } else {
      var front := b[..|b| - 1];
      assert (a + b)[..|a + b| - 1] == a + front;
      FromBeAppend(a, front);
      Shifted(FromBe(a), Pow256(|front|), FromBe(front));
    }
  }

  lemma Shifted(x: nat, p: nat, y: nat)
    ensures (x * p + y) * 0x100 == x * (0x100 * p) + y * 0x100
  {
  }

  lemma {:induction false} FromBeZeros(n: nat)
    ensures FromBe(ZeroBytes(n)) == 0
  {
    if n == 0 {
    } else {
      assert ZeroBytes(n)[..n - 1] == ZeroBytes(n - 1);
      FromBeZeros(n - 1);
    }
  }

  /** Leading zero bytes add nothing. */
  lemma PaddedValue(n: nat, s: seq<byte>)
    ensures FromBe(ZeroBytes(n) + s) == FromBe(s)
  {
    FromBeAppend(ZeroBytes(n), s);
    FromBeZeros(n);
  }

  lemma SplitLeading(s: seq<byte>)
    ensures s == ZeroBytes(Leading(s)) + s[Leading(s)..]
  {
  }

  /** The shortest form denotes the same integer. */
  lemma MinimalKeepsValue(s: seq<byte>)
    ensures FromBe(MinimalBe(s)) == FromBe(s)
  {
    SplitLeading(s);
    PaddedValue(Leading(s), s[Leading(s)..]);
    assert [0][..0] == [];
  }

  /** A first byte that is not zero fixes the length of what denotes an integer. */
  lemma LeadingBounds(s: seq<byte>)
    requires s != [] && s[0] != 0
    ensures Pow256(|s| - 1) <= FromBe(s)
  {
    hide Pow256;
    FromBeAppend(s[..1], s[1..]);
    assert s[..1] + s[1..] == s;
    assert FromBe(s[..1]) == s[0] by {
      assert s[..1][..0] == [];
    }
    AtLeast(s[0], Pow256(|s| - 1));
  }

  lemma AtLeast(x: nat, p: nat)
    requires x > 0
    ensures x * p >= p
  {
  }

  /** Without leading zeros there is one way to write each integer. */
  lemma {:induction false} SameDigits(s: seq<byte>, t: seq<byte>)
    requires |s| == |t| && FromBe(s) == FromBe(t)
    ensures s == t
    decreases |s|
  {
    if s == [] {
    } else {
      var a, b := s[..|s| - 1], t[..|t| - 1];
      assert s[|s| - 1] == t[|t| - 1] && FromBe(a) == FromBe(b) by {
        LastDigit(FromBe(a), s[|s| - 1], FromBe(b), t[|t| - 1]);
      }
      SameDigits(a, b);
      assert s == a + [s[|s| - 1]] && t == b + [t[|t| - 1]];
    }
  }

  lemma LastDigit(a: nat, x: byte, b: nat, y: byte)
    requires a * 0x100 + x == b * 0x100 + y
    ensures a == b && x == y
  {
  }

  predicate Shortest(s: seq<byte>) {
    s != [] && (|s| > 1 ==> s[0] != 0)
  }

  lemma MinimalIsShortest(s: seq<byte>)
    ensures Shortest(MinimalBe(s))
  {
  }

  lemma ShortestLength(s: seq<byte>, t: seq<byte>)
    requires Shortest(s) && t != [] && FromBe(s) == FromBe(t)
    ensures |s| <= |t|
  {
    if |t| < |s| {
      LongerIsLarger(s, t);
    }
  }

  lemma LongerIsLarger(s: seq<byte>, t: seq<byte>)
    requires Shortest(s) && |t| < |s| && t != []
    ensures FromBe(t) < FromBe(s)
  {
    LeadingBounds(s);
    Pow256Monotone(|t|, |s| - 1);
  }

  lemma ShortestUnique(s: seq<byte>, t: seq<byte>)
    requires Shortest(s) && Shortest(t) && FromBe(s) == FromBe(t)
    ensures s == t
  {
    ShortestLength(s, t);
    ShortestLength(t, s);
    SameDigits(s, t);
  }

  /** Two byte strings have the same shortest form exactly when they denote the same integer. */
  lemma MinimalEqualIffSameInteger(s: seq<byte>, t: seq<byte>)
    ensures MinimalBe(s) == MinimalBe(t) <==> FromBe(s) == FromBe(t)
  {
    MinimalKeepsValue(s);
    MinimalKeepsValue(t);
    if FromBe(s) == FromBe(t) {
      MinimalIsShortest(s);
      MinimalIsShortest(t);
      ShortestUnique(MinimalBe(s), MinimalBe(t));
    }
  }

  /** Shortening is idempotent, and nothing non-empty that denotes the same integer is shorter. */
  lemma MinimalIsLeast(s: seq<byte>, t: seq<byte>)
    requires t != [] && FromBe(t) == FromBe(s)
    ensures MinimalBe(MinimalBe(s)) == MinimalBe(s)
    ensures |MinimalBe(s)| <= |t|
  {
    MinimalKeepsValue(s);
    MinimalIsShortest(s);
    MinimalIsShortest(MinimalBe(s));
    MinimalKeepsValue(MinimalBe(s));
    ShortestUnique(MinimalBe(MinimalBe(s)), MinimalBe(s));
    ShortestLength(MinimalBe(s), t);
  }

  /** The second pass over the library's digits changes nothing. */
  lemma IntToBytesIsToBe(n: nat)
    ensures IntToBytes(n) == ToBe(n) && FromBe(IntToBytes(n)) == n && Shortest(IntToBytes(n))
  {
    MinimalKeepsValue(ToBe(n));
    MinimalIsShortest(ToBe(n));
    ShortestUnique(IntToBytes(n), ToBe(n));
  }

  // ----- Padding ---------------------------------------------------------------------------------

  /**
   Padding keeps the integer; it has the modulus's width exactly when the integer fits that
   width, which every residue does, and so is injective on the residues.
   */
  lemma PadMeans(modulus: nat, n: nat)
    ensures FromBe(Pad(modulus, n)) == n
    ensures |Pad(modulus, n)| == |ToBe(modulus)| <==> n < Pow256(|ToBe(modulus)|)
    ensures n <= modulus ==> |Pad(modulus, n)| == |ToBe(modulus)|
  {
    hide Pow256, FromBe, IntToBytes, ToBe;
    var s, width := IntToBytes(n), |ToBe(modulus)|;
    IntToBytesIsToBe(n);
    IntToBytesIsToBe(modulus);
    PaddedValue(if |s| < width then width - |s| else 0, s);
    if |s| > width {
      LeadingBounds(s);
      Pow256Monotone(width, |s| - 1);
    } else {
      Pow256Monotone(|s|, width);
    }
  }

  lemma PadInjective(modulus: nat, m: nat, n: nat)
    requires Pad(modulus, m) == Pad(modulus, n)
    ensures m == n
  {
    PadMeans(modulus, m);
    PadMeans(modulus, n);
  }

  // ----- Digit by digit -----------------------------------------------------------------------------

  /** The `w` lowest digits of `n` to the base 256, the most significant one first. */
  function BigEndian(n: nat, w: nat): (s: seq<byte>)
    ensures |s| == w
  {
    seq(w, i requires 0 <= i < w => n / Pow256(w - 1 - i) % 0x100)
  }

  /** How many digits `n` has; zero has one. */
  function Width(n: nat): (w: nat)
    ensures w > 0
  {
    if n < 0x100 then 1 else 1 + Width(n / 0x100)
  }

  /** A byte string is the digits of the integer it denotes. */
  lemma {:induction false} DigitsOf(s: seq<byte>)
    ensures s == BigEndian(FromBe(s), |s|)
    decreases |s|
  {
    if s == [] {
    } else {
      var front, last, w := s[..|s| - 1], s[|s| - 1], |s|;
      DigitsOf(front);
      var n := FromBe(s);
      assert n / 0x100 == FromBe(front) && n % 0x100 == last;
      forall i | 0 <= i < w
        ensures s[i] == n / Pow256(w - 1 - i) % 0x100
      {
        if i < w - 1 {
          assert s[i] == front[i] == FromBe(front) / Pow256(w - 2 - i) % 0x100;
          DivTwice(n, 0x100, Pow256(w - 2 - i));
        } else {
          assert Pow256(0) == 1;
        }
      }
    }
  }

  lemma {:induction false} WidthIsLength(n: nat)
    ensures |ToBe(n)| == Width(n)
    decreases n
  {
    if n < 0x100 {
    } else {
      WidthIsLength(n / 0x100);
    }
  }

  /** The shortest form is all the digits there are; the padded form has at least those of the modulus. */
  lemma FormsAreDigits(modulus: nat, n: nat)
    ensures ToBe(n) == IntToBytes(n) == BigEndian(n, Width(n))
    ensures Pad(modulus, n) == BigEndian(n, if Width(n) < Width(modulus) then Width(modulus) else Width(n))
  {
    hide ToBe, IntToBytes, Pad, FromBe, BigEndian, Width;
    IntToBytesIsToBe(n);
    WidthIsLength(n);
    WidthIsLength(modulus);
    DigitsOf(IntToBytes(n));
    PadMeans(modulus, n);
    PadLength(modulus, n);
    DigitsOf(Pad(modulus, n));
  }

  lemma PadLength(modulus: nat, n: nat)
    ensures |Pad(modulus, n)| == if |IntToBytes(n)| < |ToBe(modulus)| then |ToBe(modulus)| else |IntToBytes(n)|
  {
    hide ToBe, IntToBytes;
  }

  // ----- The loop that finds the first nonzero byte -----------------------------------------------

  method Minimal(s: seq<byte>) returns (r: seq<byte>)
    ensures r == MinimalBe(s)
    ensures FromBe(r) == FromBe(s)
  {
    MinimalKeepsValue(s);
    var i := 0;
    while i < |s| && s[i] == 0
      invariant i <= |s| && i <= Leading(s)
    {
      i := i + 1;
    }
    return if i < |s| then s[i..] else [0];
  }
}
