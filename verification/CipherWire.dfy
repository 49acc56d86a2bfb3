/**
 What the counter-nonce cipher and the HAP channel put on the wire, byte by byte.

 Two ends that agree with each other may still both be wrong. Here every sealed text is traced to
 the key, the nonce, the plaintext and the associated data that went into it, with the nonces and
 the lengths written out.
 */
module CipherWire {
  import opened Bytes
  import opened Chacha
  import opened HapSession
  import opened Wrappers

  // ----- Nonces ---------------------------------------------------------------------------------

  /** Four zero bytes before the eight bytes of the counter, or the counter first and four zeros behind it. */
  function NonceByte(layout: NonceLayout, counter: u64, i: nat): nat {
    match layout
    case PaddedCounter => if i < 4 then 0 else counter / Pow256(i - 4) % 0x100
    case BareCounter => if i < 8 then counter / Pow256(i) % 0x100 else 0
  }

  /** Every byte of every nonce. */
  lemma NonceBytes(layout: NonceLayout, counter: u64)
    ensures |layout.Nonce(counter)| == 12
    ensures forall i :: 0 <= i < 12 ==> layout.Nonce(counter)[i] == NonceByte(layout, counter, i)
  {
    hide Le, Pow256;
    forall i | 0 <= i < 8
      ensures Le(counter, 8)[i] == counter / Pow256(i) % 0x100
    {
      LeDigit(counter, 8, i);
    }
  }

  /** The nonce of a counter, built from its bytes. */
  function NonceOf(layout: NonceLayout, counter: u64): (n: seq<byte>) {
    seq(12, i requires 0 <= i < 12 => NonceByte(layout, counter, i))
  }

  lemma NonceIs(layout: NonceLayout, counter: u64)
    ensures layout.Nonce(counter) == NonceOf(layout, counter)
  {
    hide NonceByte, NonceLayout.Nonce;
    NonceBytes(layout, counter);
  }

  // ----- Runs of calls ----------------------------------------------------------------------------

  /** What each call of a run returns. */
  function Outputs(a: Aead, c: Cipher, calls: seq<Call>): (r: seq<Result<seq<byte>, Error>>)
    ensures |r| == |calls|
    decreases |calls|
  {
    if calls == [] then []
    else
      [match calls[0] case Encrypt(data, aad) => Encrypted(a, c, data, aad).1 case Decrypt(data, aad) => Decrypted(a, c, data, aad).1]
      + Outputs(a, Step(a, c, calls[0]), calls[1..])
  }

  /** How many calls of one direction stand before `i`. */
  function CallsBefore(calls: seq<Call>, i: nat, out: bool): nat
    requires i <= |calls|
  {
    if i == 0 then 0 else (if calls[0].Encrypt? == out then 1 else 0) + CallsBefore(calls[1..], i - 1, out)
  }

  /** What a call with `before` calls of its direction before it returns, its counter having begun at `start`. */
  function Expected(a: Aead, key: Key, layout: NonceLayout, start: u64, before: nat, call: Call): Result<seq<byte>, Error> {
    if start + before >= 0xFFFF_FFFF_FFFF_FFFF then Err(CounterExhausted)
    else
      var nonce := NonceOf(layout, start + before);
      var text := if call.Encrypt? then a.seal(key, nonce, call.data, call.aad) else a.open(key, nonce, call.data, call.aad);
      if text.Some? then Ok(text.value) else Err(AeadFailed)
  }

  /**
   In any run, from any state: a call seals under the outbound or opens under the inbound key,
   under the nonce of that direction's first counter plus the number of calls of that direction
   before it, whatever became of those; and from the last counter on it is refused.
   */
  lemma {:induction false} CallsUseTheirCounters(a: Aead, c: Cipher, calls: seq<Call>, i: nat)
    requires i < |calls|
    ensures var call := calls[i];
            Outputs(a, c, calls)[i]
            == if call.Encrypt? then Expected(a, c.outKey, c.layout, c.outCounter, CallsBefore(calls, i, true), call)
               else Expected(a, c.inKey, c.layout, c.inCounter, CallsBefore(calls, i, false), call)
    decreases i
  {
    hide NonceOf, NonceLayout.Nonce;
    if i == 0 {
      NonceIs(c.layout, c.outCounter);
      NonceIs(c.layout, c.inCounter);
    } else {
      hide Expected;
      CallsUseTheirCounters(a, Step(a, c, calls[0]), calls[1..], i - 1);
      CounterMoves(a, c, calls[0], calls[i], CallsBefore(calls[1..], i - 1, calls[i].Encrypt?));
    }
  }

  /** One call earlier in the run moves the counter of its direction on by one, unless it is at its end. */
  lemma CounterMoves(a: Aead, c: Cipher, first: Call, call: Call, before: nat)
    ensures var next := Step(a, c, first);
            && next.outKey == c.outKey && next.inKey == c.inKey && next.layout == c.layout
            && Expected(a, c.outKey, c.layout, next.outCounter, before, call)
               == Expected(a, c.outKey, c.layout, c.outCounter, before + if first.Encrypt? then 1 else 0, call)
            && Expected(a, c.inKey, c.layout, next.inCounter, before, call)
               == Expected(a, c.inKey, c.layout, c.inCounter, before + if first.Decrypt? then 1 else 0, call)
  {
    hide NonceOf;
  }

  // ----- The HAP channel ------------------------------------------------------------------------------

  /** How many blocks a plaintext takes. */
  function Blocks(plaintext: seq<byte>): nat {
    |plaintext| / 1024 + if |plaintext| % 1024 > 0 then 1 else 0
  }

  /** The plaintext of block `i`: a whole kilobyte, except perhaps the last. */
  function Chunk(plaintext: seq<byte>, i: nat): (chunk: seq<byte>)
    requires i < Blocks(plaintext)
    ensures 0 < |chunk| <= 1024
  {
    plaintext[1024 * i..if 1024 * i + 1024 <= |plaintext| then 1024 * i + 1024 else |plaintext|]
  }

  /** Its length as two bytes, the low one first. */
  function LengthOf(chunk: seq<byte>): seq<byte>
    requires |chunk| <= 1024
  {
    [|chunk| % 256, |chunk| / 256]
  }

  /** What block `i` is sealed to, `counter` being that of the first block. */
  function SealedBlock(a: Aead, key: Key, counter: nat, plaintext: seq<byte>, i: nat): Option<seq<byte>>
    requires i < Blocks(plaintext) && counter + i < U64_LIMIT
  {
    var chunk := Chunk(plaintext, i);
    a.seal(key, NonceOf(PaddedCounter, counter + i), chunk, LengthOf(chunk))
  }

  ghost predicate AllSealed(a: Aead, key: Key, counter: nat, plaintext: seq<byte>)
    requires counter + Blocks(plaintext) < U64_LIMIT
  {
    forall i :: 0 <= i < Blocks(plaintext) ==> SealedBlock(a, key, counter, plaintext, i).Some?
  }

  /** Length and sealed text of every block from `i` on. */
  ghost function BlocksFrom(a: Aead, key: Key, counter: nat, plaintext: seq<byte>, i: nat): seq<byte>
    requires counter + Blocks(plaintext) < U64_LIMIT && AllSealed(a, key, counter, plaintext) && i <= Blocks(plaintext)
    decreases Blocks(plaintext) - i
  {
    if i == Blocks(plaintext) then []
    else LengthOf(Chunk(plaintext, i)) + SealedBlock(a, key, counter, plaintext, i).value + BlocksFrom(a, key, counter, plaintext, i + 1)
  }

  lemma LengthIsLe(n: nat)
    requires n <= 1024
    ensures Le(n, 2) == [n % 256, n / 256]
  {
    assert Le(n / 0x100, 1) == [n / 0x100 % 0x100] + Le(n / 0x100 / 0x100, 0);
  }

  /** One turn of the sender. */
  lemma FramedOnce(a: Aead, c: Cipher, plaintext: seq<byte>)
    requires plaintext != [] && c.layout == PaddedCounter
    ensures var n := if |plaintext| < 1024 then |plaintext| else 1024;
            var length := [n % 256, n / 256];
            Framed(a, c, plaintext)
            == if c.outCounter >= 0xFFFF_FFFF_FFFF_FFFF then (c, Err(CounterExhausted))
               else
                 var next := c.(outCounter := c.outCounter + 1);
                 match a.seal(c.outKey, NonceOf(PaddedCounter, c.outCounter), plaintext[..n], length)
                 case None => (next, Err(AeadFailed))
                 case Some(sealed) =>
                   var (end, rest) := Framed(a, next, plaintext[n..]);
                   (end, if rest.Ok? then Ok(length + sealed + rest.value) else rest)
  {
    hide NonceOf, NonceLayout.Nonce, Le;
    NonceIs(PaddedCounter, c.outCounter);
    LengthIsLe(if |plaintext| < 1024 then |plaintext| else 1024);
  }

  /** What is left of the plaintext before block `i`. */
  function LeftBefore(plaintext: seq<byte>, i: nat): seq<byte>
    requires i <= Blocks(plaintext)
  {
    if i == Blocks(plaintext) then [] else plaintext[1024 * i..]
  }

  lemma LeftIsChunk(plaintext: seq<byte>, i: nat)
    requires i < Blocks(plaintext)
    ensures var left, n := LeftBefore(plaintext, i), |Chunk(plaintext, i)|;
            && left != [] && n == (if |left| < 1024 then |left| else 1024)
            && left[..n] == Chunk(plaintext, i) && left[n..] == LeftBefore(plaintext, i + 1)
  {
    var left, n := LeftBefore(plaintext, i), |Chunk(plaintext, i)|;
    assert left[n..] == plaintext[1024 * i + n..];
  }

  lemma {:induction false} FramedFrom(a: Aead, c: Cipher, plaintext: seq<byte>, i: nat)
    requires c.layout == PaddedCounter && c.outCounter + Blocks(plaintext) < U64_LIMIT && i <= Blocks(plaintext)
    ensures var (end, r) := Framed(a, c.(outCounter := c.outCounter + i), LeftBefore(plaintext, i));
            && (r.Ok? <==> forall j :: i <= j < Blocks(plaintext) ==> SealedBlock(a, c.outKey, c.outCounter, plaintext, j).Some?)
            && (r.Err? ==> r.error == AeadFailed)
            && (AllSealed(a, c.outKey, c.outCounter, plaintext) ==>
                  r == Ok(BlocksFrom(a, c.outKey, c.outCounter, plaintext, i))
                  && end == c.(outCounter := c.outCounter + Blocks(plaintext)))
    decreases Blocks(plaintext) - i
  {
    hide Framed, NonceOf, Blocks, Chunk, LeftBefore;
    var here := c.(outCounter := c.outCounter + i);
    if i == Blocks(plaintext) {
      assert LeftBefore(plaintext, i) == [] by { NothingLeftBefore(plaintext); }
      FramedNothing(a, here);
    } else {
      LeftIsChunk(plaintext, i);
      FramedOnce(a, here, LeftBefore(plaintext, i));
      FramedFrom(a, c, plaintext, i + 1);
      var chunk := Chunk(plaintext, i);
      assert SealedBlock(a, c.outKey, c.outCounter, plaintext, i)
          == a.seal(c.outKey, NonceOf(PaddedCounter, here.outCounter), chunk, LengthOf(chunk));
    }
  }

  lemma NothingLeftBefore(plaintext: seq<byte>)
    ensures LeftBefore(plaintext, Blocks(plaintext)) == []
  {
  }

  lemma FramedNothing(a: Aead, c: Cipher)
    ensures Framed(a, c, []) == (c, Ok([]))
  {
  }

  /**
   What encrypt puts on the wire: the plaintext cut into kilobytes, block `i` as its length in two
   bytes and its text sealed under the outbound key, four zero bytes and the counter `i` after the
   first, with those two bytes as associated data. It succeeds exactly if every block is sealed.
   */
  lemma FramedIsBlocks(a: Aead, c: Cipher, plaintext: seq<byte>)
    requires c.layout == PaddedCounter && c.outCounter + Blocks(plaintext) < U64_LIMIT
    ensures var (end, r) := Framed(a, c, plaintext);
            && (r.Ok? <==> AllSealed(a, c.outKey, c.outCounter, plaintext))
            && (r.Ok? ==> r.value == BlocksFrom(a, c.outKey, c.outCounter, plaintext, 0)
                          && end == c.(outCounter := c.outCounter + Blocks(plaintext)))
            && (r.Err? ==> r.error == AeadFailed)
  {
    hide Framed, Blocks, SealedBlock, BlocksFrom;
    FramedFrom(a, c, plaintext, 0);
    assert LeftBefore(plaintext, 0) == plaintext by { AllLeft(plaintext); }
  }

  lemma AllLeft(plaintext: seq<byte>)
    ensures LeftBefore(plaintext, 0) == plaintext
  {
  }

  /**
   What decrypt makes of what has arrived: the first two bytes, low one first, give the length of
   a block's plaintext; the block is opened once it is all there with its sixteen bytes of tag,
   under the inbound key and the inbound counter, those two bytes being the associated data.
   */
  lemma DrainedOnce(a: Aead, c: Cipher, buf: seq<byte>)
    requires c.layout == PaddedCounter
    ensures |buf| < 2 ==> Drain(a, c, buf) == Drained(c, Ok([]), buf)
    ensures |buf| >= 2 ==>
              var end := 2 + (buf[0] as nat + 256 * buf[1] as nat) + 16;
              Drain(a, c, buf)
              == if |buf| < end then Drained(c, Ok([]), buf)
                 else if c.inCounter >= 0xFFFF_FFFF_FFFF_FFFF then Drained(c, Err(CounterExhausted), buf)
                 else
                   var next := c.(inCounter := c.inCounter + 1);
                   match a.open(c.inKey, NonceOf(PaddedCounter, c.inCounter), buf[2..end], [buf[0], buf[1]])
                   case None => Drained(next, Err(AeadFailed), buf)
                   case Some(plain) =>
                     var rest := Drain(a, next, buf[end..]);
                     rest.(output := if rest.output.Ok? then Ok(plain + rest.output.value) else rest.output)
  {
    hide NonceOf, NonceLayout.Nonce, FromLe;
    NonceIs(PaddedCounter, c.inCounter);
    if |buf| >= 2 {
      assert buf[..2] == [buf[0], buf[1]];
      FromLeDigits(buf[..2]);
    }
  }
}
