/**
 The AirPlay HAP channel: plaintext cut into frames of at most 1024 bytes, each
 `length ++ ciphertext ++ tag` with the two length bytes as associated data
 (section 5.2.2 of the HAP specification, Release R1).
 */
module HapSession {
  import opened Bytes
  import opened Chacha
  import opened Wrappers

  const FRAME_LENGTH: nat := 1024
  const LENGTH_PREFIX_LEN: nat := 2

  // ----- Sending --------------------------------------------------------------------

  function ChunkLen(remaining: nat): nat {
    if remaining < FRAME_LENGTH then remaining else FRAME_LENGTH
  }

  /** Frame and seal everything, stopping at the first failure. */
  function Framed(a: Aead, c: Cipher, plaintext: seq<byte>): (Cipher, Result<seq<byte>, Error>)
    decreases |plaintext|
  {
    if plaintext == [] then (c, Ok([]))
    else
      var n := ChunkLen(|plaintext|);
      var length := Le(n, LENGTH_PREFIX_LEN);
      var (c1, frame) := Encrypted(a, c, plaintext[..n], length);
      if frame.Err? then (c1, Err(frame.error))
      else
        var (c2, rest) := Framed(a, c1, plaintext[n..]);
        (c2, if rest.Ok? then Ok(length + frame.value + rest.value) else rest)
  }

  function DivCeil(n: nat, d: nat): nat
    requires d > 0
  {
    (n + d - 1) / d
  }

  function FramedLen(n: nat): nat {
    n + DivCeil(n, FRAME_LENGTH) * (LENGTH_PREFIX_LEN + AUTH_TAG_LENGTH)
  }

  /** The output of a successful encrypt is exactly as long as announced. */
  lemma {:induction false} FramedLength(a: Aead, c: Cipher, plaintext: seq<byte>)
    requires Sound(a) && Framed(a, c, plaintext).1.Ok?
    ensures |Framed(a, c, plaintext).1.value| == FramedLen(|plaintext|)
    decreases |plaintext|
  {
    if plaintext == [] {
    } else {
      var n := ChunkLen(|plaintext|);
      var (c1, frame) := Encrypted(a, c, plaintext[..n], Le(n, LENGTH_PREFIX_LEN));
      SealedOpens(a, c, c.(inKey := c.outKey, inCounter := c.outCounter), plaintext[..n], Le(n, LENGTH_PREFIX_LEN));
      FramedLength(a, c1, plaintext[n..]);
      assert DivCeil(|plaintext|, FRAME_LENGTH) == 1 + DivCeil(|plaintext| - n, FRAME_LENGTH);
    }
  }

  // ----- Receiving --------------------------------------------------------------------

  /** Total length of the frame at the front of `buf`, once its prefix is there. */
  function BlockEnd(buf: seq<byte>): nat
    requires |buf| >= LENGTH_PREFIX_LEN
  {
    LENGTH_PREFIX_LEN + FromLe(buf[..LENGTH_PREFIX_LEN]) + AUTH_TAG_LENGTH
  }

  predicate HasFrame(buf: seq<byte>): (r: bool)
    ensures r ==> |buf| >= LENGTH_PREFIX_LEN && |buf| >= BlockEnd(buf)
  {
    |buf| >= LENGTH_PREFIX_LEN && |buf| >= BlockEnd(buf)
  }

  /** What draining a buffer gives: the cipher, the plaintext or a failure, and the bytes left over. */
  datatype Drained = Drained(cipher: Cipher, output: Result<seq<byte>, Error>, rest: seq<byte>)

  function Drain(a: Aead, c: Cipher, buf: seq<byte>): Drained
    decreases |buf|
  {
    if !HasFrame(buf) then Drained(c, Ok([]), buf)
    else
      var (c1, plain) := Decrypted(a, c, buf[LENGTH_PREFIX_LEN..BlockEnd(buf)], buf[..LENGTH_PREFIX_LEN]);
      if plain.Err? then Drained(c1, plain, buf)
      else Prepend(plain.value, Drain(a, c1, buf[BlockEnd(buf)..]))
  }

  function Prepend(head: seq<byte>, d: Drained): Drained {
    if d.output.Ok? then d.(output := Ok(head + d.output.value)) else d
  }

  /** What is left over is a strict prefix of one frame. */
  lemma {:induction false} LeftoverIsPartial(a: Aead, c: Cipher, buf: seq<byte>)
    requires Drain(a, c, buf).output.Ok?
    ensures !HasFrame(Drain(a, c, buf).rest)
    ensures |Drain(a, c, buf).rest| <= 65552
    decreases |buf|
  {
    if HasFrame(buf) {
      LeftoverIsPartial(a, Decrypted(a, c, buf[LENGTH_PREFIX_LEN..BlockEnd(buf)], buf[..LENGTH_PREFIX_LEN]).0,
                        buf[BlockEnd(buf)..]);
    } else {
      Pow256Values();
    }
  }

  /** The frame at the front does not depend on what follows it. */
  lemma FrameInFront(x: seq<byte>, y: seq<byte>)
    requires HasFrame(x)
    ensures HasFrame(x + y) && BlockEnd(x + y) == BlockEnd(x) >= LENGTH_PREFIX_LEN
    ensures (x + y)[..LENGTH_PREFIX_LEN] == x[..LENGTH_PREFIX_LEN]
    ensures (x + y)[LENGTH_PREFIX_LEN..BlockEnd(x)] == x[LENGTH_PREFIX_LEN..BlockEnd(x)]
    ensures (x + y)[BlockEnd(x)..] == x[BlockEnd(x)..] + y
  {
    assert (x + y)[..LENGTH_PREFIX_LEN] == x[..LENGTH_PREFIX_LEN];
  }

  /** Draining more bytes is draining the first ones and carrying on with what they left over. */
  lemma {:induction false} DrainInPieces(a: Aead, c: Cipher, x: seq<byte>, y: seq<byte>)
    ensures var d := Drain(a, c, x);
            if d.output.Ok? then Drain(a, c, x + y) == Prepend(d.output.value, Drain(a, d.cipher, d.rest + y))
            else Drain(a, c, x + y).output == d.output && Drain(a, c, x + y).cipher == d.cipher
    decreases |x|
  {
    hide HasFrame, BlockEnd, Decrypted, Prepend;
    if HasFrame(x) {
      var end := BlockEnd(x);
      FrameInFront(x, y);
      var (c1, plain) := Decrypted(a, c, x[LENGTH_PREFIX_LEN..end], x[..LENGTH_PREFIX_LEN]);
      if plain.Ok? {
        DrainInPieces(a, c1, x[end..], y);
        var d := Drain(a, c1, x[end..]);
        if d.output.Ok? {
          PrependTwice(plain.value, d.output.value, Drain(a, d.cipher, d.rest + y));
        }
        PrependKeeps(plain.value, d);
        PrependKeeps(plain.value, Drain(a, c1, x[end..] + y));
      }
    } else {
      PrependNothing(Drain(a, c, x + y));
    }
  }

  lemma PrependKeeps(head: seq<byte>, d: Drained)
    ensures var e := Prepend(head, d);
            e.cipher == d.cipher && e.rest == d.rest && e.output == if d.output.Ok? then Ok(head + d.output.value) else d.output
  {
  }

  lemma PrependTwice(a: seq<byte>, b: seq<byte>, d: Drained)
    ensures Prepend(a, Prepend(b, d)) == Prepend(a + b, d)
  {
    if d.output.Ok? {
      assert a + (b + d.output.value) == a + b + d.output.value;
    }
  }

  // ----- Segmentation independence --------------------------------------------------------

  /** Feeding the pieces one decrypt call at a time, keeping what each leaves over. */
  function Feed(a: Aead, c: Cipher, buffer: seq<byte>, pieces: seq<seq<byte>>): Drained
    decreases |pieces|
  {
    if pieces == [] then Drained(c, Ok([]), buffer)
    else
      var d := Drain(a, c, buffer + pieces[0]);
      if d.output.Err? then d else Prepend(d.output.value, Feed(a, d.cipher, d.rest, pieces[1..]))
  }

  /**
   However a byte stream is cut, the calls all succeed exactly when one call on the whole
   stream does, and then plaintext, counters and leftover are the same; when they fail, they
   fail the same way with the same counters.
   */
  lemma {:induction false} SegmentationIndependent(a: Aead, c: Cipher, buffer: seq<byte>, pieces: seq<seq<byte>>)
    requires !HasFrame(buffer)
    ensures var split, whole := Feed(a, c, buffer, pieces), Drain(a, c, buffer + Concat(pieces));
            && split.output == whole.output
            && split.cipher == whole.cipher
            && (whole.output.Ok? ==> split == whole)
    decreases |pieces|
  {
    if pieces == [] {
      assert buffer + Concat(pieces) == buffer;
    } else {
      var first := buffer + pieces[0];
      assert buffer + Concat(pieces) == first + Concat(pieces[1..]);
      DrainInPieces(a, c, first, Concat(pieces[1..]));
      var d := Drain(a, c, first);
      if d.output.Ok? {
        LeftoverIsPartial(a, c, first);
        SegmentationIndependent(a, d.cipher, d.rest, pieces[1..]);
      }
    }
  }

  // ----- Round trip ---------------------------------------------------------------------------

  /** One encrypt call's output drains to its plaintext, whatever follows it. */
  lemma {:induction false} FramedDrains(a: Aead, tx: Cipher, rx: Cipher, plaintext: seq<byte>, more: seq<byte>)
    requires Sound(a) && InStep(tx, rx)
    requires Framed(a, tx, plaintext).1.Ok?
    ensures var (tx', stream) := Framed(a, tx, plaintext);
            exists rx' :: InStep(tx', rx') &&
                          Drain(a, rx, stream.value + more) == Prepend(plaintext, Drain(a, rx', more))
    decreases |plaintext|
  {
    var (tx', stream) := Framed(a, tx, plaintext);
    if plaintext == [] {
      assert [] + more == more;
      var d := Drain(a, rx, more);
      if d.output.Ok? {
        assert [] + d.output.value == d.output.value;
      }
      assert InStep(tx', rx) && Drain(a, rx, stream.value + more) == Prepend(plaintext, Drain(a, rx, more));
    } else {
      var n := ChunkLen(|plaintext|);
      var length := Le(n, LENGTH_PREFIX_LEN);
      var chunk, rest := plaintext[..n], plaintext[n..];
      var (tx1, frame) := Encrypted(a, tx, chunk, length);
      var (rx1, plain) := Decrypted(a, rx, frame.value, length);
      SealedOpens(a, tx, rx, chunk, length);
      var tail := Framed(a, tx1, rest).1.value;
      FramedDrains(a, tx1, rx1, rest, more);
      var rx' :| InStep(tx', rx') && Drain(a, rx1, tail + more) == Prepend(rest, Drain(a, rx', more));
      OneFrameDrains(a, rx, rx1, chunk, length, frame.value, tail + more);
      assert stream.value + more == length + frame.value + (tail + more);
      PrependTwice(chunk, rest, Drain(a, rx', more));
      assert chunk + rest == plaintext;
    }
  }

  lemma OneFrameDrains(a: Aead, rx: Cipher, rx1: Cipher, chunk: seq<byte>, length: seq<byte>, frame: seq<byte>, more: seq<byte>)
    requires |chunk| <= FRAME_LENGTH && length == Le(|chunk|, LENGTH_PREFIX_LEN)
    requires |frame| == |chunk| + AUTH_TAG_LENGTH
    requires Decrypted(a, rx, frame, length) == (rx1, Ok(chunk))
    ensures Drain(a, rx, length + frame + more) == Prepend(chunk, Drain(a, rx1, more))
  {
    var buf := length + frame + more;
    assert buf[..LENGTH_PREFIX_LEN] == length;
    Pow256Values();
    LeRoundTrip(|chunk|, LENGTH_PREFIX_LEN);
    assert BlockEnd(buf) == LENGTH_PREFIX_LEN + |frame|;
    assert buf[LENGTH_PREFIX_LEN..BlockEnd(buf)] == frame;
    assert buf[BlockEnd(buf)..] == more;
  }

  /** Several encrypt calls in a row; a failed call stops the run. */
  function SendAll(a: Aead, c: Cipher, messages: seq<seq<byte>>): (Cipher, Result<seq<byte>, Error>)
    decreases |messages|
  {
    if messages == [] then (c, Ok([]))
    else
      var (c1, head) := Framed(a, c, messages[0]);
      if head.Err? then (c1, head)
      else
        var (c2, tail) := SendAll(a, c1, messages[1..]);
        (c2, if tail.Ok? then Ok(head.value + tail.value) else tail)
  }

  lemma {:induction false} SentDrains(a: Aead, tx: Cipher, rx: Cipher, messages: seq<seq<byte>>)
    requires Sound(a) && InStep(tx, rx)
    requires SendAll(a, tx, messages).1.Ok?
    ensures var (tx', stream) := SendAll(a, tx, messages);
            var d := Drain(a, rx, stream.value);
            d.output == Ok(Concat(messages)) && d.rest == [] && InStep(tx', d.cipher)
    decreases |messages|
  {
    if messages == [] {
    } else {
      var (tx1, head) := Framed(a, tx, messages[0]);
      var tail := SendAll(a, tx1, messages[1..]).1.value;
      FramedDrains(a, tx, rx, messages[0], tail);
      var rx1 :| InStep(tx1, rx1) && Drain(a, rx, head.value + tail) == Prepend(messages[0], Drain(a, rx1, tail));
      SentDrains(a, tx1, rx1, messages[1..]);
    }
  }

  /**
   Everything a peer's encrypt calls sent comes out, in order and complete, however the bytes
   are cut on the way; nothing is left over and the counters agree.
   */
  lemma ChannelDelivers(a: Aead, tx: Cipher, rx: Cipher, messages: seq<seq<byte>>, pieces: seq<seq<byte>>)
    requires Sound(a) && InStep(tx, rx)
    requires SendAll(a, tx, messages).1 == Ok(Concat(pieces))
    ensures var d := Feed(a, rx, [], pieces);
            d.output == Ok(Concat(messages)) && d.rest == [] && InStep(SendAll(a, tx, messages).0, d.cipher)
  {
    SentDrains(a, tx, rx, messages);
    assert [] + Concat(pieces) == Concat(pieces);
    SegmentationIndependent(a, rx, [], pieces);
  }

  // ----- The session object -----------------------------------------------------------------------

  class HapSession {
    const cipher: Chacha20Cipher
    var buffer: seq<byte>

    constructor (aead: Aead, outputKey: Key, inputKey: Key)
      ensures buffer == [] && fresh(cipher)
      ensures cipher.aead == aead && cipher.Now() == Cipher(outputKey, inputKey, 0, 0, PaddedCounter)
    {
      cipher := new Chacha20Cipher(aead, outputKey, inputKey, PaddedCounter);
      buffer := [];
    }

    method Encrypt(plaintext: seq<byte>) returns (r: Result<seq<byte>, Error>)
      modifies cipher`outCounter
      ensures (cipher.Now(), r) == Framed(cipher.aead, old(cipher.Now()), plaintext)
    {
      var output: seq<byte> := [];
      var i := 0;
      ghost var whole := Framed(cipher.aead, cipher.Now(), plaintext);
      assert plaintext[0..] == plaintext;
      ResumeStart(whole);
      while i < |plaintext|
        invariant 0 <= i <= |plaintext|
        invariant Resumes(whole, output, Framed(cipher.aead, cipher.Now(), plaintext[i..]))
      {
        var n := ChunkLen(|plaintext| - i);
        var length := Le(n, LENGTH_PREFIX_LEN);
        ghost var c := cipher.Now();
        assert plaintext[i..][..n] == plaintext[i..i + n];
        assert plaintext[i..][n..] == plaintext[i + n..];
        ResumeStep(cipher.aead, c, whole, output, plaintext[i..]);
        var frame :- cipher.Encrypt(plaintext[i..i + n], length);
        output := output + length + frame;
        i := i + n;
      }
      assert output + [] == output;
      return Ok(output);
    }

    /** On failure the buffer keeps everything, but the inbound counter has moved on. */
    method Decrypt(ciphertext: seq<byte>) returns (r: Result<seq<byte>, Error>)
      modifies this`buffer, cipher`inCounter
      ensures var d := Drain(cipher.aead, old(cipher.Now()), old(buffer) + ciphertext);
              && r == d.output && cipher.Now() == d.cipher
              && buffer == if d.output.Ok? then d.rest else old(buffer) + ciphertext
    {
      hide Decrypted;
      buffer := buffer + ciphertext;
      var output: seq<byte> := [];
      var consumed := 0;
      ghost var whole := Drain(cipher.aead, cipher.Now(), buffer);
      assert buffer[0..] == buffer;
      PrependNothing(whole);
      while HasFrame(buffer[consumed..])
        invariant 0 <= consumed <= |buffer|
        invariant buffer == old(buffer) + ciphertext
        invariant SameButErrRest(whole, Prepend(output, Drain(cipher.aead, cipher.Now(), buffer[consumed..])))
        decreases |buffer| - consumed
      {
        var rest := buffer[consumed..];
        var end := BlockEnd(rest);
        var plain :- cipher.Decrypt(rest[LENGTH_PREFIX_LEN..end], rest[..LENGTH_PREFIX_LEN]);
        assert rest[end..] == buffer[consumed + end..];
        PrependTwice(output, plain, Drain(cipher.aead, cipher.Now(), rest[end..]));
        output := output + plain;
        consumed := consumed + end;
      }
      buffer := buffer[consumed..];
      assert output + [] == output;
      return Ok(output);
    }
  }

  ghost predicate SameButErrRest(x: Drained, y: Drained) {
    x.output == y.output && x.cipher == y.cipher && (x.output.Ok? ==> x.rest == y.rest)
  }

  lemma PrependNothing(d: Drained)
    ensures Prepend([], d) == d
  {
    if d.output.Ok? {
      assert [] + d.output.value == d.output.value;
    }
  }

  /** The whole run is the bytes `done` followed by the run `rest`. */
  ghost predicate Resumes(whole: (Cipher, Result<seq<byte>, Error>), done: seq<byte>, rest: (Cipher, Result<seq<byte>, Error>)) {
    whole == (rest.0, if rest.1.Ok? then Ok(done + rest.1.value) else rest.1)
  }

  lemma ResumeStart(whole: (Cipher, Result<seq<byte>, Error>))
    ensures Resumes(whole, [], whole)
  {
    if whole.1.Ok? {
      assert [] + whole.1.value == whole.1.value;
    }
  }

  lemma ResumeStep(a: Aead, c: Cipher, whole: (Cipher, Result<seq<byte>, Error>), done: seq<byte>, plaintext: seq<byte>)
    requires plaintext != [] && Resumes(whole, done, Framed(a, c, plaintext))
    ensures var n := ChunkLen(|plaintext|);
            var length := Le(n, LENGTH_PREFIX_LEN);
            var (c1, frame) := Encrypted(a, c, plaintext[..n], length);
            if frame.Err? then whole == (c1, Err(frame.error))
            else Resumes(whole, done + length + frame.value, Framed(a, c1, plaintext[n..]))
  {
    var n := ChunkLen(|plaintext|);
    var length := Le(n, LENGTH_PREFIX_LEN);
    var (c1, frame) := Encrypted(a, c, plaintext[..n], length);
    if frame.Ok? {
      var rest := Framed(a, c1, plaintext[n..]).1;
      if rest.Ok? {
        assert done + (length + frame.value + rest.value) == done + length + frame.value + rest.value;
      }
    }
  }
}
