/**
 Framing one Companion connection: cutting frames out of what has been read, sealing and opening
 their payloads, and the laws of the stream between two such ends.
 */
module CompanionCodec {
  import opened Bytes
  import opened Chacha
  import opened CompanionFrame
  import opened Wrappers

  const MAX_FRAME_PAYLOAD: nat := 1024 * 1024

  datatype Frame = Frame(frameType: FrameType, payload: seq<byte>)

  datatype Codec = Codec(buffer: seq<byte>, cipher: Option<Cipher>)

  // ----- One frame ------------------------------------------------------------------

  /** The length a header announces: with a cipher, sixteen bytes more unless there is nothing to seal. */
  function SealedLength(cipher: Option<Cipher>, payload: seq<byte>): nat {
    if cipher.Some? && payload != [] then |payload| + AUTH_TAG_LENGTH else |payload|
  }

  function EncodeFrame(a: Aead, cipher: Option<Cipher>, f: Frame): (Option<Cipher>, Result<seq<byte>, CompanionFrame.Error>) {
    var length := SealedLength(cipher, f.payload);
    if length > MAX_FRAME_PAYLOAD then (cipher, Err(Framing))
    else
      match NewHeader(f.frameType, length)
      case Err(e) => (cipher, Err(e))
      case Ok(header) =>
        if cipher.None? || f.payload == [] then (cipher, Ok(header.Encode() + f.payload))
        else
          var (next, body) := Encrypted(a, cipher.value, f.payload, header.Encode());
          (Some(next), if body.Ok? then Ok(header.Encode() + body.value) else Err(Pairing(body.error)))
  }

  function NextFrame(a: Aead, s: Codec): (Codec, Result<Option<Frame>, CompanionFrame.Error>) {
    if |s.buffer| < HEADER_LENGTH then (s, Ok(None))
    else
      match DecodeHeader(s.buffer[..HEADER_LENGTH])
      case Err(e) => (s, Err(e))
      case Ok(header) =>
        if header.payloadLength > MAX_FRAME_PAYLOAD then (s, Err(Framing))
        else if |s.buffer| < header.TotalLength() then (s, Ok(None))
        else
          var body, rest := s.buffer[HEADER_LENGTH..header.TotalLength()], s.buffer[header.TotalLength()..];
          if s.cipher.None? || body == [] then (Codec(rest, s.cipher), Ok(Some(Frame(header.frameType, body))))
          else
            var (next, plain) := Decrypted(a, s.cipher.value, body, header.Encode());
            (Codec(rest, Some(next)),
             if plain.Ok? then Ok(Some(Frame(header.frameType, plain.value))) else Err(Pairing(plain.error)))
  }

  /** Both ends are in the clear, or both hold ciphers in step. */
  ghost predicate Matched(tx: Option<Cipher>, rx: Option<Cipher>) {
    if tx.None? then rx.None? else rx.Some? && InStep(tx.value, rx.value)
  }

  /** A frame that was accepted is the next frame out on the other side, whatever follows it. */
  lemma FrameOpens(a: Aead, tx: Option<Cipher>, rx: Option<Cipher>, f: Frame, more: seq<byte>)
    requires Sound(a) && Matched(tx, rx)
    requires EncodeFrame(a, tx, f).1.Ok?
    ensures var (tx', bytes) := EncodeFrame(a, tx, f);
            var (s, r) := NextFrame(a, Codec(bytes.value + more, rx));
            r == Ok(Some(f)) && s.buffer == more && Matched(tx', s.cipher)
  {
    hide FrameHeader.Encode, DecodeHeader, FrameType.ToByte, FromByte;
    var header := FrameHeader(f.frameType, SealedLength(tx, f.payload));
    var bytes := EncodeFrame(a, tx, f).1.value;
    var buffer := bytes + more;
    assert buffer[..HEADER_LENGTH] == header.Encode() + [];
    HeaderRoundTrip(header, []);
    if tx.Some? && f.payload != [] {
      SealedOpens(a, tx.value, rx.value, f.payload, header.Encode());
    }
    assert buffer[HEADER_LENGTH..header.TotalLength()] == bytes[HEADER_LENGTH..];
    assert buffer[header.TotalLength()..] == more;
  }

  /** While a frame is still arriving the codec waits and changes nothing. */
  lemma PartialWaits(a: Aead, tx: Option<Cipher>, rx: Option<Cipher>, f: Frame, part: seq<byte>)
    requires Sound(a)
    requires EncodeFrame(a, tx, f).1.Ok?
    requires part < EncodeFrame(a, tx, f).1.value
    ensures NextFrame(a, Codec(part, rx)) == (Codec(part, rx), Ok(None))
  {
    hide FrameHeader.Encode, DecodeHeader, FrameType.ToByte, FromByte;
    var header := FrameHeader(f.frameType, SealedLength(tx, f.payload));
    var bytes := EncodeFrame(a, tx, f).1.value;
    if |part| >= HEADER_LENGTH {
      assert part[..HEADER_LENGTH] == bytes[..HEADER_LENGTH] == header.Encode() + [];
      HeaderRoundTrip(header, []);
      if tx.Some? && f.payload != [] {
        SealedOpens(a, tx.value, tx.value.(inKey := tx.value.outKey, inCounter := tx.value.outCounter), f.payload, header.Encode());
      }
    }
  }

  // ----- A whole stream -----------------------------------------------------------------

  /** Encryption is switched on with `key` when `k` frames have passed. */
  function Switched(n: nat, k: nat, key: Cipher, cipher: Option<Cipher>): Option<Cipher> {
    if n == k then Some(key) else cipher
  }

  /** The wire form of `frames`, `n` having been sent before; every frame must be accepted. */
  function Transmit(a: Aead, n: nat, k: nat, key: Cipher, cipher: Option<Cipher>, frames: seq<Frame>): Option<seq<byte>>
    decreases |frames|
  {
    if frames == [] then Some([])
    else
      var (next, bytes) := EncodeFrame(a, cipher, frames[0]);
      if bytes.Err? then None
      else
        var rest :- Transmit(a, n + 1, k, key, Switched(n + 1, k, key, next), frames[1..]);
        Some(bytes.value + rest)
  }

  /** What a receiver may do: take in whatever bytes arrived, or ask for the next frame. */
  datatype Op = Push(bytes: seq<byte>) | Poll

  datatype Receiver = Receiver(codec: Codec, got: seq<Frame>, failed: bool)

  function Receive(a: Aead, k: nat, key: Cipher, r: Receiver, op: Op): Receiver {
    match op
    case Push(bytes) => r.(codec := r.codec.(buffer := r.codec.buffer + bytes))
    case Poll =>
      var (codec, out) := NextFrame(a, r.codec);
      match out
      case Err(_) => Receiver(codec, r.got, true)
      case Ok(None) => r.(codec := codec)
      case Ok(Some(f)) =>
        Receiver(codec.(cipher := Switched(|r.got| + 1, k, key, codec.cipher)), r.got + [f], r.failed)
  }

  function ReceiveAll(a: Aead, k: nat, key: Cipher, r: Receiver, ops: seq<Op>): Receiver
    decreases |ops|
  {
    if ops == [] then r else ReceiveAll(a, k, key, Receive(a, k, key, r, ops[0]), ops[1..])
  }

  function Pushed(ops: seq<Op>): seq<byte> {
    if ops == [] then []
    else (if ops[0].Push? then ops[0].bytes else []) + Pushed(ops[1..])
  }

  /**
   `r` has the first frames and its buffer followed by `coming` is the wire form of the rest,
   sent from cipher state `tx`.
   */
  ghost predicate OnTrack(a: Aead, k: nat, txKey: Cipher, r: Receiver, tx: Option<Cipher>, rest: seq<Frame>, coming: seq<byte>) {
    && !r.failed
    && Matched(tx, r.codec.cipher)
    && Transmit(a, |r.got|, k, txKey, tx, rest) == Some(r.codec.buffer + coming)
  }

  /** A poll either delivers exactly the next frame or finds it incomplete and changes nothing. */
  lemma PollOnTrack(a: Aead, k: nat, txKey: Cipher, rxKey: Cipher, r: Receiver, tx: Option<Cipher>, rest: seq<Frame>, coming: seq<byte>)
    returns (tx': Option<Cipher>)
    requires Sound(a) && InStep(txKey, rxKey)
    requires OnTrack(a, k, txKey, r, tx, rest, coming)
    ensures var r' := Receive(a, k, rxKey, r, Poll);
            if r' == r then tx' == tx && (coming == [] ==> rest == [])
            else rest != [] && r'.got == r.got + [rest[0]] && OnTrack(a, k, txKey, r', tx', rest[1..], coming)
  {
    hide NextFrame, EncodeFrame;
    tx' := tx;
    if rest == [] {
      EmptyWaits(a, r.codec);
    } else {
      var (next, bytes) := EncodeFrame(a, tx, rest[0]);
      var tail := Transmit(a, |r.got| + 1, k, txKey, Switched(|r.got| + 1, k, txKey, next), rest[1..]).value;
      var buffer := r.codec.buffer;
      assert buffer + coming == bytes.value + tail;
      if |buffer| < |bytes.value| {
        assert buffer == (buffer + coming)[..|buffer|] == (bytes.value + tail)[..|buffer|];
        assert buffer < bytes.value;
        PartialWaits(a, tx, r.codec.cipher, rest[0], buffer);
      } else {
        var more := buffer[|bytes.value|..];
        assert bytes.value == (bytes.value + tail)[..|bytes.value|] == (buffer + coming)[..|bytes.value|];
        assert buffer == bytes.value + more;
        assert tail == (bytes.value + tail)[|bytes.value|..] == (buffer + coming)[|bytes.value|..] == more + coming;
        FrameOpens(a, tx, r.codec.cipher, rest[0], more);
        tx' := Switched(|r.got| + 1, k, txKey, next);
      }
    }
  }

  lemma EmptyWaits(a: Aead, s: Codec)
    requires s.buffer == []
    ensures NextFrame(a, s) == (s, Ok(None))
  {
  }

  /** Any schedule of pushes and polls stays on track. */
  lemma {:induction false} RunOnTrack(a: Aead, k: nat, txKey: Cipher, rxKey: Cipher, r: Receiver, tx: Option<Cipher>,
                                      rest: seq<Frame>, ops: seq<Op>, coming: seq<byte>)
    returns (tx': Option<Cipher>, rest': seq<Frame>)
    requires Sound(a) && InStep(txKey, rxKey)
    requires OnTrack(a, k, txKey, r, tx, rest, Pushed(ops) + coming)
    ensures var r' := ReceiveAll(a, k, rxKey, r, ops);
            r'.got + rest' == r.got + rest && OnTrack(a, k, txKey, r', tx', rest', coming)
    decreases |ops|
  {
    hide Sound, InStep, NextFrame, EncodeFrame, Matched, Transmit;
    if ops == [] {
      assert [] + coming == coming;
      tx', rest' := tx, rest;
    } else {
      var r1 := Receive(a, k, rxKey, r, ops[0]);
      var later := Pushed(ops[1..]) + coming;
      if ops[0].Push? {
        assert Pushed(ops) + coming == ops[0].bytes + later;
        assert r.codec.buffer + (ops[0].bytes + later) == r1.codec.buffer + later;
        tx', rest' := RunOnTrack(a, k, txKey, rxKey, r1, tx, rest, ops[1..], coming);
      } else {
        assert Pushed(ops) + coming == later;
        var tx1 := PollOnTrack(a, k, txKey, rxKey, r, tx, rest, later);
        if r1 == r {
          tx', rest' := RunOnTrack(a, k, txKey, rxKey, r, tx, rest, ops[1..], coming);
        } else {
          tx', rest' := RunOnTrack(a, k, txKey, rxKey, r1, tx1, rest[1..], ops[1..], coming);
          assert r1.got + rest[1..] == r.got + rest;
        }
      }
    }
  }

  /** Once everything has been pushed, as many polls as there are frames deliver them all. */
  lemma {:induction false} PollsDeliver(a: Aead, k: nat, txKey: Cipher, rxKey: Cipher, r: Receiver, tx: Option<Cipher>,
                                        rest: seq<Frame>, polls: seq<Op>)
    requires Sound(a) && InStep(txKey, rxKey)
    requires OnTrack(a, k, txKey, r, tx, rest, [])
    requires (forall i :: 0 <= i < |polls| ==> polls[i].Poll?) && |polls| >= |rest|
    ensures var r' := ReceiveAll(a, k, rxKey, r, polls);
            r'.got == r.got + rest && r'.codec.buffer == [] && !r'.failed
    decreases |polls|
  {
    hide Sound, InStep, NextFrame, EncodeFrame, Matched;
    if rest == [] {
      assert r.codec.buffer == [];
      EmptyStays(a, k, rxKey, r, polls);
      assert r.got + [] == r.got;
    } else {
      var r1 := Receive(a, k, rxKey, r, polls[0]);
      var tx1 := PollOnTrack(a, k, txKey, rxKey, r, tx, rest, []);
      PollsDeliver(a, k, txKey, rxKey, r1, tx1, rest[1..], polls[1..]);
      assert r1.got + rest[1..] == r.got + rest;
    }
  }

  lemma {:induction false} EmptyStays(a: Aead, k: nat, key: Cipher, r: Receiver, polls: seq<Op>)
    requires r.codec.buffer == []
    requires forall i :: 0 <= i < |polls| ==> polls[i].Poll?
    ensures ReceiveAll(a, k, key, r, polls) == r
    decreases |polls|
  {
    if polls == [] {
    } else {
      EmptyWaits(a, r.codec);
      EmptyStays(a, k, key, r, polls[1..]);
    }
  }

  function Initial(k: nat, key: Cipher): Receiver {
    Receiver(Codec([], Switched(0, k, key, None)), [], false)
  }

  function Stream(a: Aead, k: nat, key: Cipher, frames: seq<Frame>): Option<seq<byte>> {
    Transmit(a, 0, k, key, Switched(0, k, key, None), frames)
  }

  lemma InitialOnTrack(a: Aead, k: nat, txKey: Cipher, rxKey: Cipher, frames: seq<Frame>, coming: seq<byte>)
    requires InStep(txKey, rxKey) && Stream(a, k, txKey, frames) == Some(coming)
    ensures OnTrack(a, k, txKey, Initial(k, rxKey), Switched(0, k, txKey, None), frames, coming)
  {
    assert [] + coming == coming;
  }

  /**
   Frames are delivered unaltered and in order: for any accepted sequence, encryption switched
   on at the same frame boundary on both sides, and any interleaving of pushes (cutting the
   bytes anywhere) with polls, what has been delivered is always a prefix of what was sent and
   nothing fails; once all bytes are in, polling delivers the rest and leaves nothing behind.
   */
  lemma StreamDelivers(a: Aead, k: nat, txKey: Cipher, rxKey: Cipher, frames: seq<Frame>, ops: seq<Op>, polls: seq<Op>)
    requires Sound(a) && InStep(txKey, rxKey)
    requires Stream(a, k, txKey, frames).Some? && Pushed(ops) <= Stream(a, k, txKey, frames).value
    requires (forall i :: 0 <= i < |polls| ==> polls[i].Poll?) && |polls| >= |frames|
    ensures var r := ReceiveAll(a, k, rxKey, Initial(k, rxKey), ops);
            && r.got <= frames && !r.failed
            && (Some(Pushed(ops)) == Stream(a, k, txKey, frames) ==>
                  var end := ReceiveAll(a, k, rxKey, r, polls);
                  end.got == frames && end.codec.buffer == [] && !end.failed)
  {
    hide Transmit, Stream, ReceiveAll, Pushed, Sound, InStep;
    var tx := Switched(0, k, txKey, None);
    var stream := Stream(a, k, txKey, frames).value;
    var coming := stream[|Pushed(ops)|..];
    assert Pushed(ops) + coming == stream;
    var r0 := Initial(k, rxKey);
    InitialOnTrack(a, k, txKey, rxKey, frames, stream);
    var tx', rest := RunOnTrack(a, k, txKey, rxKey, r0, tx, frames, ops, coming);
    var r := ReceiveAll(a, k, rxKey, r0, ops);
    assert r0.got + frames == frames;
    if Pushed(ops) == stream {
      assert coming == [];
      PollsDeliver(a, k, txKey, rxKey, r, tx', rest, polls);
    }
  }

  // ----- Arbitrary inbound bytes --------------------------------------------------------------

  /** Everything that can be taken from a codec: frames, up to the first failure if there is one. */
  datatype Drained = Drained(codec: Codec, frames: seq<Frame>, failure: Option<CompanionFrame.Error>)

  lemma TakingShrinks(a: Aead, s: Codec)
    ensures var (s1, r) := NextFrame(a, s); r.Ok? && r.value.Some? ==> |s1.buffer| < |s.buffer|
  {
    hide DecodeHeader;
  }

  function Drain(a: Aead, s: Codec): Drained
    decreases |s.buffer|
  {
    TakingShrinks(a, s);
    var (s1, r) := NextFrame(a, s);
    match r
    case Err(e) => Drained(s1, [], Some(e))
    case Ok(None) => Drained(s1, [], None)
    case Ok(Some(f)) => After([f], Drain(a, s1))
  }

  function After(frames: seq<Frame>, d: Drained): Drained {
    d.(frames := frames + d.frames)
  }

  lemma AfterTwice(x: seq<Frame>, y: seq<Frame>, d: Drained)
    ensures After(x, After(y, d)) == After(x + y, d) && After([], d) == d
  {
    assert x + (y + d.frames) == x + y + d.frames;
  }

  function More(s: Codec, bytes: seq<byte>): Codec {
    s.(buffer := s.buffer + bytes)
  }

  /** A frame or a failure found at the front does not depend on what arrives behind it. */
  lemma FoundInFront(a: Aead, s: Codec, more: seq<byte>)
    requires NextFrame(a, s).1 != Ok(None)
    ensures var (s1, r) := NextFrame(a, s); NextFrame(a, More(s, more)) == (More(s1, more), r)
  {
    hide DecodeHeader, FrameHeader.Encode;
    var long := s.buffer + more;
    assert long[..HEADER_LENGTH] == s.buffer[..HEADER_LENGTH];
    var header := DecodeHeader(s.buffer[..HEADER_LENGTH]);
    if header.Ok? && header.value.payloadLength <= MAX_FRAME_PAYLOAD {
      var total := header.value.TotalLength();
      assert long[HEADER_LENGTH..total] == s.buffer[HEADER_LENGTH..total];
      assert long[total..] == s.buffer[total..] + more;
    }
  }

  lemma NothingFound(a: Aead, s: Codec)
    requires NextFrame(a, s).1 == Ok(None)
    ensures NextFrame(a, s).0 == s
  {
    hide DecodeHeader;
  }

  /** Draining more bytes is draining the first and carrying on; a failure stays the same failure. */
  lemma {:induction false} DrainInPieces(a: Aead, s: Codec, more: seq<byte>)
    ensures var d := Drain(a, s);
            Drain(a, More(s, more)) == if d.failure.None? then After(d.frames, Drain(a, More(d.codec, more)))
                                       else d.(codec := More(d.codec, more))
    decreases |s.buffer|
  {
    hide NextFrame, After, More;
    var (s1, r) := NextFrame(a, s);
    if r == Ok(None) {
      NothingFound(a, s);
      AfterTwice([], [], Drain(a, More(s, more)));
    } else {
      FoundInFront(a, s, more);
      if r.Ok? {
        TakingShrinks(a, s);
        DrainInPieces(a, s1, more);
        var d := Drain(a, s1);
        AfterTwice([r.value.value], d.frames, Drain(a, More(d.codec, more)));
        AfterKeeps([r.value.value], d, more);
      }
    }
  }

  lemma AfterKeeps(frames: seq<Frame>, d: Drained, more: seq<byte>)
    ensures var e := After(frames, d);
            && e.codec == d.codec && e.failure == d.failure && e.frames == frames + d.frames
            && After(frames, d.(codec := More(d.codec, more))) == e.(codec := More(e.codec, more))
  {
  }

  /** Taking in pieces one at a time and draining after each, up to a failure. */
  function Feed(a: Aead, s: Codec, pieces: seq<seq<byte>>): Drained
    decreases |pieces|
  {
    if pieces == [] then Drained(s, [], None)
    else
      var d := Drain(a, More(s, pieces[0]));
      if d.failure.Some? then d else After(d.frames, Feed(a, d.codec, pieces[1..]))
  }

  lemma {:induction false} DrainedIsEmpty(a: Aead, s: Codec)
    requires Drain(a, s).failure.None?
    ensures NextFrame(a, Drain(a, s).codec).1 == Ok(None)
    decreases |s.buffer|
  {
    hide NextFrame;
    var (s1, r) := NextFrame(a, s);
    if r == Ok(None) {
      NothingFound(a, s);
    } else {
      TakingShrinks(a, s);
      DrainedIsEmpty(a, s1);
    }
  }

  /**
   Whatever bytes come in, honest or not, however they are cut: the frames taken, the failure if
   there is one and the cipher are those of one push of all the bytes, and without a failure so is
   what remains buffered.
   */
  lemma {:induction false} InboundSegmentationIndependent(a: Aead, s: Codec, pieces: seq<seq<byte>>)
    requires NextFrame(a, s).1 == Ok(None)
    ensures var split, whole := Feed(a, s, pieces), Drain(a, More(s, Concat(pieces)));
            && split.frames == whole.frames && split.failure == whole.failure
            && split.codec.cipher == whole.codec.cipher
            && (whole.failure.None? ==> split.codec == whole.codec)
    decreases |pieces|
  {
    hide NextFrame;
    if pieces == [] {
      assert More(s, []) == s by { assert s.buffer + [] == s.buffer; }
      NothingFound(a, s);
    } else {
      var first := More(s, pieces[0]);
      assert More(first, Concat(pieces[1..])) == More(s, Concat(pieces)) by {
        assert s.buffer + pieces[0] + Concat(pieces[1..]) == s.buffer + (pieces[0] + Concat(pieces[1..]));
      }
      DrainInPieces(a, first, Concat(pieces[1..]));
      if Drain(a, first).failure.None? {
        DrainedIsEmpty(a, first);
        InboundSegmentationIndependent(a, Drain(a, first).codec, pieces[1..]);
      }
    }
  }

  // ----- The codec object -------------------------------------------------------------------

  class FrameCodec {
    const aead: Aead
    var buffer: seq<byte>
    var cipher: Chacha20Cipher?

    ghost predicate Valid()
      reads this
    {
      cipher != null ==> cipher.aead == aead
    }

    function CipherNow(): Option<Cipher>
      reads this, cipher
    {
      if cipher == null then None else Some(cipher.Now())
    }

    function Now(): Codec
      reads this, cipher
    {
      Codec(buffer, CipherNow())
    }

    constructor (aead: Aead)
      ensures Valid() && this.aead == aead && Now() == Codec([], None)
    {
      this.aead := aead;
      buffer, cipher := [], null;
    }

    method EnableEncryption(outputKey: Key, inputKey: Key)
      requires Valid()
      modifies this`cipher
      ensures Valid() && fresh(cipher)
      ensures Now() == Codec(old(buffer), Some(Cipher(outputKey, inputKey, 0, 0, BareCounter)))
    {
      cipher := new Chacha20Cipher(aead, outputKey, inputKey, BareCounter);
    }

    method Encode(frameType: FrameType, payload: seq<byte>) returns (r: Result<seq<byte>, CompanionFrame.Error>)
      requires Valid()
      modifies cipher
      ensures Valid()
      ensures (CipherNow(), r) == EncodeFrame(aead, old(CipherNow()), Frame(frameType, payload))
      ensures buffer == old(buffer)
    {
      var length := if cipher != null && payload != [] then |payload| + AUTH_TAG_LENGTH else |payload|;
      if length > MAX_FRAME_PAYLOAD {
        return Err(Framing);
      }
      // The cap is far below what the length field can carry, so the header always exists.
      var header := NewHeader(frameType, length).value;
      var body := payload;
      if cipher != null && payload != [] {
        var sealed := cipher.Encrypt(payload, header.Encode());
        if sealed.Err? {
          return Err(Pairing(sealed.error));
        }
        body := sealed.value;
      }
      return Ok(header.Encode() + body);
    }

    method PushBytes(bytes: seq<byte>)
      requires Valid()
      modifies this`buffer
      ensures Valid()
      ensures Now() == Codec(old(buffer) + bytes, old(CipherNow()))
    {
      buffer := buffer + bytes;
    }

    method TakeFrame() returns (r: Result<Option<Frame>, CompanionFrame.Error>)
      requires Valid()
      modifies this`buffer, cipher
      ensures Valid()
      ensures (Now(), r) == NextFrame(aead, old(Now()))
    {
      if |buffer| < HEADER_LENGTH {
        return Ok(None);
      }
      var header :- DecodeHeader(buffer[..HEADER_LENGTH]);
      if header.payloadLength > MAX_FRAME_PAYLOAD {
        return Err(Framing);
      }
      var total := header.TotalLength();
      if |buffer| < total {
        return Ok(None);
      }
      var headerBytes := header.Encode();
      var body := buffer[HEADER_LENGTH..total];
      buffer := buffer[total..];
      if cipher != null && body != [] {
        var plain := cipher.Decrypt(body, headerBytes);
        if plain.Err? {
          return Err(Pairing(plain.error));
        }
        body := plain.value;
      }
      return Ok(Some(Frame(header.frameType, body)));
    }
  }
}
