/**
 What the Companion connection puts on the wire and takes from it, byte by byte.

 Frame types, the three-byte length and the seal around a payload are written out in numbers, for
 a single frame and for a whole stream.
 */
module CompanionWire {
  import opened Bytes
  import opened Chacha
  import opened CipherWire
  import opened CompanionCodec
  import opened CompanionFrame
  import opened Wrappers

  // ----- Headers -------------------------------------------------------------------------------

  function Types(): (types: seq<FrameType>)
    ensures |types| == 17
  {
    [Unknown, NoOp, PsStart, PsNext, PvStart, PvNext, UOpack, EOpack, POpack, PaReq, PaRsp,
     SessionStartRequest, SessionStartResponse, SessionData,
     FamilyIdentityRequest, FamilyIdentityResponse, FamilyIdentityUpdate]
  }

  function TypeNumbers(): (numbers: seq<byte>)
    ensures |numbers| == 17
  {
    [0, 1, 3, 4, 5, 6, 7, 8, 9, 10, 11, 16, 17, 18, 32, 33, 34]
  }

  /** The seventeen frame types stand for these numbers, in this order, and no other byte for any. */
  lemma TypesAreNumbered(i: nat, b: byte)
    ensures i < 17 ==> Types()[i].ToByte() == TypeNumbers()[i] && FromByte(TypeNumbers()[i]) == Some(Types()[i])
    ensures FromByte(b).None? <==> b == 2 || 12 <= b <= 15 || 19 <= b <= 31 || 35 <= b
  {
  }

  /** Pairing frames are 3 to 6, messages 7 to 9, and an answer to 3 or 5 comes under the next number. */
  lemma TypeGroups(t: FrameType)
    ensures t.IsAuth() <==> 3 <= t.ToByte() <= 6
    ensures t.IsOpack() <==> 7 <= t.ToByte() <= 9
    ensures t.ResponseType().ToByte() == t.ToByte() + if t.ToByte() == 3 || t.ToByte() == 5 then 1 else 0
  {
  }

  /** The four bytes in front of a payload of `n` bytes: the type, then `n` with its highest byte first. */
  function Header(t: FrameType, n: nat): (h: seq<byte>)
    requires n < 0x100_0000
    ensures |h| == 4 && h[1] as nat * 65536 + h[2] as nat * 256 + h[3] as nat == n
  {
    [t.ToByte(), n / 65536, n / 256 % 256, n % 256]
  }

  lemma HeaderIs(t: FrameType, n: nat)
    requires n < 0x100_0000
    ensures NewHeader(t, n) == Ok(FrameHeader(t, n)) && FrameHeader(t, n).Encode() == Header(t, n)
  {
    hide FrameType.ToByte;
    assert n / 65536 % 256 == n / 65536;
  }

  /** What the first four bytes of the input announce. */
  lemma HeaderIsRead(input: seq<byte>)
    requires |input| >= 4
    ensures DecodeHeader(input[..4])
         == match FromByte(input[0])
            case None => Err(Framing)
            case Some(t) => Ok(FrameHeader(t, input[1] as nat * 65536 + input[2] as nat * 256 + input[3] as nat))
  {
    hide FromByte;
  }

  // ----- One frame out ------------------------------------------------------------------------------

  /** The frame of a payload that is not sealed, or the seal of one that is. */
  function Sealed(a: Aead, key: Key, layout: NonceLayout, counter: u64, f: Frame): Option<seq<byte>>
    requires |f.payload| + 16 <= 1048576
  {
    var header := Header(f.frameType, |f.payload| + 16);
    var text := a.seal(key, NonceOf(layout, counter), f.payload, header);
    if text.Some? then Some(header + text.value) else None
  }

  /**
   A frame in the clear, or with nothing in it, goes out as header and payload and uses no nonce.
   Any other announces sixteen bytes more than it holds and is sealed under the outbound key and
   counter with its header as associated data. Nothing beyond a mebibyte goes out.
   */
  lemma FrameOnWire(a: Aead, cipher: Option<Cipher>, f: Frame)
    ensures var plain := cipher.None? || f.payload == [];
            var length := |f.payload| + if plain then 0 else 16;
            EncodeFrame(a, cipher, f)
            == if length > 1048576 then (cipher, Err(Framing))
               else if plain then (cipher, Ok(Header(f.frameType, |f.payload|) + f.payload))
               else
                 var c := cipher.value;
                 if c.outCounter == 0xFFFF_FFFF_FFFF_FFFF then (cipher, Err(Pairing(CounterExhausted)))
                 else
                   (Some(c.(outCounter := c.outCounter + 1)),
                    match Sealed(a, c.outKey, c.layout, c.outCounter, f)
                    case Some(frame) => Ok(frame)
                    case None => Err(Pairing(AeadFailed)))
  {
    hide NonceOf, NonceLayout.Nonce, Header, FrameHeader.Encode;
    var n := SealedLength(cipher, f.payload);
    if n <= 1048576 {
      HeaderIs(f.frameType, n);
      if cipher.Some? {
        NonceIs(cipher.value.layout, cipher.value.outCounter);
      }
    }
  }

  /** The wire form of a stream sent from a counter, every frame of which can be sent. */
  function StreamFrom(a: Aead, key: Key, layout: NonceLayout, counter: nat, frames: seq<Frame>): Option<seq<byte>>
    decreases |frames|
  {
    if frames == [] then Some([])
    else
      var f := frames[0];
      if |f.payload| + 16 > 1048576 || counter >= 0xFFFF_FFFF_FFFF_FFFF then None
      else if f.payload == [] then
        var rest :- StreamFrom(a, key, layout, counter, frames[1..]);
        Some(Header(f.frameType, 0) + rest)
      else
        var frame :- Sealed(a, key, layout, counter, f);
        var rest :- StreamFrom(a, key, layout, counter + 1, frames[1..]);
        Some(frame + rest)
  }

  /** Frames sent after encryption was switched on are sealed under consecutive counters, empty ones aside. */
  lemma {:induction false} StreamOnWire(a: Aead, n: nat, k: nat, key: Cipher, c: Cipher, frames: seq<Frame>)
    requires n >= k && StreamFrom(a, c.outKey, c.layout, c.outCounter, frames).Some?
    ensures Transmit(a, n, k, key, Some(c), frames) == StreamFrom(a, c.outKey, c.layout, c.outCounter, frames)
    decreases |frames|
  {
    hide EncodeFrame, Sealed, Header;
    if frames == [] {
    } else {
      var f := frames[0];
      FrameOnWire(a, Some(c), f);
      if f.payload == [] {
        assert Header(f.frameType, 0) + [] == Header(f.frameType, 0);
        StreamOnWire(a, n + 1, k, key, c, frames[1..]);
      } else {
        StreamOnWire(a, n + 1, k, key, c.(outCounter := c.outCounter + 1), frames[1..]);
      }
    }
  }

  // ----- One frame in ----------------------------------------------------------------------------------

  /**
   What the codec makes of its buffer: nothing before four bytes are there; a failure for a type
   byte that stands for none or a length beyond a mebibyte; nothing before the whole frame is
   there; then the frame, opened under the inbound key and counter with the four bytes as
   associated data, unless it is in the clear or empty.
   */
  lemma FrameFromWire(a: Aead, s: Codec)
    ensures |s.buffer| < 4 ==> NextFrame(a, s) == (s, Ok(None))
    ensures |s.buffer| >= 4 ==>
              var length := s.buffer[1] as nat * 65536 + s.buffer[2] as nat * 256 + s.buffer[3] as nat;
              var t := FromByte(s.buffer[0]);
              NextFrame(a, s)
              == if t.None? || length > 1048576 then (s, Err(Framing))
                 else if |s.buffer| < 4 + length then (s, Ok(None))
                 else
                   var header, body, rest := s.buffer[..4], s.buffer[4..4 + length], s.buffer[4 + length..];
                   if s.cipher.None? || length == 0 then (Codec(rest, s.cipher), Ok(Some(Frame(t.value, body))))
                   else
                     var c := s.cipher.value;
                     if c.inCounter == 0xFFFF_FFFF_FFFF_FFFF then (Codec(rest, s.cipher), Err(Pairing(CounterExhausted)))
                     else
                       (Codec(rest, Some(c.(inCounter := c.inCounter + 1))),
                        match a.open(c.inKey, NonceOf(c.layout, c.inCounter), body, header)
                        case Some(plain) => Ok(Some(Frame(t.value, plain)))
                        case None => Err(Pairing(AeadFailed)))
  {
    hide NonceOf, NonceLayout.Nonce, FrameHeader.Encode, FromByte;
    if |s.buffer| >= 4 {
      HeaderIsRead(s.buffer);
      if DecodeHeader(s.buffer[..4]).Ok? {
        HeaderBytesReproduced(s.buffer[..4]);
        assert s.buffer[..4][..4] == s.buffer[..4];
      }
      if s.cipher.Some? {
        NonceIs(s.cipher.value.layout, s.cipher.value.inCounter);
      }
    }
  }
}
