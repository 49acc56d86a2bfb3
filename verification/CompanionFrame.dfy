/** The Companion frame header: one type byte and a three-byte big-endian length. */
module CompanionFrame {
  import opened Bytes
  import opened Wrappers
  import Chacha

  const HEADER_LENGTH: nat := 4
  const MAX_ENCODABLE_PAYLOAD: nat := 0xFF_FFFF

  datatype FrameType =
    | Unknown | NoOp | PsStart | PsNext | PvStart | PvNext | UOpack | EOpack | POpack | PaReq | PaRsp
    | SessionStartRequest | SessionStartResponse | SessionData
    | FamilyIdentityRequest | FamilyIdentityResponse | FamilyIdentityUpdate
  {
    function ToByte(): byte {
      match this
      case Unknown => 0
      case NoOp => 1
      case PsStart => 3
      case PsNext => 4
      case PvStart => 5
      case PvNext => 6
      case UOpack => 7
      case EOpack => 8
      case POpack => 9
      case PaReq => 10
      case PaRsp => 11
      case SessionStartRequest => 16
      case SessionStartResponse => 17
      case SessionData => 18
      case FamilyIdentityRequest => 32
      case FamilyIdentityResponse => 33
      case FamilyIdentityUpdate => 34
    }

    predicate IsAuth() {
      PsStart? || PsNext? || PvStart? || PvNext?
    }

    predicate IsOpack() {
      UOpack? || EOpack? || POpack?
    }

    /** Answers to the two opening messages come back under the follow-up type, all others unchanged. */
    function ResponseType(): FrameType {
      match this
      case PsStart => PsNext
      case PvStart => PvNext
      case other => other
    }
  }

  function FromByte(b: byte): Option<FrameType> {
    match b
    case 0 => Some(Unknown)
    case 1 => Some(NoOp)
    case 3 => Some(PsStart)
    case 4 => Some(PsNext)
    case 5 => Some(PvStart)
    case 6 => Some(PvNext)
    case 7 => Some(UOpack)
    case 8 => Some(EOpack)
    case 9 => Some(POpack)
    case 10 => Some(PaReq)
    case 11 => Some(PaRsp)
    case 16 => Some(SessionStartRequest)
    case 17 => Some(SessionStartResponse)
    case 18 => Some(SessionData)
    case 32 => Some(FamilyIdentityRequest)
    case 33 => Some(FamilyIdentityResponse)
    case 34 => Some(FamilyIdentityUpdate)
    case _ => None
  }

  /** Type bytes and frame types are in one-to-one correspondence where they are defined. */
  lemma TypeByteRoundTrip(t: FrameType, b: byte)
    ensures FromByte(b) == Some(t) <==> b == t.ToByte()
  {
  }

  datatype Error = Framing | Pairing(cause: Chacha.Error)

  datatype FrameHeader = FrameHeader(frameType: FrameType, payloadLength: nat) {
    /** The four wire bytes; an unencodable length saturates at 32 bits before its top byte is cut. */
    function Encode(): (b: seq<byte>)
      ensures |b| == HEADER_LENGTH
    {
      var n := if payloadLength < U32_LIMIT then payloadLength else U32_LIMIT - 1;
      [frameType.ToByte(), n / 0x1_0000 % 0x100, n / 0x100 % 0x100, n % 0x100]
    }

    function TotalLength(): nat {
      HEADER_LENGTH + payloadLength
    }
  }

  function NewHeader(frameType: FrameType, payloadLength: nat): Result<FrameHeader, Error> {
    if payloadLength > MAX_ENCODABLE_PAYLOAD then Err(Framing) else Ok(FrameHeader(frameType, payloadLength))
  }

  function Length24(high: nat, middle: nat, low: nat): nat {
    high * 0x1_0000 + middle * 0x100 + low
  }

  function DecodeHeader(input: seq<byte>): Result<FrameHeader, Error> {
    if |input| < HEADER_LENGTH then Err(Framing)
    else
      match FromByte(input[0])
      case None => Err(Framing)
      case Some(t) => Ok(FrameHeader(t, Length24(input[1], input[2], input[3])))
  }

  /** A header that may be sent is read back from its bytes, whatever follows them. */
  lemma HeaderRoundTrip(h: FrameHeader, rest: seq<byte>)
    requires NewHeader(h.frameType, h.payloadLength).Ok?
    ensures DecodeHeader(h.Encode() + rest) == Ok(h)
  {
    TypeByteRoundTrip(h.frameType, h.frameType.ToByte());
    var n := h.payloadLength;
    assert n == n / 0x1_0000 * 0x1_0000 + n / 0x100 % 0x100 * 0x100 + n % 0x100;
  }

  /** Re-encoding a decoded header reproduces the wire bytes, so they can serve as associated data. */
  lemma HeaderBytesReproduced(input: seq<byte>)
    requires DecodeHeader(input).Ok?
    ensures DecodeHeader(input).value.Encode() == input[..HEADER_LENGTH]
    ensures DecodeHeader(input).value.payloadLength <= MAX_ENCODABLE_PAYLOAD
  {
    var h := DecodeHeader(input).value;
    TypeByteRoundTrip(h.frameType, input[0]);
    Digits(input[1], input[2], input[3]);
  }

  lemma Digits(a: byte, b: byte, c: byte)
    ensures var n := a * 0x1_0000 + b * 0x100 + c;
            n / 0x1_0000 % 0x100 == a && n / 0x100 % 0x100 == b && n % 0x100 == c && n <= MAX_ENCODABLE_PAYLOAD
  {
    var n := a * 0x1_0000 + b * 0x100 + c;
    assert n / 0x1_0000 == a;
    assert n / 0x100 == a * 0x100 + b;
  }
}
