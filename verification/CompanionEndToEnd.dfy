/** From an envelope on one side to an envelope on the other, through every layer. */
module CompanionEndToEnd {
  import opened Chacha
  import opened CompanionCodec
  import opened CompanionFrame
  import opened CompanionMessage
  import opened OpackDe
  import opened OpackLockstep
  import opened OpackRoundTrip
  import opened OpackSer
  import opened OpackTables
  import opened OpackValue
  import opened Wrappers

  /** What the receiver makes of a frame: unpack under the default budget, then read the envelope. */
  function ReadMessage(p: Params, f: Frame): Option<Envelope> {
    match UnpackWith(p.(budget := DefaultBudget(|f.payload|)), f.payload)
    case Err(_) => None
    case Ok((v, _)) =>
      match FromValue(v)
      case Err(_) => None
      case Ok(e) => Some(e)
  }

  /** The envelope can be packed, is text where it must be, and its cost fits the default budget. */
  ghost predicate Sendable(p: Params, e: Envelope) {
    var packed := PackBytes(ToValue(e));
    && e.error.None?
    && packed.Ok?
    && Textual(p, ToValue(e))
    && Saturate(WireCost(p.slot, [], 0, ToValue(e))) <= DefaultBudget(|packed.value|)
  }

  function MessageFrame(e: Envelope): Frame
    requires PackBytes(ToValue(e)).Ok?
  {
    Frame(EOpack, PackBytes(ToValue(e)).value)
  }

  /** What an envelope looks like once it has travelled. */
  function Received(e: Envelope): Envelope {
    e.(content := Canon(e.content))
  }

  /** One message read from its frame. */
  lemma {:induction false} MessageIsRead(p: Params, e: Envelope)
    requires SeparatesZeros(p.digest) && Sendable(p, e)
    ensures ReadMessage(p, MessageFrame(e)) == Some(Received(e))
  {
    hide PackBytes, UnpackWith, Textual, WireCost, SeparatesZeros, Canon, FromValue;
    var v := ToValue(e);
    var packed := PackBytes(v).value;
    var q := p.(budget := DefaultBudget(|packed|));
    TextualAnyBudget(p, q, v);
    RoundTrip(q, v, []);
    assert packed + [] == packed;
    EnvelopeRoundTrip(e);
    ReadSurvivesWire(v);
    NoErrorStaysNone(v);
  }

  lemma NoErrorStaysNone(v: Value)
    requires v.Dict? && FromValue(v).Ok? && FromValue(v).value.error.None?
    ensures FromValue(Canon(v)).Ok? && FromValue(Canon(v)).value.error.None?
  {
    hide Canon;
    ReadSurvivesWire(v);
  }

  ghost predicate AllSendable(p: Params, es: seq<Envelope>) {
    forall i :: 0 <= i < |es| ==> Sendable(p, es[i])
  }

  ghost function MessageFrames(p: Params, es: seq<Envelope>): (frames: seq<Frame>)
    requires AllSendable(p, es)
    ensures |frames| == |es|
    ensures forall i :: 0 <= i < |es| ==> frames[i] == MessageFrame(es[i])
  {
    if es == [] then [] else [MessageFrame(es[0])] + MessageFrames(p, es[1..])
  }

  /**
   Envelopes survive the whole stack: packed, framed, sealed, delivered in arbitrary pieces,
   opened, unpacked and read back, each arrives in order with its identifier, type and XID and
   with canonical content.
   */
  lemma {:induction false} MessagesArrive(a: Aead, k: nat, txKey: Cipher, rxKey: Cipher, p: Params, es: seq<Envelope>, ops: seq<Op>, polls: seq<Op>)
    requires Sound(a) && InStep(txKey, rxKey) && SeparatesZeros(p.digest)
    requires AllSendable(p, es)
    requires Some(Pushed(ops)) == Stream(a, k, txKey, MessageFrames(p, es))
    requires (forall i :: 0 <= i < |polls| ==> polls[i].Poll?) && |polls| >= |es|
    ensures var end := ReceiveAll(a, k, rxKey, ReceiveAll(a, k, rxKey, Initial(k, rxKey), ops), polls);
            && !end.failed && |end.got| == |es|
            && forall i :: 0 <= i < |es| ==> ReadMessage(p, end.got[i]) == Some(Received(es[i]))
  {
    hide Stream, ReceiveAll, Initial, Sound, InStep, SeparatesZeros, ReadMessage;
    var frames := MessageFrames(p, es);
    StreamDelivers(a, k, txKey, rxKey, frames, ops, polls);
    forall i | 0 <= i < |es|
      ensures ReadMessage(p, frames[i]) == Some(Received(es[i]))
    {
      MessageIsRead(p, es[i]);
    }
  }
}
