/** Where the driver sends a message that a peer packed. */
module CompanionDelivery {
  import opened Bytes
  import opened CompanionCodec
  import opened CompanionEndToEnd
  import opened CompanionFrame
  import opened CompanionMessage
  import opened CompanionProtocol
  import opened OpackDe
  import opened OpackLockstep
  import opened OpackRoundTrip
  import opened OpackScalars
  import opened OpackSer
  import opened OpackTables
  import opened OpackValue
  import opened Wrappers

  /** The frame of a sendable envelope decodes to the canonical form of what was packed. */
  lemma {:induction false} MessageDecodes(p: Params, e: Envelope)
    requires SeparatesZeros(p.digest) && Sendable(p, e)
    ensures Decoded(p, MessageFrame(e)) == Some(Canon(ToValue(e)))
  {
    hide PackBytes, UnpackWith, Textual, WireCost, SeparatesZeros, Canon;
    var packed := PackBytes(ToValue(e)).value;
    var q := p.(budget := DefaultBudget(|packed|));
    TextualAnyBudget(p, q, ToValue(e));
    RoundTrip(q, ToValue(e), []);
    assert packed + [] == packed;
  }

  /**
   A packed response goes to the exchange that awaits its XID, is kept for one still
   outstanding, and is dropped otherwise; a packed event is published if it has an identifier;
   a request is never let through.
   */
  lemma {:induction false} MessageIsClassified(p: Params, e: Envelope, outstanding: seq<u32>, awaiting: Option<Awaiting>)
    requires SeparatesZeros(p.digest) && Sendable(p, e)
    ensures Classify(p, outstanding, awaiting, MessageFrame(e))
         == if e.messageType == Some(Event) && e.identifier.Some?
            then Publish(CompanionEvent(e.identifier.value, Canon(e.content)))
            else if e.messageType == Some(Response) && e.xid.Some? && awaiting == Some(Xid(e.xid.value))
            then Hand(Canon(ToValue(e)))
            else if e.messageType == Some(Response) && e.xid.Some? && e.xid.value in outstanding
            then Keep(e.xid.value, Canon(ToValue(e)))
            else Verdict.Drop
  {
    hide Decoded, Sendable, SeparatesZeros, Canon, FromValue, ToValue, PackBytes;
    MessageDecodes(p, e);
    EnvelopeRoundTrip(e);
    IsDict(e);
    ReadSurvivesWire(ToValue(e));
  }

  lemma IsDict(e: Envelope)
    ensures ToValue(e).Dict?
  {
  }

  // ----- Small messages always fit ---------------------------------------------------------

  /** A bound on the decoding cost that needs no table: every scalar may be inline or a pointer. */
  function RoughCost(slot: nat, v: Value): nat
    decreases Size(v), 0
  {
    if IsContainer(v) then RoughItems(slot, Children(v)) else slot + Payload(v)
  }

  function RoughItems(slot: nat, items: seq<Value>): nat
    decreases SizeItems(items), 1
  {
    if items == [] then 0 else slot + RoughCost(slot, items[0]) + RoughItems(slot, items[1..])
  }

  lemma {:induction false} CostIsRoughly(slot: nat, t: seq<seq<byte>>, depth: nat, v: Value)
    ensures WireCost(slot, t, depth, v) <= RoughCost(slot, v)
    decreases Size(v), 0
  {
    if IsContainer(v) {
      hide Size, SizeItems, Children, ItemsCost, RoughItems;
      ItemsCostRoughly(slot, t, depth + 1, Children(v));
    }
  }

  lemma {:induction false} ItemsCostRoughly(slot: nat, t: seq<seq<byte>>, depth: nat, items: seq<Value>)
    ensures ItemsCost(slot, t, depth, items) <= RoughItems(slot, items)
    decreases SizeItems(items), 1
  {
    hide EncodeValue, WireCost, RoughCost;
    if items == [] {
    } else {
      CostIsRoughly(slot, t, depth, items[0]);
      match EncodeValue(t, depth, items[0])
      case Ok(e) => ItemsCostRoughly(slot, e.table, depth, items[1..]);
      case Err(_) =>
    }
  }

  /** An error-free envelope whose rough cost is within the smallest default budget can be sent. */
  lemma SmallMessageIsSendable(p: Params, e: Envelope)
    requires e.error.None? && Textual(p, ToValue(e))
    requires ScalarsPackable(ToValue(e)) && Depth(ToValue(e)) <= 32
    requires RoughCost(p.slot, ToValue(e)) <= 65536
    ensures Sendable(p, e)
  {
    hide PackBytes, WireCost, RoughCost, Textual, ScalarsPackable, Depth, ToValue;
    PackSucceedsIff(ToValue(e));
    CostIsRoughly(p.slot, [], 0, ToValue(e));
  }

  /** The plainest response: an empty dictionary under a given XID. */
  function EmptyReply(xid: u32): Envelope {
    Envelope(None, Some(Response), Some(xid), Dict([]), None)
  }

  function ReplyItems(xid: u32): (items: seq<Value>)
    ensures |items| == 6
  {
    [Str(KeyType()), Uint(3), Str(KeyContent()), Dict([]), Str(KeyXid()), Uint(xid)]
  }

  lemma ReplyChildren(xid: u32)
    ensures ToValue(EmptyReply(xid)).Dict? && Children(ToValue(EmptyReply(xid))) == ReplyItems(xid)
  {
    var last := [(Str(KeyXid()), Uint(xid))];
    var two := [(Str(KeyContent()), Dict([]))] + last;
    var entries := ToEntries(EmptyReply(xid));
    assert entries == [(Str(KeyType()), Uint(3))] + two;
    assert last[1..] == [] && two[1..] == last && entries[1..] == two;
    assert Flatten(last) == [Str(KeyXid()), Uint(xid)];
    assert Flatten(two) == [Str(KeyContent()), Dict([]), Str(KeyXid()), Uint(xid)];
  }

  /** What any real receiver satisfies: its text check accepts the keys and a slot is at most a page. */
  ghost predicate Plain(p: Params) {
    p.slot <= 0x1000 && p.utf8(KeyType()) && p.utf8(KeyContent()) && p.utf8(KeyXid())
  }

  /** Such a reply is sendable at any slot size a program could have. */
  lemma EmptyReplyIsSendable(p: Params, xid: u32)
    requires Plain(p)
    ensures Sendable(p, EmptyReply(xid))
  {
    ReplyChildren(xid);
    var v := ToValue(EmptyReply(xid));
    assert Children(Dict([])) == [];
    ReplyTail(p, xid, 6);
    SmallMessageIsSendable(p, EmptyReply(xid));
  }

  lemma ReplyItem(p: Params, xid: u32, i: nat)
    requires i < 6 && Plain(p)
    ensures var v := ReplyItems(xid)[i];
            Textual(p, v) && ScalarsPackable(v) && Depth(v) <= 1 && RoughCost(p.slot, v) <= p.slot + 0x10
  {
    hide Flatten;
    var v := ReplyItems(xid)[i];
    if v.Dict? {
      assert Children(v) == [];
    }
  }

  lemma {:induction false} ReplyTail(p: Params, xid: u32, n: nat)
    requires n <= 6 && Plain(p)
    ensures var tail := ReplyItems(xid)[6 - n..];
            && TextualItems(p, tail) && ItemsPackable(tail) && DepthItems(tail) <= 1
            && RoughItems(p.slot, tail) <= n * (2 * p.slot + 0x10)
  {
    hide ReplyItems, Textual, ScalarsPackable, Depth, RoughCost;
    var items, each := ReplyItems(xid), 2 * p.slot + 0x10;
    if n == 0 {
    } else {
      var tail := items[6 - n..];
      assert tail[1..] == items[6 - (n - 1)..] && tail[0] == items[6 - n];
      ReplyTail(p, xid, n - 1);
      ReplyItem(p, xid, 6 - n);
      assert n * each == each + (n - 1) * each;
    }
  }

  /** The frame of the plainest response. */
  function ReplyFrame(xid: u32): Frame {
    match PackBytes(ToValue(EmptyReply(xid)))
    case Ok(packed) => Frame(EOpack, packed)
    case Err(_) => Frame(NoOp, [])
  }

  /** With nobody waiting, it is kept for its XID if that is outstanding. */
  lemma ReplyIsKept(p: Params, xid: u32)
    requires Plain(p) && SeparatesZeros(p.digest)
    ensures Classify(p, [xid], None, ReplyFrame(xid)) == Keep(xid, Canon(ToValue(EmptyReply(xid))))
  {
    EmptyReplyIsSendable(p, xid);
    hide Plain, SeparatesZeros, Canon, ToValue, Classify, PackBytes, Textual, WireCost;
    MessageIsClassified(p, EmptyReply(xid), [xid], None);
  }
}
