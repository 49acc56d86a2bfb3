/**
 The Companion protocol driver: XID allocation, correlation of responses, events.

 `Core` is the driver's state. The pure functions say what each operation does to it; the
 class performs the operations in place.
 */
module CompanionProtocol {
  import opened Bytes
  import opened CompanionCodec
  import opened CompanionFrame
  import opened CompanionMessage
  import opened OpackDe
  import opened OpackValue
  import opened Wrappers

  const MAX_OUTSTANDING: nat := 16

  datatype CompanionEvent = CompanionEvent(name: Blob, content: Value)

  datatype Awaiting = Auth(frameType: FrameType) | Xid(xid: u32)

  datatype Core = Core(xid: u32, outstanding: seq<u32>, stash: map<u32, Value>, events: seq<CompanionEvent>)

  // ----- XIDs ---------------------------------------------------------------------------

  function WrappingAdd(x: u32, n: nat): u32 {
    (x + n) % U32_LIMIT
  }

  /** Forget the oldest outstanding XIDs, and whatever is stashed under them, until there is room. */
  function Evict(s: Core): Core
    decreases |s.outstanding|
  {
    if |s.outstanding| < MAX_OUTSTANDING then s
    else Evict(s.(outstanding := s.outstanding[1..], stash := s.stash - {s.outstanding[0]}))
  }

  function IssueXid(s: Core, xid: u32): Core {
    var roomy := Evict(s);
    roomy.(outstanding := roomy.outstanding + [xid])
  }

  function Without(xids: seq<u32>, xid: u32): (r: seq<u32>)
    ensures |r| <= |xids|
    ensures forall x :: x in r <==> x in xids && x != xid
  {
    if xids == [] then []
    else if xids[0] == xid then Without(xids[1..], xid)
    else [xids[0]] + Without(xids[1..], xid)
  }

  function ResolveXid(s: Core, xid: u32): Core {
    s.(outstanding := Without(s.outstanding, xid), stash := s.stash - {xid})
  }

  // ----- Outgoing dictionaries --------------------------------------------------------------

  predicate IsXidKey(entry: (Value, Value)) {
    entry.0 == Str(KeyXid())
  }

  function DropXid(entries: seq<(Value, Value)>): seq<(Value, Value)> {
    if entries == [] then []
    else if IsXidKey(entries[0]) then DropXid(entries[1..])
    else [entries[0]] + DropXid(entries[1..])
  }

  /** A request's dictionary: any `_x` the caller put in is replaced by the issued one. */
  function RequestEntries(entries: seq<(Value, Value)>, xid: u32): seq<(Value, Value)> {
    DropXid(entries) + [(Str(KeyXid()), Uint(xid))]
  }

  predicate HasXid(entries: seq<(Value, Value)>) {
    Lookup(entries, KeyXid()).Some?
  }

  lemma {:induction false} DropXidLookup(entries: seq<(Value, Value)>, key: Blob)
    ensures Lookup(DropXid(entries), key) == if key == KeyXid() then None else Lookup(entries, key)
  {
    if entries == [] {
    } else {
      DropXidLookup(entries[1..], key);
      if !IsXidKey(entries[0]) {
        assert DropXid(entries)[1..] == DropXid(entries[1..]);
      }
    }
  }

  /** An outgoing request carries exactly the issued XID, and every other key as the caller gave it. */
  lemma {:induction false} RequestCarriesXid(entries: seq<(Value, Value)>, xid: u32, key: Blob)
    ensures HasXid(RequestEntries(entries, xid))
    ensures ReadXid(Dict(RequestEntries(entries, xid))) == Some(xid)
    ensures key != KeyXid() ==> Lookup(RequestEntries(entries, xid), key) == Lookup(entries, key)
  {
    hide Lookup;
    DropXidLookup(entries, KeyXid());
    DropXidLookup(entries, key);
    LookupAppend(DropXid(entries), [(Str(KeyXid()), Uint(xid))], KeyXid());
    LookupAppend(DropXid(entries), [(Str(KeyXid()), Uint(xid))], key);
    LookupOne(KeyXid(), Uint(xid), KeyXid());
    LookupOne(KeyXid(), Uint(xid), key);
  }

  // ----- Incoming frames ------------------------------------------------------------------------

  /** The OPACK value of a frame the driver looks into, decoded under the default budget. */
  function Decoded(p: Params, f: Frame): Option<Value> {
    if !f.frameType.IsAuth() && !f.frameType.IsOpack() then None
    else
      match UnpackWith(p.(budget := DefaultBudget(|f.payload|)), f.payload)
      case Ok((v, _)) => Some(v)
      case Err(_) => None
  }

  /** What becomes of a frame. */
  datatype Verdict = Hand(value: Value) | Keep(xid: u32, kept: Value) | Publish(event: CompanionEvent) | Drop

  function Classify(p: Params, outstanding: seq<u32>, awaiting: Option<Awaiting>, f: Frame): Verdict {
    match Decoded(p, f)
    case None => Drop
    case Some(v) =>
      if f.frameType.IsAuth() then (if awaiting == Some(Auth(f.frameType)) then Hand(v) else Drop)
      else
        match FromValue(v)
        case Err(_) => Drop
        case Ok(e) => ClassifyMessage(outstanding, awaiting, v, e)
  }

  function ClassifyMessage(outstanding: seq<u32>, awaiting: Option<Awaiting>, v: Value, e: Envelope): Verdict {
    if e.messageType == Some(Event) then
      if e.identifier.Some? then Publish(CompanionEvent(e.identifier.value, e.content)) else Drop
    else if e.messageType == Some(Response) && e.xid.Some? then
      if awaiting == Some(Xid(e.xid.value)) then Hand(v)
      else if e.xid.value in outstanding then Keep(e.xid.value, v)
      else Drop
    else Drop
  }

  function Dispatch(p: Params, s: Core, awaiting: Option<Awaiting>, f: Frame): (Core, Option<Value>) {
    match Classify(p, s.outstanding, awaiting, f)
    case Hand(v) => (s, Some(v))
    case Keep(x, v) => (s.(stash := s.stash[x := v]), None)
    case Publish(event) => (s.(events := s.events + [event]), None)
    case Drop => (s, None)
  }

  // ----- Waiting for an answer --------------------------------------------------------------------

  /** What the connection yields while an exchange waits. */
  datatype Arrival = Got(frame: Frame) | Lost

  /** `TimedOut` stands for the deadline passing once the arrivals have run out. */
  datatype Outcome = Answered(value: Value) | Broken | TimedOut

  function Await(p: Params, s: Core, awaiting: Awaiting, feed: seq<Arrival>): (Core, Outcome)
    decreases |feed|
  {
    if feed == [] then (s, TimedOut)
    else if feed[0].Lost? then (s, Broken)
    else
      var (s1, answer) := Dispatch(p, s, Some(awaiting), feed[0].frame);
      if answer.Some? then (s1, Answered(answer.value)) else Await(p, s1, awaiting, feed[1..])
  }

  /** An answer that is already stashed is taken from there; otherwise the wait begins. */
  function TakeOrAwait(p: Params, s: Core, awaiting: Awaiting, feed: seq<Arrival>): (Core, Outcome) {
    if awaiting.Xid? && awaiting.xid in s.stash
    then (s.(stash := s.stash - {awaiting.xid}), Answered(s.stash[awaiting.xid]))
    else Await(p, s, awaiting, feed)
  }

  /** In every case the XID is forgotten afterwards. */
  function Pumped(p: Params, s: Core, awaiting: Awaiting, feed: seq<Arrival>): (Core, Outcome) {
    var (s1, outcome) := TakeOrAwait(p, s, awaiting, feed);
    (if awaiting.Xid? then ResolveXid(s1, awaiting.xid) else s1, outcome)
  }

  lemma PumpedFromStash(p: Params, s: Core, x: u32, feed: seq<Arrival>)
    requires x in s.stash
    ensures Pumped(p, s, Xid(x), feed) == (ResolveXid(s, x), Answered(s.stash[x]))
  {
    assert s.stash - {x} - {x} == s.stash - {x};
  }

  datatype Failure = Refused(cause: CompanionMessage.Error) | NoAnswer(outcome: Outcome) | NotSent

  /** An answer counts as a success only if it is a dictionary without `_em`. */
  function Judge(outcome: Outcome): Result<Value, Failure> {
    if !outcome.Answered? then Err(NoAnswer(outcome))
    else
      match FromValue(outcome.value)
      case Err(e) => Err(Refused(e))
      case Ok(envelope) =>
        match IntoResult(envelope)
        case Err(e) => Err(Refused(e))
        case Ok(_) => Ok(outcome.value)
  }

  /** One exchange; `sent` is whether packing and writing the request succeeded. */
  function Exchanged(p: Params, s: Core, sent: bool, feed: seq<Arrival>): (Core, Result<Value, Failure>) {
    var begun := IssueXid(s.(xid := WrappingAdd(s.xid, 1)), s.xid);
    if !sent then (begun, Err(NotSent))
    else
      var (end, outcome) := Pumped(p, begun, Xid(s.xid), feed);
      (end, Judge(outcome))
  }

  /** A pairing message keeps an `_x` it has and is stamped with the next one otherwise. */
  function Stamped(s: Core, entries: seq<(Value, Value)>): (Core, seq<(Value, Value)>) {
    if HasXid(entries) then (s, entries)
    else (s.(xid := WrappingAdd(s.xid, 1)), entries + [(Str(KeyXid()), Uint(s.xid))])
  }

  /** One pairing exchange, which is answered under a frame type and not under an XID. */
  function AuthExchanged(p: Params, s: Core, frameType: FrameType, entries: seq<(Value, Value)>, sent: bool, feed: seq<Arrival>)
    : (Core, Result<Value, Failure>)
  {
    var begun := Stamped(s, entries).0;
    if !sent then (begun, Err(NotSent))
    else
      var (end, outcome) := Pumped(p, begun, Auth(frameType.ResponseType()), feed);
      (end, Judge(outcome))
  }

  // ----- The driver object ---------------------------------------------------------------------------

  class Driver {
    const p: Params
    var xid: u32
    var outstanding: seq<u32>
    var stash: map<u32, Value>
    var events: seq<CompanionEvent>

    function Now(): Core
      reads this
    {
      Core(xid, outstanding, stash, events)
    }

    constructor (p: Params, xid: u32)
      ensures this.p == p && Now() == Core(xid, [], map[], [])
    {
      this.p, this.xid := p, xid;
      outstanding, stash, events := [], map[], [];
    }

    method NextXid() returns (x: u32)
      modifies this`xid
      ensures x == old(xid) && Now() == old(Now()).(xid := WrappingAdd(old(xid), 1))
    {
      x := xid;
      xid := WrappingAdd(xid, 1);
    }

    method Issue(x: u32)
      modifies this`outstanding, this`stash
      ensures Now() == IssueXid(old(Now()), x)
    {
      while |outstanding| >= MAX_OUTSTANDING
        invariant Evict(Now()) == Evict(old(Now()))
        invariant xid == old(xid) && events == old(events)
      {
        var forgotten := outstanding[0];
        outstanding := outstanding[1..];
        stash := stash - {forgotten};
      }
      outstanding := outstanding + [x];
    }

    method Resolve(x: u32)
      modifies this`outstanding, this`stash
      ensures Now() == ResolveXid(old(Now()), x)
    {
      var kept: seq<u32> := [];
      assert outstanding[0..] == outstanding;
      for i := 0 to |outstanding|
        invariant kept + Without(outstanding[i..], x) == Without(outstanding, x)
      {
        assert outstanding[i..][1..] == outstanding[i + 1..];
        if outstanding[i] != x {
          kept := kept + [outstanding[i]];
        }
      }
      outstanding := kept;
      stash := stash - {x};
    }

    method StashResponse(e: Envelope, value: Value)
      modifies this`stash
      ensures Now() == if e.xid.Some? && e.xid.value in outstanding
                       then old(Now()).(stash := old(stash)[e.xid.value := value]) else old(Now())
    {
      if e.xid.None? {
        return;
      }
      if e.xid.value !in outstanding {
        return;
      }
      stash := stash[e.xid.value := value];
    }

    method DispatchResponse(awaiting: Awaiting, e: Envelope, value: Value) returns (r: Option<Value>)
      modifies this`stash
      ensures r == if e.xid.Some? && awaiting == Xid(e.xid.value) then Some(value) else None
      ensures Now() == if e.xid.Some? && awaiting != Xid(e.xid.value) && e.xid.value in outstanding
                       then old(Now()).(stash := old(stash)[e.xid.value := value]) else old(Now())
    {
      if e.xid.None? {
        return None;
      }
      if awaiting == Xid(e.xid.value) {
        return Some(value);
      }
      StashResponse(e, value);
      return None;
    }

    method DispatchEvent(e: Envelope)
      modifies this`events
      ensures Now() == if e.identifier.Some?
                       then old(Now()).(events := old(events) + [CompanionEvent(e.identifier.value, e.content)])
                       else old(Now())
    {
      if e.identifier.Some? {
        events := events + [CompanionEvent(e.identifier.value, e.content)];
      }
    }

    /** Deal with a frame that has arrived; the result is its value if this is what was awaited. */
    method ReadAndDispatch(awaiting: Option<Awaiting>, f: Frame) returns (r: Option<Value>)
      modifies this`stash, this`events
      ensures (Now(), r) == Dispatch(p, old(Now()), awaiting, f)
    {
      hide UnpackWith, FromValue;
      if !f.frameType.IsAuth() && !f.frameType.IsOpack() {
        return None;
      }
      var unpacked := UnpackWith(p.(budget := DefaultBudget(|f.payload|)), f.payload);
      if unpacked.Err? {
        return None;
      }
      var value := unpacked.value.0;
      if f.frameType.IsAuth() {
        return if awaiting == Some(Auth(f.frameType)) then Some(value) else None;
      }
      var envelope := FromValue(value);
      if envelope.Err? {
        return None;
      }
      var e := envelope.value;
      if e.messageType == Some(Event) {
        DispatchEvent(e);
      } else if e.messageType == Some(Response) {
        if awaiting.Some? {
          r := DispatchResponse(awaiting.value, e, value);
          return;
        }
        StashResponse(e, value);
      }
      return None;
    }

    method PumpInner(awaiting: Awaiting, feed: seq<Arrival>) returns (r: Outcome)
      modifies this`stash, this`events
      ensures (Now(), r) == TakeOrAwait(p, old(Now()), awaiting, feed)
    {
      hide Dispatch;
      if awaiting.Xid? && awaiting.xid in stash {
        r := Answered(stash[awaiting.xid]);
        stash := stash - {awaiting.xid};
        return;
      }
      assert feed[0..] == feed;
      for i := 0 to |feed|
        invariant Await(p, Now(), awaiting, feed[i..]) == Await(p, old(Now()), awaiting, feed)
        invariant xid == old(xid) && outstanding == old(outstanding)
      {
        assert feed[i..][1..] == feed[i + 1..];
        if feed[i].Lost? {
          return Broken;
        }
        var answer := ReadAndDispatch(Some(awaiting), feed[i].frame);
        if answer.Some? {
          return Answered(answer.value);
        }
      }
      return TimedOut;
    }

    method Pump(awaiting: Awaiting, feed: seq<Arrival>) returns (r: Result<Value, Failure>)
      modifies this`outstanding, this`stash, this`events
      ensures var (s, outcome) := Pumped(p, old(Now()), awaiting, feed);
              Now() == s && r == Judge(outcome)
    {
      hide TakeOrAwait, FromValue, IntoResult;
      var outcome := PumpInner(awaiting, feed);
      if awaiting.Xid? {
        Resolve(awaiting.xid);
      }
      return Judge(outcome);
    }

    /** Issue an XID, write the request (`sent` says whether that worked) and await its answer. */
    method ExchangeOpack(entries: seq<(Value, Value)>, sent: bool, feed: seq<Arrival>)
      returns (r: Result<Value, Failure>, outgoing: seq<(Value, Value)>)
      modifies this
      ensures (Now(), r) == Exchanged(p, old(Now()), sent, feed)
      ensures outgoing == RequestEntries(entries, old(xid))
    {
      hide Pumped, Evict, Judge;
      var x := NextXid();
      Issue(x);
      outgoing := RequestEntries(entries, x);
      if !sent {
        return Err(NotSent), outgoing;
      }
      r := Pump(Xid(x), feed);
    }

    /** Send a pairing frame (`sent` says whether that worked) and await the answer to its type. */
    method ExchangeAuth(frameType: FrameType, entries: seq<(Value, Value)>, sent: bool, feed: seq<Arrival>)
      returns (r: Result<Value, Failure>, outgoing: seq<(Value, Value)>)
      modifies this
      ensures (Now(), r) == AuthExchanged(p, old(Now()), frameType, entries, sent, feed)
      ensures outgoing == Stamped(old(Now()), entries).1
    {
      hide Pumped, Judge;
      outgoing := entries;
      if Lookup(entries, KeyXid()).None? {
        var x := NextXid();
        outgoing := entries + [(Str(KeyXid()), Uint(x))];
      }
      if !sent {
        return Err(NotSent), outgoing;
      }
      r := Pump(Auth(frameType.ResponseType()), feed);
    }
  }
}
