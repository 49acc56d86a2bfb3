/**
 What every Companion message means to its reader, key by key.

 The keys are spelled out and each verdict of the driver is characterised by the type byte of the
 frame and by what stands under the keys, for messages with an error as for those without.
 */
module CompanionVerdicts {
  import opened Bytes
  import opened CompanionAnswers
  import opened CompanionCodec
  import opened CompanionFrame
  import opened CompanionMessage
  import opened CompanionOutstanding
  import opened CompanionProtocol
  import opened CompanionRuns
  import opened CompanionWire
  import opened OpackDe
  import opened OpackValue
  import opened Wrappers

  // ----- Keys --------------------------------------------------------------------------------

  /** The bytes of a text of ASCII characters. */
  function Ascii(s: string): Blob
    requires |s| < 0x1_0000
  {
    seq(|s|, i requires 0 <= i < |s| => if s[i] < 128 as char then s[i] as int else 63)
  }

  lemma KeysAre()
    ensures KeyIdentifier() == Ascii("_i") && KeyType() == Ascii("_t") && KeyXid() == Ascii("_x") && KeyContent() == Ascii("_c")
    ensures KeyErrorMessage() == Ascii("_em") && KeyErrorCode() == Ascii("_ec") && KeyErrorDomain() == Ascii("_ed")
  {
  }

  /** The dictionary of an envelope: identifier, type, content and XID, in this order; no error. */
  lemma EnvelopeIsWritten(e: Envelope)
    ensures ToValue(e)
         == Dict((if e.identifier.Some? then [(Str(Ascii("_i")), Str(e.identifier.value))] else [])
                 + (match e.messageType
                    case None => []
                    case Some(Event) => [(Str(Ascii("_t")), Uint(1))]
                    case Some(Request) => [(Str(Ascii("_t")), Uint(2))]
                    case Some(Response) => [(Str(Ascii("_t")), Uint(3))])
                 + [(Str(Ascii("_c")), e.content)]
                 + (if e.xid.Some? then [(Str(Ascii("_x")), Uint(e.xid.value))] else []))
  {
    KeysAre();
  }

  // ----- Reading -------------------------------------------------------------------------------

  /** What stands first under a key. */
  function Under(v: Value, key: string): Option<Value>
    requires |key| < 0x1_0000
  {
    if v.Dict? then Lookup(v.entries, Ascii(key)) else None
  }

  function TextUnder(v: Value, key: string): Option<Blob>
    requires |key| < 0x1_0000
  {
    match Under(v, key)
    case Some(Str(text)) => Some(text)
    case _ => None
  }

  /** Whole numbers of any width count alike. */
  function NumberUnder(v: Value, key: string): Option<u64>
    requires |key| < 0x1_0000
  {
    match Under(v, key)
    case Some(Uint(n)) => Some(n)
    case Some(SizedUint(n, _)) => Some(n)
    case _ => None
  }

  /** The error a dictionary reports: one with a message, whatever the message is. */
  function ErrorIn(v: Value): Option<CommandError> {
    match Under(v, "_em")
    case None => None
    case Some(Str(text)) => Some(CommandError(Text(text), NumberUnder(v, "_ec"), TextUnder(v, "_ed")))
    case Some(other) => Some(CommandError(Rendered(other), NumberUnder(v, "_ec"), TextUnder(v, "_ed")))
  }

  lemma FieldsAre(v: Value)
    ensures Get(v, KeyIdentifier()) == Under(v, "_i") && Get(v, KeyType()) == Under(v, "_t") && Get(v, KeyXid()) == Under(v, "_x")
    ensures Get(v, KeyContent()) == Under(v, "_c") && Get(v, KeyErrorMessage()) == Under(v, "_em")
    ensures Get(v, KeyErrorCode()) == Under(v, "_ec") && Get(v, KeyErrorDomain()) == Under(v, "_ed")
  {
    hide Lookup, Ascii;
    KeysAre();
  }

  /** What is read from a value, field by field. */
  lemma EnvelopeIsRead(v: Value)
    ensures v.Dict? <==> FromValue(v).Ok?
    ensures !v.Dict? ==> FromValue(v) == Err(NotADict)
    ensures v.Dict? ==>
              var e := FromValue(v).value;
              && e.identifier == TextUnder(v, "_i")
              && (e.messageType == Some(Event) <==> NumberUnder(v, "_t") == Some(1))
              && (e.messageType == Some(Request) <==> NumberUnder(v, "_t") == Some(2))
              && (e.messageType == Some(Response) <==> NumberUnder(v, "_t") == Some(3))
              && e.xid == (if NumberUnder(v, "_x").Some? && NumberUnder(v, "_x").value < 0x1_0000_0000
                           then Some(NumberUnder(v, "_x").value) else None)
              && e.content == (if Under(v, "_c").Some? then Under(v, "_c").value else Dict([]))
              && e.error == ErrorIn(v)
  {
    hide Lookup, Ascii, Get, Under;
    hide KeyIdentifier, KeyType, KeyXid, KeyContent, KeyErrorMessage, KeyErrorCode, KeyErrorDomain;
    FieldsAre(v);
  }

  // ----- Verdicts --------------------------------------------------------------------------------

  /** The value of a frame whose type byte is between `low` and `high`, decoded under the default budget. */
  ghost predicate Carries(p: Params, f: Frame, low: nat, high: nat, v: Value) {
    && low <= f.frameType.ToByte() <= high
    && exists n :: UnpackWith(p.(budget := DefaultBudget(|f.payload|)), f.payload) == Ok((v, n))
  }

  /** A message of this type: 1 for an event, 3 for a response. */
  predicate IsMessage(v: Value, code: u64) {
    v.Dict? && NumberUnder(v, "_t") == Some(code)
  }

  predicate HasNumber(v: Value, x: u32) {
    NumberUnder(v, "_x") == Some(x)
  }

  lemma CarriesDecoded(p: Params, f: Frame, v: Value)
    ensures Decoded(p, f) == Some(v) <==> Carries(p, f, 3, 9, v)
    ensures Carries(p, f, 3, 6, v) <==> Decoded(p, f) == Some(v) && f.frameType.IsAuth()
    ensures Carries(p, f, 7, 9, v) <==> Decoded(p, f) == Some(v) && f.frameType.IsOpack()
  {
    hide UnpackWith, FrameType.ToByte, FrameType.IsAuth, FrameType.IsOpack, DefaultBudget;
    TypeGroups(f.frameType);
    var r := UnpackWith(p.(budget := DefaultBudget(|f.payload|)), f.payload);
    if r.Ok? && r.value.0 == v {
      assert r == Ok((v, r.value.1));
    }
  }

  /** A pairing frame goes to whoever awaits its type; a response, error or not, to whoever awaits its XID. */
  ghost predicate BelongsTo(p: Params, f: Frame, awaiting: Option<Awaiting>, v: Value) {
    || (Carries(p, f, 3, 6, v) && awaiting == Some(Auth(f.frameType)))
    || (Carries(p, f, 7, 9, v) && IsMessage(v, 3) && awaiting.Some? && awaiting.value.Xid? && HasNumber(v, awaiting.value.xid))
  }

  /** A response that goes to nobody now, but whose XID is outstanding. */
  ghost predicate WaitsFor(p: Params, f: Frame, awaiting: Option<Awaiting>, outstanding: seq<u32>, x: u32, v: Value) {
    Carries(p, f, 7, 9, v) && IsMessage(v, 3) && HasNumber(v, x) && awaiting != Some(Xid(x)) && x in outstanding
  }

  ghost predicate Announces(p: Params, f: Frame, event: CompanionEvent) {
    exists v :: AnnouncedBy(p, f, event, v)
  }

  ghost predicate AnnouncedBy(p: Params, f: Frame, event: CompanionEvent, v: Value) {
    && Carries(p, f, 7, 9, v) && IsMessage(v, 1) && TextUnder(v, "_i") == Some(event.name)
    && event.content == if Under(v, "_c").Some? then Under(v, "_c").value else Dict([])
  }

  /** The verdict on a message that carries a value. */
  lemma MessageVerdict(p: Params, outstanding: seq<u32>, awaiting: Option<Awaiting>, f: Frame, v: Value)
    requires Decoded(p, f) == Some(v) && f.frameType.IsOpack()
    ensures Classify(p, outstanding, awaiting, f)
         == if IsMessage(v, 1) && TextUnder(v, "_i").Some? then
              Publish(CompanionEvent(TextUnder(v, "_i").value, if Under(v, "_c").Some? then Under(v, "_c").value else Dict([])))
            else if IsMessage(v, 3) && NumberUnder(v, "_x").Some? && NumberUnder(v, "_x").value < 0x1_0000_0000 then
              var x := NumberUnder(v, "_x").value;
              if awaiting == Some(Xid(x)) then Hand(v) else if x in outstanding then Keep(x, v) else Drop
            else Drop
  {
    hide FromValue, Decoded, Under, TextUnder, NumberUnder, ErrorIn;
    assert !f.frameType.IsAuth();
    EnvelopeIsRead(v);
  }

  /**
   For every frame, whoever waits: who gets it, under which XID it is kept, which event it is, by
   its type byte and its keys alone; and it is dropped exactly if it is none of these.
   */
  lemma VerdictIff(p: Params, outstanding: seq<u32>, awaiting: Option<Awaiting>, f: Frame, v: Value, x: u32, event: CompanionEvent)
    ensures var verdict := Classify(p, outstanding, awaiting, f);
            && (verdict == Hand(v) <==> BelongsTo(p, f, awaiting, v))
            && (verdict == Keep(x, v) <==> WaitsFor(p, f, awaiting, outstanding, x, v))
            && (verdict == Publish(event) <==> Announces(p, f, event))
  {
    hide Under, TextUnder, NumberUnder, Carries;
    CarriesDecoded(p, f, v);
    var decoded := Decoded(p, f);
    if decoded.Some? {
      CarriesDecoded(p, f, decoded.value);
      if f.frameType.IsOpack() {
        MessageVerdict(p, outstanding, awaiting, f, decoded.value);
        if Classify(p, outstanding, awaiting, f) == Publish(event) {
          assert AnnouncedBy(p, f, event, decoded.value);
        }
      }
    }
    forall w | AnnouncedBy(p, f, event, w)
      ensures Classify(p, outstanding, awaiting, f) == Publish(event)
    {
      CarriesDecoded(p, f, w);
    }
  }

  // ----- Exchanges -----------------------------------------------------------------------------------

  /** What an answer comes to: itself, or the refusal it carries, or the news that it is no dictionary. */
  function Outcome(v: Value): Result<Value, Failure> {
    if !v.Dict? then Err(Refused(NotADict))
    else if ErrorIn(v).Some? then Err(Refused(Rejected(TextUnder(v, "_i"), ErrorIn(v).value)))
    else Ok(v)
  }

  lemma AnswerIsJudged(v: Value)
    ensures Judge(Answered(v)) == Outcome(v)
  {
    hide FromValue, ErrorIn, TextUnder;
    EnvelopeIsRead(v);
  }

  /** The wait of an exchange ends with the first frame that belongs to it. */
  lemma {:induction false} WaitEnds(p: Params, s: Core, awaiting: Awaiting, before: seq<Frame>, f: Frame, v: Value, after: seq<Arrival>)
    returns (t: Core)
    requires NotAwaited(p, s.outstanding, awaiting, before) && BelongsTo(p, f, Some(awaiting), v)
    ensures Await(p, s, awaiting, Arrivals(before) + ([Got(f)] + after)) == (t, Answered(v))
    ensures t.outstanding == s.outstanding && t.events == s.events + EventsOf(p, before)
  {
    hide NotAwaited, BelongsTo, EventsOf, Classify;
    t := WaitGoesOn(p, s, awaiting, before, [Got(f)] + after);
    VerdictIff(p, t.outstanding, Some(awaiting), f, v, 0, CompanionEvent([], v));
    assert ([Got(f)] + after)[0] == Got(f);
  }

  /**
   An exchange that was sent ends with the first response under its XID. One without an error
   message is returned as it is; one with a message fails the exchange with what it reports. In
   both cases what came before is published if it is an event, and the XID is forgotten.
   */
  lemma {:induction false} ResponseEndsExchange(p: Params, s: Core, before: seq<Frame>, f: Frame, v: Value, after: seq<Arrival>)
    requires Carries(p, f, 7, 9, v) && IsMessage(v, 3) && HasNumber(v, s.xid)
    requires var begun := IssueXid(s.(xid := WrappingAdd(s.xid, 1)), s.xid);
             s.xid !in begun.stash && NotAwaited(p, begun.outstanding, Xid(s.xid), before)
    ensures var (t, result) := Exchanged(p, s, true, Arrivals(before) + ([Got(f)] + after));
            && result == Outcome(v)
            && t.events == s.events + EventsOf(p, before)
            && s.xid !in t.outstanding && s.xid !in t.stash
  {
    var next := s.(xid := WrappingAdd(s.xid, 1));
    var begun, feed := IssueXid(next, s.xid), Arrivals(before) + ([Got(f)] + after);
    assert BelongsTo(p, f, Some(Xid(s.xid)), v);
    IssueKeepsEvents(next, s.xid);
    AnswerIsJudged(v);
    hide IssueXid, Await, Judge, NotAwaited, BelongsTo, EventsOf, Outcome, Without, Carries, IsMessage, HasNumber;
    var t := WaitEnds(p, begun, Xid(s.xid), before, f, v, after);
    assert TakeOrAwait(p, begun, Xid(s.xid), feed) == (t, Answered(v));
  }

  /** Without an answer, a wait ends when the connection is lost or, if nothing more comes, by its deadline. */
  lemma {:induction false} WaitUnanswered(p: Params, s: Core, awaiting: Awaiting, frames: seq<Frame>, after: seq<Arrival>) returns (t: Core)
    requires NotAwaited(p, s.outstanding, awaiting, frames)
    ensures Await(p, s, awaiting, Arrivals(frames) + ([Lost] + after)) == (t, Broken)
    ensures Await(p, s, awaiting, Arrivals(frames)) == (t, TimedOut)
    ensures t.outstanding == s.outstanding && t.events == s.events + EventsOf(p, frames)
    decreases |frames|
  {
    hide NotAwaited, EventsOf, Classify, Dispatch;
    t := WaitGoesOn(p, s, awaiting, frames, [Lost] + after);
    assert ([Lost] + after)[0] == Lost;
  }

  /**
   An exchange that gets no answer fails for the lost connection or for its deadline, and one whose
   answer is stashed already returns that and reads nothing; the XID is forgotten in every case.
   */
  lemma {:induction false} ExchangeUnanswered(p: Params, s: Core, frames: seq<Frame>, after: seq<Arrival>)
    requires NotAwaited(p, IssueXid(s.(xid := WrappingAdd(s.xid, 1)), s.xid).outstanding, Xid(s.xid), frames)
    ensures var begun := IssueXid(s.(xid := WrappingAdd(s.xid, 1)), s.xid);
            var lost, late := Exchanged(p, s, true, Arrivals(frames) + ([Lost] + after)), Exchanged(p, s, true, Arrivals(frames));
            && s.xid !in lost.0.outstanding && s.xid !in late.0.outstanding
            && s.xid !in lost.0.stash && s.xid !in late.0.stash
            && if s.xid in begun.stash then lost == late && lost.1 == Outcome(begun.stash[s.xid]) && lost.0.events == s.events
               else lost.1 == Err(NoAnswer(Broken)) && late.1 == Err(NoAnswer(TimedOut))
                    && lost.0.events == late.0.events == s.events + EventsOf(p, frames)
  {
    var next := s.(xid := WrappingAdd(s.xid, 1));
    var begun := IssueXid(next, s.xid);
    IssueKeepsEvents(next, s.xid);
    if s.xid in begun.stash {
      AnswerIsJudged(begun.stash[s.xid]);
    }
    hide IssueXid, Await, NotAwaited, EventsOf, Outcome, Without, FromValue;
    var t := WaitUnanswered(p, begun, Xid(s.xid), frames, after);
  }

  /**
   A pairing exchange ends with the first pairing frame of the type that answers its own: 4 for 3,
   6 for 5, and the same otherwise. The XIDs and what is outstanding do not matter and, but for a
   stamp, do not change.
   */
  lemma {:induction false} AuthFrameEndsExchange(p: Params, s: Core, frameType: FrameType, entries: seq<(Value, Value)>,
                                                 before: seq<Frame>, f: Frame, v: Value, after: seq<Arrival>)
    requires Carries(p, f, 3, 6, v)
    requires f.frameType.ToByte() == frameType.ToByte() + if frameType.ToByte() == 3 || frameType.ToByte() == 5 then 1 else 0
    requires NotAwaited(p, s.outstanding, Auth(f.frameType), before)
    ensures var (t, result) := AuthExchanged(p, s, frameType, entries, true, Arrivals(before) + ([Got(f)] + after));
            && result == Outcome(v)
            && t.events == s.events + EventsOf(p, before) && t.outstanding == s.outstanding
            && (NumberOfXids(entries) == 0 ==> t.xid == (s.xid + 1) % 0x1_0000_0000)
            && (NumberOfXids(entries) > 0 ==> t.xid == s.xid)
  {
    SameByteSameType(f.frameType, frameType);
    XidsCounted(entries);
    var begun, feed := Stamped(s, entries).0, Arrivals(before) + ([Got(f)] + after);
    assert BelongsTo(p, f, Some(Auth(f.frameType)), v);
    AnswerIsJudged(v);
    AwaitKeepsXid(p, begun, Auth(f.frameType), feed);
    hide Await, Judge, NotAwaited, BelongsTo, EventsOf, Outcome, Carries, NumberOfXids, Lookup, FrameType.ToByte, FrameType.ResponseType;
    var t := WaitEnds(p, begun, Auth(f.frameType), before, f, v, after);
    assert TakeOrAwait(p, begun, Auth(f.frameType), feed) == (t, Answered(v));
  }

  lemma SameByteSameType(t: FrameType, asked: FrameType)
    requires t.ToByte() == asked.ToByte() + if asked.ToByte() == 3 || asked.ToByte() == 5 then 1 else 0
    ensures asked.ResponseType() == t
  {
    TypeGroups(asked);
    TypeByteRoundTrip(t, t.ToByte());
    TypeByteRoundTrip(asked.ResponseType(), t.ToByte());
  }

  /** How many entries stand under `_x`. */
  function NumberOfXids(entries: seq<(Value, Value)>): nat {
    if entries == [] then 0 else NumberOfXids(entries[1..]) + if entries[0].0 == Str(Ascii("_x")) then 1 else 0
  }

  lemma {:induction false} XidsCounted(entries: seq<(Value, Value)>)
    ensures NumberOfXids(entries) > 0 <==> Lookup(entries, KeyXid()).Some?
    decreases |entries|
  {
    KeysAre();
    hide Ascii, KeyXid;
    if entries == [] {
    } else {
      XidsCounted(entries[1..]);
    }
  }

  /** A dictionary without what stands under `_x`, entry by entry. */
  function WithoutXid(entries: seq<(Value, Value)>): seq<(Value, Value)> {
    if entries == [] then []
    else
      var last := entries[|entries| - 1];
      WithoutXid(entries[..|entries| - 1]) + if last.0 == Str(Ascii("_x")) then [] else [last]
  }

  /** A request goes out as the caller's entries in order, less any `_x`, and the issued one behind them. */
  lemma {:induction false} RequestIsWritten(entries: seq<(Value, Value)>, xid: u32)
    ensures RequestEntries(entries, xid) == WithoutXid(entries) + [(Str(Ascii("_x")), Uint(xid))]
  {
    KeysAre();
    DroppedIsWithout(entries);
  }

  lemma {:induction false} DroppedIsWithout(entries: seq<(Value, Value)>)
    ensures DropXid(entries) == WithoutXid(entries)
    decreases |entries|
  {
    if entries == [] {
    } else {
      var front, last := entries[..|entries| - 1], entries[|entries| - 1];
      DroppedIsWithout(front);
      DropLast(front, last);
      assert entries == front + [last];
      KeysAre();
    }
  }

  lemma {:induction false} DropLast(front: seq<(Value, Value)>, last: (Value, Value))
    ensures DropXid(front + [last]) == DropXid(front) + if IsXidKey(last) then [] else [last]
    decreases |front|
  {
    hide IsXidKey;
    if front == [] {
      assert front + [last] == [last] && [last][1..] == [];
    } else {
      assert (front + [last])[0] == front[0] && (front + [last])[1..] == front[1..] + [last];
      DropLast(front[1..], last);
    }
  }

  /** A pairing message goes out as it is if it has an `_x`, and with the next one behind it otherwise. */
  lemma {:induction false} StampIsWritten(s: Core, entries: seq<(Value, Value)>)
    ensures Stamped(s, entries).1
         == entries + if NumberOfXids(entries) > 0 then [] else [(Str(Ascii("_x")), Uint(s.xid))]
    ensures Stamped(s, entries).0 == s.(xid := if NumberOfXids(entries) > 0 then s.xid else (s.xid + 1) % 0x1_0000_0000)
  {
    KeysAre();
    XidsCounted(entries);
    hide Lookup, NumberOfXids;
  }
}
