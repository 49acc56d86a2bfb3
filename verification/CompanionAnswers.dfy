/** An exchange whose answer arrives returns it, whatever else arrives before and after. */
module CompanionAnswers {
  import opened Bytes
  import opened CompanionCodec
  import opened CompanionDelivery
  import opened CompanionEndToEnd
  import opened CompanionMessage
  import opened CompanionOutstanding
  import opened CompanionProtocol
  import opened CompanionRuns
  import opened OpackDe
  import opened OpackTables
  import opened OpackValue
  import opened Wrappers

  function Arrivals(frames: seq<Frame>): (feed: seq<Arrival>)
    ensures |feed| == |frames|
  {
    if frames == [] then [] else [Got(frames[0])] + Arrivals(frames[1..])
  }

  /** None of these frames is what the exchange waits for. */
  ghost predicate NotAwaited(p: Params, outstanding: seq<u32>, awaiting: Awaiting, frames: seq<Frame>) {
    forall i :: 0 <= i < |frames| ==> !Classify(p, outstanding, Some(awaiting), frames[i]).Hand?
  }

  lemma {:induction false} EventsOfCons(p: Params, f: Frame, rest: seq<Frame>)
    ensures EventsOf(p, [f] + rest) == EventOf(p, f) + EventsOf(p, rest)
    decreases |rest|
  {
    hide EventOf;
    if rest == [] {
      assert [f] + rest == [] + [f];
      EventsOfAppend(p, [], f);
      assert EventOf(p, f) + [] == EventOf(p, f) == [] + EventOf(p, f);
    } else {
      var front, last := rest[..|rest| - 1], rest[|rest| - 1];
      assert [f] + rest == ([f] + front) + [last] && rest == front + [last];
      EventsOfAppend(p, [f] + front, last);
      EventsOfAppend(p, front, last);
      EventsOfCons(p, f, front);
      assert EventOf(p, f) + EventsOf(p, front) + EventOf(p, last) == EventOf(p, f) + (EventsOf(p, front) + EventOf(p, last));
    }
  }

  /** A frame that is not awaited ends no wait and publishes exactly its event. */
  lemma PassedOver(p: Params, s: Core, awaiting: Awaiting, f: Frame)
    requires !Classify(p, s.outstanding, Some(awaiting), f).Hand?
    ensures var (t, answer) := Dispatch(p, s, Some(awaiting), f);
            && answer.None? && t.outstanding == s.outstanding && t.events == s.events + EventOf(p, f)
  {
    VerdictMeans(p, s.outstanding, Some(awaiting), f);
    hide Classify, EventOf;
    assert s.events + [] == s.events;
  }

  lemma WaitPassesOver(p: Params, s: Core, awaiting: Awaiting, f: Frame, feed: seq<Arrival>) returns (t: Core)
    requires !Classify(p, s.outstanding, Some(awaiting), f).Hand?
    ensures Await(p, s, awaiting, [Got(f)] + feed) == Await(p, t, awaiting, feed)
    ensures t == Dispatch(p, s, Some(awaiting), f).0
    ensures t.outstanding == s.outstanding && t.events == s.events + EventOf(p, f)
  {
    PassedOver(p, s, awaiting, f);
    hide Classify, EventOf, Dispatch;
    t := Dispatch(p, s, Some(awaiting), f).0;
    var all := [Got(f)] + feed;
    assert all[0] == Got(f) && all[1..] == feed;
  }

  lemma NothingArrives(p: Params, s: Core, awaiting: Awaiting)
    ensures Await(p, s, awaiting, []) == (s, TimedOut)
  {
  }

  lemma ArrivalsCons(f: Frame, later: seq<Frame>, rest: seq<Arrival>)
    ensures Arrivals([f] + later) + rest == [Got(f)] + (Arrivals(later) + rest)
    ensures Arrivals([f] + later) == [Got(f)] + Arrivals(later)
  {
    assert ([f] + later)[0] == f && ([f] + later)[1..] == later;
  }

  lemma NothingPassed(p: Params, s: Core, rest: seq<Arrival>)
    ensures Arrivals([]) + rest == rest && Arrivals([]) == [] && s.events + EventsOf(p, []) == s.events
  {
  }

  lemma NotAwaitedLater(p: Params, outstanding: seq<u32>, awaiting: Awaiting, frames: seq<Frame>)
    requires NotAwaited(p, outstanding, awaiting, frames) && frames != []
    ensures NotAwaited(p, outstanding, awaiting, frames[1..])
    ensures !Classify(p, outstanding, Some(awaiting), frames[0]).Hand?
  {
    hide Classify;
  }

  /** Waiting goes on past frames that are not awaited, with their events published in order. */
  lemma {:induction false} WaitGoesOn(p: Params, s: Core, awaiting: Awaiting, frames: seq<Frame>, rest: seq<Arrival>) returns (t: Core)
    requires NotAwaited(p, s.outstanding, awaiting, frames)
    ensures Await(p, s, awaiting, Arrivals(frames) + rest) == Await(p, t, awaiting, rest)
    ensures Await(p, s, awaiting, Arrivals(frames)) == (t, TimedOut)
    ensures t.outstanding == s.outstanding && t.events == s.events + EventsOf(p, frames)
    decreases |frames|
  {
    hide Classify, EventOf, EventsOf, Dispatch, Await, Arrivals, NotAwaited;
    if frames == [] {
      t := s;
      NothingArrives(p, s, awaiting);
      NothingPassed(p, s, rest);
    } else {
      var f, later := frames[0], frames[1..];
      assert frames == [f] + later;
      NotAwaitedLater(p, s.outstanding, awaiting, frames);
      ArrivalsCons(f, later, rest);
      var passed := WaitPassesOver(p, s, awaiting, f, Arrivals(later) + rest);
      var again := WaitPassesOver(p, s, awaiting, f, Arrivals(later));
      t := WaitGoesOn(p, passed, awaiting, later, rest);
      EventsOfCons(p, f, later);
      assert s.events + EventOf(p, f) + EventsOf(p, later) == s.events + (EventOf(p, f) + EventsOf(p, later));
    }
  }

  /** A sendable response to the awaited XID ends the wait with its canonical dictionary. */
  lemma {:induction false} AnswerEndsWait(p: Params, s: Core, e: Envelope, x: u32, more: seq<Arrival>)
    requires SeparatesZeros(p.digest) && Sendable(p, e) && e.messageType == Some(Response) && e.xid == Some(x)
    ensures Await(p, s, Xid(x), [Got(MessageFrame(e))] + more) == (s, Answered(Canon(ToValue(e))))
  {
    var f := MessageFrame(e);
    hide Sendable, SeparatesZeros, MessageFrame, Canon, ToValue, Classify;
    MessageIsClassified(p, e, s.outstanding, Some(Xid(x)));
    assert ([Got(f)] + more)[0] == Got(f);
  }

  lemma {:induction false} AnswerIsSuccess(p: Params, e: Envelope)
    requires e.error.None?
    ensures Judge(Answered(Canon(ToValue(e)))) == Ok(Canon(ToValue(e)))
  {
    hide Canon, ToValue, FromValue;
    IsDict(e);
    EnvelopeRoundTrip(e);
    NoErrorStaysNone(ToValue(e));
  }

  lemma {:induction false} EvictKeepsEvents(s: Core)
    ensures Evict(s).events == s.events
    decreases |s.outstanding|
  {
    if |s.outstanding| < 16 {
    } else {
      EvictKeepsEvents(s.(outstanding := s.outstanding[1..], stash := s.stash - {s.outstanding[0]}));
    }
  }

  lemma IssueKeepsEvents(s: Core, x: u32)
    ensures IssueXid(s, x).events == s.events
  {
    hide Evict;
    EvictKeepsEvents(s);
  }

  /**
   An exchange that was sent returns the peer's answer in canonical form if that arrives before
   anything else it could take for one: what comes before is published if it is an event, what
   comes after is left alone, and the XID is forgotten.
   */
  lemma {:induction false} AnswerIsReturned(p: Params, s: Core, before: seq<Frame>, e: Envelope, after: seq<Arrival>)
    requires SeparatesZeros(p.digest) && Sendable(p, e) && e.messageType == Some(Response) && e.xid == Some(s.xid)
    requires var begun := IssueXid(s.(xid := WrappingAdd(s.xid, 1)), s.xid);
             s.xid !in begun.stash && NotAwaited(p, begun.outstanding, Xid(s.xid), before)
    ensures var (t, result) := Exchanged(p, s, true, Arrivals(before) + ([Got(MessageFrame(e))] + after));
            && result == Ok(Canon(ToValue(e)))
            && t.events == s.events + EventsOf(p, before)
            && s.xid !in t.outstanding
  {
    var next := s.(xid := WrappingAdd(s.xid, 1));
    var begun, tail := IssueXid(next, s.xid), [Got(MessageFrame(e))] + after;
    AnswerIsSuccess(p, e);
    ExchangeForgetsIffSent(p, s, true, Arrivals(before) + tail);
    IssueKeepsEvents(next, s.xid);
    hide IssueXid, Await, Judge, Sendable, SeparatesZeros, NotAwaited, EventsOf, MessageFrame, Canon, ToValue, Without;
    var passed := WaitGoesOn(p, begun, Xid(s.xid), before, tail);
    AnswerEndsWait(p, passed, e, s.xid, after);
  }
}
