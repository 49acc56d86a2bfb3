/**
 What a DAAP request does, read off its trace.

 Which event may follow which, and what the call returns, are said of the trace alone, with the
 status codes written out; the requester is shown to leave no other traces and to return nothing
 else.
 */
module DaapTraces {
  import opened Bytes
  import opened Daap
  import opened Wrappers

  // ----- What may follow what -----------------------------------------------------------------

  predicate Accepts(reply: Reply) {
    reply.Status? && 200 <= reply.code <= 299
  }

  /** An answer other than 2xx and 500. */
  predicate Rejects(reply: Reply) {
    reply.Status? && !Accepts(reply) && reply.code != 500
  }

  /**
   A request is followed by its answer, an own one perhaps by news of another id first. A rejected
   own request is followed by a re-login, a rejected login by another one, an accepted login by
   the id read from its body. A re-login asked for with one id in force sends a login while that is
   so and goes on with the new id otherwise.
   */
  predicate MayFollow(readId: Blob -> Option<u64>, e: Event, f: Event) {
    match e
    case Sent(own, _) => (f.Got? && f.own == own) || (own && f.Moved?)
    case Got(true, reply) => Rejects(reply) && f.Relogin?
    case Got(false, reply) =>
      if Accepts(reply) then f.Stored? && readId(reply.body) == Some(f.id) else Rejects(reply) && f.Sent? && !f.own
    case Relogin(stale) => f == Sent(false, stale) || f.Moved?
    case Stored(id) => f == Sent(true, id)
    case Moved(id) => (f.Got? && f.own) || (f.Sent? && f.session == id)
  }

  ghost predicate Orderly(readId: Blob -> Option<u64>, log: seq<Event>) {
    forall i :: 0 <= i < |log| - 1 ==> MayFollow(readId, log[i], log[i + 1])
  }

  /** `e` may come next. */
  predicate Admits(readId: Blob -> Option<u64>, log: seq<Event>, e: Event) {
    log == [] || MayFollow(readId, log[|log| - 1], e)
  }

  /** The status of the last answer to an own request. */
  function LastOwn(log: seq<Event>): nat {
    if log == [] then 0
    else
      var e := log[|log| - 1];
      if e.Got? && e.own && e.reply.Status? then e.reply.code else LastOwn(log[..|log| - 1])
  }

  /** What a call that has left this trace returns. */
  function Verdict(readId: Blob -> Option<u64>, log: seq<Event>): Result<Blob, Failure> {
    if log == [] then Err(Unfinished)
    else
      match log[|log| - 1]
      case Sent(_, _) => Err(Unfinished)
      case Relogin(_) => Err(Unfinished)
      case Got(own, reply) =>
        if reply.NoReply? then Err(NoAnswer)
        else if reply.code == 500 then Err(NotSupported)
        else if Accepts(reply) then (if own then Ok(reply.body) else Err(Malformed))
        else Err(Authentication(reply.code))
      case Stored(_) => Err(Authentication(LastOwn(log)))
      case Moved(_) => Err(Authentication(LastOwn(log)))
  }

  lemma NoteOrderly(readId: Blob -> Option<u64>, log: seq<Event>, e: Event)
    requires Orderly(readId, log) && Admits(readId, log, e)
    ensures Orderly(readId, log + [e]) && (log + [e])[|log + [e]| - 1] == e
    ensures LastOwn(log + [e]) == if e.Got? && e.own && e.reply.Status? then e.reply.code else LastOwn(log)
  {
    assert (log + [e])[..|log|] == log;
  }

  // ----- The requester's traces -----------------------------------------------------------------

  lemma AttemptOrderly(readId: Blob -> Option<u64>, s: State, own: bool)
    requires Orderly(readId, s.log) && Admits(readId, s.log, Sent(own, s.session))
    ensures var (t, reply) := Attempt(s, own);
            && Orderly(readId, t.log) && t.log != [] && (!own && reply.Some? ==> |t.log| == |s.log| + 2)
            && (reply.None? ==> Last(t).Sent?)
            && (reply.Some? ==> Last(t) == Got(own, reply.value))
            && LastOwn(t.log) == if own && reply.Some? && reply.value.Status? then reply.value.code else LastOwn(s.log)
  {
    hide Orderly, LastOwn;
    var e := Sent(own, s.session);
    NoteOrderly(readId, s.log, e);
    if s.turns != [] {
      var turn := s.turns[0];
      var sent := s.Note(e);
      if own && turn.moved.Some? {
        NoteOrderly(readId, sent.log, Moved(turn.moved.value));
        NoteOrderly(readId, sent.log + [Moved(turn.moved.value)], Got(own, turn.reply));
      } else {
        NoteOrderly(readId, sent.log, Got(own, turn.reply));
      }
    }
  }

  /** A login ends with the id it stored or with an answer that says why not; it gives up only when rejected twice. */
  lemma {:induction false} LoginOrderly(readId: Blob -> Option<u64>, s: State, retry: bool)
    requires Orderly(readId, s.log) && Admits(readId, s.log, Sent(false, s.session))
    ensures var (t, r) := LoginFrom(readId, s, retry);
            && Orderly(readId, t.log) && t.log != [] && LastOwn(t.log) == LastOwn(s.log)
            && (r.Ok? ==> Last(t) == Stored(r.value) && t.session == r.value)
            && (r.Err? ==> Verdict(readId, t.log) == Err(r.error))
            && (r.Err? && r.error.Authentication? ==> |t.log| == |s.log| + if retry then 4 else 2)
    decreases retry
  {
    hide Orderly, LastOwn, Attempt;
    AttemptOrderly(readId, s, false);
    var (s1, reply) := Attempt(s, false);
    if reply.Some? && Accepts(reply.value) && readId(reply.value.body).Some? {
      NoteOrderly(readId, s1.log, Stored(readId(reply.value.body).value));
    } else if reply.Some? && Rejects(reply.value) && retry {
      LoginOrderly(readId, s1, false);
    }
  }

  lemma ReloginOrderly(readId: Blob -> Option<u64>, s: State)
    requires Orderly(readId, s.log) && Admits(readId, s.log, Relogin(s.session))
    ensures var (t, r) := ReloginFrom(readId, s);
            && Orderly(readId, t.log) && t.log != [] && LastOwn(t.log) == LastOwn(s.log)
            && (r.Ok? ==> Last(t) == Stored(t.session) || Last(t) == Moved(t.session))
            && (r.Err? ==> Verdict(readId, t.log) == Err(r.error))
  {
    hide Orderly, LastOwn, LoginFrom;
    var stale := s.session;
    var asked := s.Note(Relogin(stale));
    NoteOrderly(readId, s.log, Relogin(stale));
    if s.locks != [] {
      var s1 := Meanwhile(asked, s.locks[0]).(locks := s.locks[1..]);
      if s.locks[0].Some? {
        NoteOrderly(readId, asked.log, Moved(s.locks[0].value));
      }
      if s1.session == stale {
        LoginOrderly(readId, s1, true);
        var (s2, r) := LoginFrom(readId, s1, true);
        assert ReloginFrom(readId, s).0 == s2 && (r.Err? ==> ReloginFrom(readId, s).1 == Err(r.error));
      } else {
        assert ReloginFrom(readId, s).1.Ok?;
      }
    }
  }

  lemma {:induction false} PerformOrderly(readId: Blob -> Option<u64>, s: State, retry: bool)
    requires Orderly(readId, s.log) && Admits(readId, s.log, Sent(true, s.session))
    ensures var (t, r) := PerformFrom(readId, s, retry);
            && Orderly(readId, t.log) && t.log != [] && r == Verdict(readId, t.log)
            && !(Last(t).Got? && Last(t).own && Rejects(Last(t).reply))
    decreases retry
  {
    hide Orderly, LastOwn, Attempt, ReloginFrom;
    AttemptOrderly(readId, s, true);
    var (s1, reply) := Attempt(s, true);
    if reply.Some? && Rejects(reply.value) {
      ReloginOrderly(readId, s1);
      ReloginIsSeen(readId, s1);
      var (s2, r) := ReloginFrom(readId, s1);
      if r.Ok? && retry {
        PerformOrderly(readId, s2, false);
      }
    }
  }

  /**
   Whatever the device answers and the others do: the trace of a request is orderly, a rejected own
   request is never the last thing in it, and what is returned is what the trace says.
   */
  lemma GetIsOrderly(readId: Blob -> Option<u64>, session: u64, locks: seq<Option<u64>>, turns: seq<Turn>)
    ensures var (t, r) := GetFrom(readId, Fresh(session, locks, turns));
            && Orderly(readId, t.log) && r == Verdict(readId, t.log)
            && (t.log != [] ==> !(Last(t).Got? && Last(t).own && Rejects(Last(t).reply)))
            && (session == 0 && t.log != [] && !t.log[0].Moved? ==> t.log[0] == Sent(false, 0))
            && (session != 0 ==> t.log != [] && t.log[0] == Sent(true, session))
  {
    hide LastOwn, LoginFrom, PerformFrom;
    var s := Fresh(session, locks, turns);
    assert Orderly(readId, []);
    if session != NO_SESSION {
      PerformOrderly(readId, s, true);
      PerformFirst(readId, s, true);
    } else if locks != [] {
      var s1 := Meanwhile(s, locks[0]).(locks := locks[1..]);
      LoginOrderly(readId, s1, true);
      LoginIsSeen(readId, s1, true);
      LoginFirst(readId, s1, true);
      var (s2, r) := LoginFrom(readId, s1, true);
      if r.Ok? {
        PerformOrderly(readId, s2, true);
        PerformFirst(readId, s2, true);
      }
    }
  }

  lemma {:induction false} LoginFirst(readId: Blob -> Option<u64>, s: State, retry: bool)
    ensures s.log + [Sent(false, s.session)] <= LoginFrom(readId, s, retry).0.log
    decreases retry
  {
    if retry {
      LoginFirst(readId, Attempt(s, false).0, false);
    } else {
    }
  }

  lemma {:induction false} PerformFirst(readId: Blob -> Option<u64>, s: State, retry: bool)
    ensures s.log + [Sent(true, s.session)] <= PerformFrom(readId, s, retry).0.log
    decreases retry
  {
    var (s1, reply) := Attempt(s, true);
    ReloginFirst(readId, s1);
    hide ReloginFrom;
    if retry {
      PerformFirst(readId, ReloginFrom(readId, s1).0, false);
    } else {
    }
  }

  lemma ReloginFirst(readId: Blob -> Option<u64>, s: State)
    ensures s.log <= ReloginFrom(readId, s).0.log
  {
    hide LoginFrom;
    if s.locks != [] {
      LoginFirst(readId, Meanwhile(s.Note(Relogin(s.session)), s.locks[0]).(locks := s.locks[1..]), true);
    }
  }
}
