/**
 The DAAP requester: login, implicit re-login and the one retry.

 What the device answers and what other tasks do to the shared session id while this one waits
 are scripts; a script that runs out stands for a wait that never ends. `PerformFrom` and its
 helpers say what happens, keeping a trace; the class does it with the loops of the program.
 */
module Daap {
  import opened Bytes
  import opened Wrappers

  const NO_SESSION: u64 := 0

  datatype Reply = NoReply | Status(code: nat, body: Blob)

  /** An answer, and the session id other tasks left behind while it was awaited, if they touched it. */
  datatype Turn = Turn(moved: Option<u64>, reply: Reply)

  /** A request is `own` unless it is a login, whose URL carries no session id whatever is noted here. */
  datatype Event =
    | Sent(own: bool, session: u64)
    | Got(own: bool, reply: Reply)
    | Relogin(stale: u64)
    | Stored(id: u64)
    | Moved(id: u64)

  datatype Failure = NoAnswer | Malformed | NotSupported | Authentication(code: nat) | Unfinished

  /** `locks` and `turns` are what is still to come; `log` is what has happened. */
  datatype State = State(session: u64, log: seq<Event>, locks: seq<Option<u64>>, turns: seq<Turn>) {
    function Note(e: Event): State {
      this.(log := log + [e])
    }
  }

  predicate IsSuccess(code: nat) {
    200 <= code < 300
  }

  // ----- What happens -----------------------------------------------------------------------

  function Meanwhile(s: State, moved: Option<u64>): State {
    if moved.Some? then s.Note(Moved(moved.value)).(session := moved.value) else s
  }

  /** One round trip. Nobody else stores a session id while a login is under way. */
  function Attempt(s: State, own: bool): (State, Option<Reply>) {
    var sent := s.Note(Sent(own, s.session));
    if s.turns == [] then (sent, None)
    else
      var turn := s.turns[0];
      var after := if own then Meanwhile(sent, turn.moved) else sent;
      (after.Note(Got(own, turn.reply)).(turns := s.turns[1..]), Some(turn.reply))
  }

  function LoginFrom(readId: Blob -> Option<u64>, s: State, retry: bool): (State, Result<u64, Failure>)
    decreases retry
  {
    var (s1, reply) := Attempt(s, false);
    if reply.None? then (s1, Err(Unfinished))
    else if reply.value.NoReply? then (s1, Err(NoAnswer))
    else if IsSuccess(reply.value.code) then
      match readId(reply.value.body)
      case None => (s1, Err(Malformed))
      case Some(id) => (s1.Note(Stored(id)).(session := id), Ok(id))
    else if reply.value.code == 500 then (s1, Err(NotSupported))
    else if retry then LoginFrom(readId, s1, false)
    else (s1, Err(Authentication(reply.value.code)))
  }

  /** The snapshot is taken when the login is asked for, before the lock is waited for. */
  function ReloginFrom(readId: Blob -> Option<u64>, s: State): (State, Result<(), Failure>) {
    var stale := s.session;
    var asked := s.Note(Relogin(stale));
    if s.locks == [] then (asked, Err(Unfinished))
    else
      var s1 := Meanwhile(asked, s.locks[0]).(locks := s.locks[1..]);
      if s1.session != stale then (s1, Ok(()))
      else
        var (s2, r) := LoginFrom(readId, s1, true);
        (s2, if r.Ok? then Ok(()) else Err(r.error))
  }

  function PerformFrom(readId: Blob -> Option<u64>, s: State, retry: bool): (State, Result<Blob, Failure>)
    decreases retry
  {
    var (s1, reply) := Attempt(s, true);
    if reply.None? then (s1, Err(Unfinished))
    else if reply.value.NoReply? then (s1, Err(NoAnswer))
    else if IsSuccess(reply.value.code) then (s1, Ok(reply.value.body))
    else if reply.value.code == 500 then (s1, Err(NotSupported))
    else
      var (s2, r) := ReloginFrom(readId, s1);
      if r.Err? then (s2, Err(r.error))
      else if retry then PerformFrom(readId, s2, false)
      else (s2, Err(Authentication(reply.value.code)))
  }

  // ----- What a trace says --------------------------------------------------------------------

  /** The session id in force after `log`. */
  function Current(start: u64, log: seq<Event>): u64 {
    if log == [] then start
    else
      var e := log[|log| - 1];
      if e.Stored? || e.Moved? then e.id else Current(start, log[..|log| - 1])
  }

  /** Every request carries the session id in force when it was built. */
  ghost predicate UpToDate(start: u64, log: seq<Event>) {
    forall i :: 0 <= i < |log| && log[i].Sent? ==> log[i].session == Current(start, log[..i])
  }

  /** How many requests of one kind a trace holds. */
  function Requests(log: seq<Event>, own: bool): nat {
    if log == [] then 0
    else Requests(log[..|log| - 1], own) + if log[|log| - 1].Sent? && log[|log| - 1].own == own then 1 else 0
  }

  function Relogins(log: seq<Event>): nat {
    if log == [] then 0
    else Relogins(log[..|log| - 1]) + if log[|log| - 1].Relogin? then 1 else 0
  }

  /** An answer after which nothing more is sent: none at all, a 500, or a 2xx to an own request. */
  predicate IsFinal(e: Event) {
    e.Got? && (e.reply.NoReply? || e.reply.code == 500 || (e.own && IsSuccess(e.reply.code)))
  }

  /** Nothing follows a final answer. */
  ghost predicate Stops(log: seq<Event>) {
    forall i :: 0 <= i < |log| - 1 ==> !IsFinal(log[i])
  }

  /** The trace of a state whose session id is the one in force. */
  ghost predicate Kept(start: u64, s: State) {
    UpToDate(start, s.log) && s.session == Current(start, s.log) && Stops(s.log)
  }

  /** A state in which more may be sent. */
  ghost predicate Open(s: State) {
    s.log != [] ==> !IsFinal(Last(s))
  }

  /** A final answer that is a failure is the failure returned. */
  ghost predicate Explains<T>(t: State, r: Result<T, Failure>) {
    t.log != [] && Last(t).Got? ==>
      && (Last(t).reply.NoReply? ==> r.Err? && r.error == NoAnswer)
      && (Last(t).reply.Status? && Last(t).reply.code == 500 ==> r.Err? && r.error == NotSupported)
  }

  /** A body is returned exactly when an own request was answered 2xx last, and it is that body. */
  ghost predicate BodyIsLast(t: State, r: Result<Blob, Failure>) {
    && (r.Ok? <==> t.log != [] && Last(t).Got? && Last(t).own && Last(t).reply.Status? && IsSuccess(Last(t).reply.code))
    && (r.Ok? ==> r.value == Last(t).reply.body)
  }

  function Last(s: State): Event
    requires s.log != []
  {
    s.log[|s.log| - 1]
  }

  lemma NoteCounts(log: seq<Event>, e: Event, own: bool)
    ensures Requests(log + [e], own) == Requests(log, own) + if e.Sent? && e.own == own then 1 else 0
    ensures Relogins(log + [e]) == Relogins(log) + if e.Relogin? then 1 else 0
  {
    assert (log + [e])[..|log|] == log;
  }

  lemma NoteKeeps(start: u64, s: State, e: Event, session: u64)
    requires Kept(start, s) && Open(s)
    requires e.Sent? ==> e.session == s.session
    requires session == if e.Stored? || e.Moved? then e.id else s.session
    ensures Kept(start, s.Note(e).(session := session))
  {
    var log := s.log + [e];
    assert log[..|s.log|] == s.log;
    forall i | 0 <= i < |log| && log[i].Sent?
      ensures log[i].session == Current(start, log[..i])
    {
      assert i < |s.log| ==> log[..i] == s.log[..i] && s.log[i] == log[i];
    }
    forall i | 0 <= i < |log| - 1
      ensures !IsFinal(log[i])
    {
      assert s.log[i] == log[i];
    }
  }

  lemma NoteOpens(s: State, e: Event)
    requires !IsFinal(e)
    ensures Open(s.Note(e))
  {
  }

  /** What one step of the requester adds to the trace. */
  ghost predicate Adds(s: State, t: State, own: nat, logins: nat, relogins: nat) {
    && s.log <= t.log
    && Requests(t.log, true) <= Requests(s.log, true) + own
    && Requests(t.log, false) <= Requests(s.log, false) + logins
    && Relogins(t.log) <= Relogins(s.log) + relogins
  }

  lemma NoteAdds(s: State, e: Event)
    ensures s.log <= s.log + [e]
    ensures Adds(s, s.Note(e), if e.Sent? && e.own then 1 else 0, if e.Sent? && !e.own then 1 else 0,
                 if e.Relogin? then 1 else 0)
  {
    NoteCounts(s.log, e, true);
    NoteCounts(s.log, e, false);
  }

  lemma AddsUp(s: State, t: State, u: State, a: nat, b: nat, c: nat, d: nat, e: nat, f: nat)
    requires Adds(s, t, a, b, c) && Adds(t, u, d, e, f)
    ensures Adds(s, u, a + d, b + e, c + f)
  {
  }

  lemma MeanwhileKeeps(start: u64, s: State, moved: Option<u64>)
    requires Kept(start, s) && Open(s)
    ensures Kept(start, Meanwhile(s, moved)) && Open(Meanwhile(s, moved))
    ensures Adds(s, Meanwhile(s, moved), 0, 0, 0)
  {
    hide Kept, Open;
    if moved.Some? {
      var e := Moved(moved.value);
      NoteKeeps(start, s, e, moved.value);
      NoteOpens(s, e);
      NoteAdds(s, e);
      SameTrace(s.Note(e), s.Note(e).(session := moved.value));
    }
  }

  /** Openness is about the trace alone. */
  lemma SameTrace(s: State, t: State)
    requires s.log == t.log
    ensures Open(s) == Open(t) && (forall start :: s.session == t.session ==> Kept(start, s) == Kept(start, t))
  {
  }

  lemma AttemptKeeps(start: u64, s: State, own: bool)
    requires Kept(start, s) && Open(s)
    ensures var (t, reply) := Attempt(s, own);
            && Kept(start, t) && Adds(s, t, if own then 1 else 0, if own then 0 else 1, 0)
            && t.log != []
            && (reply.Some? ==> Last(t) == Got(own, reply.value))
            && (reply.None? ==> Last(t).Sent?)
  {
    hide Kept, Open, Adds, Requests, Relogins, Current;
    var sent := s.Note(Sent(own, s.session));
    NoteKeeps(start, s, Sent(own, s.session), s.session);
    NoteOpens(s, Sent(own, s.session));
    NoteAdds(s, Sent(own, s.session));
    if s.turns != [] {
      var turn := s.turns[0];
      var after := if own then Meanwhile(sent, turn.moved) else sent;
      MeanwhileKeeps(start, sent, turn.moved);
      NoneAdded(sent);
      NoteKeeps(start, after, Got(own, turn.reply), after.session);
      NoteAdds(after, Got(own, turn.reply));
      var got := after.Note(Got(own, turn.reply));
      AddsUp(s, sent, after, if own then 1 else 0, if own then 0 else 1, 0, 0, 0, 0);
      AddsUp(s, after, got, if own then 1 else 0, if own then 0 else 1, 0, 0, 0, 0);
      SameTrace(got, got.(turns := s.turns[1..]));
      SameCounts(s, got, got.(turns := s.turns[1..]), if own then 1 else 0, if own then 0 else 1, 0);
    }
  }

  lemma NoneAdded(s: State)
    ensures Adds(s, s, 0, 0, 0)
  {
  }

  lemma SameCounts(s: State, t: State, u: State, a: nat, b: nat, c: nat)
    requires Adds(s, t, a, b, c) && t.log == u.log
    ensures Adds(s, u, a, b, c)
  {
  }

  /** A login makes at most two attempts and leaves the id it returns in force. */
  lemma {:induction false} LoginKeeps(readId: Blob -> Option<u64>, start: u64, s: State, retry: bool)
    requires Kept(start, s) && Open(s)
    ensures var (t, r) := LoginFrom(readId, s, retry);
            && Kept(start, t) && Adds(s, t, 0, if retry then 2 else 1, 0)
            && (r.Ok? ==> t.session == r.value && Open(t))
            && Explains(t, r)
    decreases retry
  {
    hide Kept, Adds, Attempt;
    var (s1, reply) := Attempt(s, false);
    AttemptKeeps(start, s, false);
    if reply.Some? && reply.value.Status? {
      if IsSuccess(reply.value.code) && readId(reply.value.body).Some? {
        var id := readId(reply.value.body).value;
        NoteKeeps(start, s1, Stored(id), id);
        NoteAdds(s1, Stored(id));
        AddsUp(s, s1, s1.Note(Stored(id)), 0, 1, 0, 0, 0, 0);
        SameCounts(s, s1.Note(Stored(id)), s1.Note(Stored(id)).(session := id), 0, 1, 0);
      } else if Refuses(reply.value.code) && retry {
        LoginKeeps(readId, start, s1, false);
        AddsUp(s, s1, LoginFrom(readId, s1, false).0, 0, 1, 0, 0, 1, 0);
      }
    }
    OneAttemptFits(s, LoginFrom(readId, s, retry).0, retry);
  }

  predicate Refuses(code: nat) {
    !IsSuccess(code) && code != 500
  }

  lemma OneAttemptFits(s: State, t: State, retry: bool)
    ensures Adds(s, t, 0, 1, 0) ==> Adds(s, t, 0, if retry then 2 else 1, 0)
  {
  }

  /** A re-login asks the device at most twice, and only if nobody else has moved the session on. */
  lemma ReloginKeeps(readId: Blob -> Option<u64>, start: u64, s: State)
    requires Kept(start, s) && Open(s)
    ensures var (t, r) := ReloginFrom(readId, s);
            && Kept(start, t) && Adds(s, t, 0, 2, 1)
            && (r.Ok? ==> Open(t)) && Explains(t, r)
            && (s.locks != [] && s.locks[0].Some? && s.locks[0].value != s.session ==> Adds(s, t, 0, 0, 1))
  {
    hide Kept, Adds, LoginFrom;
    var asked := s.Note(Relogin(s.session));
    NoteKeeps(start, s, Relogin(s.session), s.session);
    NoteAdds(s, Relogin(s.session));
    if s.locks != [] {
      var m := Meanwhile(asked, s.locks[0]);
      var s1 := m.(locks := s.locks[1..]);
      MeanwhileKeeps(start, asked, s.locks[0]);
      SameTrace(m, s1);
      AddsUp(s, asked, m, 0, 0, 1, 0, 0, 0);
      SameCounts(s, m, s1, 0, 0, 1);
      if s1.session == s.session {
        LoginKeeps(readId, start, s1, true);
        AddsUp(s, s1, LoginFrom(readId, s1, true).0, 0, 0, 1, 0, 2, 0);
      }
    }
    NoAttemptFits(s, ReloginFrom(readId, s).0);
  }

  lemma NoAttemptFits(s: State, t: State)
    ensures Adds(s, t, 0, 0, 1) ==> Adds(s, t, 0, 2, 1)
  {
  }

  lemma {:induction false} PerformKeeps(readId: Blob -> Option<u64>, start: u64, s: State, retry: bool)
    requires Kept(start, s) && Open(s)
    ensures var (t, r) := PerformFrom(readId, s, retry);
            && Kept(start, t)
            && Adds(s, t, if retry then 2 else 1, if retry then 4 else 2, if retry then 2 else 1)
            && t.log != [] && BodyIsLast(t, r) && Explains(t, r)
    decreases retry
  {
    hide Kept, Adds, Attempt, ReloginFrom, Requests, Relogins;
    var (s1, reply) := Attempt(s, true);
    AttemptKeeps(start, s, true);
    if reply.Some? && reply.value.Status? && Refuses(reply.value.code) {
      ReloginKeeps(readId, start, s1);
      var (s2, r) := ReloginFrom(readId, s1);
      ReloginIsSeen(readId, s1);
      AddsUp(s, s1, s2, 1, 0, 0, 0, 2, 1);
      if r.Ok? && retry {
        PerformKeeps(readId, start, s2, false);
        AddsUp(s, s2, PerformFrom(readId, s2, false).0, 1, 2, 1, 1, 2, 1);
      }
    }
    OneRoundFits(s, PerformFrom(readId, s, retry).0, retry);
  }

  lemma ReloginIsSeen(readId: Blob -> Option<u64>, s: State)
    ensures ReloginFrom(readId, s).0.log != [] && !(Last(ReloginFrom(readId, s).0).Got? && Last(ReloginFrom(readId, s).0).own)
    ensures ReloginFrom(readId, s).1.Ok? ==> !Last(ReloginFrom(readId, s).0).Got?
  {
    var s1 := s.Note(Relogin(s.session));
    if s.locks != [] {
      LoginIsSeen(readId, Meanwhile(s1, s.locks[0]).(locks := s.locks[1..]), true);
    }
  }

  lemma {:induction false} LoginIsSeen(readId: Blob -> Option<u64>, s: State, retry: bool)
    ensures var (t, r) := LoginFrom(readId, s, retry);
            t.log != [] && !(Last(t).Got? && Last(t).own) && (r.Ok? ==> !Last(t).Got?)
    decreases retry
  {
    if retry {
      LoginIsSeen(readId, Attempt(s, false).0, false);
    } else {
    }
  }

  /** A round that ends the call, or a refused one with its re-login, is within what two rounds may add. */
  lemma OneRoundFits(s: State, t: State, retry: bool)
    ensures Adds(s, t, 1, 0, 0) || Adds(s, t, 1, 2, 1)
       ==> Adds(s, t, if retry then 2 else 1, if retry then 4 else 2, if retry then 2 else 1)
  {
  }

  function Fresh(session: u64, locks: seq<Option<u64>>, turns: seq<Turn>): State {
    State(session, [], locks, turns)
  }

  /** What the trace of a whole call from `session` guarantees, given how many logins it may try. */
  ghost predicate Bounded(session: u64, t: State, r: Result<Blob, Failure>, logins: nat) {
    && Requests(t.log, true) <= 2 && Requests(t.log, false) <= logins && Relogins(t.log) <= 2
    && UpToDate(session, t.log) && t.session == Current(session, t.log)
    && BodyIsLast(t, r) && Stops(t.log) && Explains(t, r)
  }

  /**
   Whatever the device answers and whatever other tasks do meanwhile: at most two requests of
   its own, two re-logins and four login attempts are made; each own request carries the session
   id in force when it was built; a body is returned exactly when the last thing that happened was a
   2xx answer to an own request, and it is that body; after a missing answer or a 500, to an own
   request or to a login, nothing more is sent and that failure is returned.
   */
  lemma PerformIsBounded(readId: Blob -> Option<u64>, session: u64, locks: seq<Option<u64>>, turns: seq<Turn>)
    ensures var (t, r) := PerformFrom(readId, Fresh(session, locks, turns), true); Bounded(session, t, r, 4)
  {
    hide PerformFrom, Explains, BodyIsLast;
    PerformKeeps(readId, session, Fresh(session, locks, turns), true);
  }

  /** The first login does not look again once it has the lock. */
  function GetFrom(readId: Blob -> Option<u64>, s: State): (State, Result<Blob, Failure>) {
    if s.session != NO_SESSION then PerformFrom(readId, s, true)
    else if s.locks == [] then (s, Err(Unfinished))
    else
      var (s1, r) := LoginFrom(readId, Meanwhile(s, s.locks[0]).(locks := s.locks[1..]), true);
      if r.Err? then (s1, Err(r.error)) else PerformFrom(readId, s1, true)
  }

  /** The same for a whole request, which tries two logins more if no session has been opened. */
  lemma GetIsBounded(readId: Blob -> Option<u64>, session: u64, locks: seq<Option<u64>>, turns: seq<Turn>)
    ensures var (t, r) := GetFrom(readId, Fresh(session, locks, turns));
            Bounded(session, t, r, if session == NO_SESSION then 6 else 4)
  {
    hide PerformFrom, LoginFrom, Explains, Kept, Adds;
    var s := Fresh(session, locks, turns);
    FreshKept(session, s);
    if session != NO_SESSION {
      PerformKeeps(readId, session, s, true);
      WithinBounds(session, s, PerformFrom(readId, s, true).0, 4);
    } else if locks == [] {
      NothingDone(session, s);
    } else {
      var m := Meanwhile(s, locks[0]);
      var s0 := m.(locks := locks[1..]);
      MeanwhileKeeps(session, s, locks[0]);
      SameTrace(m, s0);
      SameCounts(s, m, s0, 0, 0, 0);
      LoginKeeps(readId, session, s0, true);
      LoginIsSeen(readId, s0, true);
      var (s1, login) := LoginFrom(readId, s0, true);
      AddsUp(s, s0, s1, 0, 0, 0, 0, 2, 0);
      if login.Ok? {
        PerformKeeps(readId, session, s1, true);
        var t := PerformFrom(readId, s1, true).0;
        AddsUp(s, s1, t, 0, 2, 0, 2, 4, 2);
        WithinBounds(session, s, t, 6);
      } else {
        NoRoundFits(s, s1);
        WithinBounds(session, s, s1, 6);
        FailureExplained(s1, login, Err(login.error));
      }
    }
  }

  lemma FreshKept(session: u64, s: State)
    requires s.log == [] && s.session == session
    ensures Kept(session, s) && Open(s)
  {
  }

  lemma NothingDone(session: u64, s: State)
    requires s.log == [] && s.session == session
    ensures Bounded(session, s, Err(Unfinished), 6)
  {
  }

  lemma NoRoundFits(s: State, t: State)
    requires Adds(s, t, 0, 2, 0)
    ensures Adds(s, t, 2, 6, 2)
  {
  }

  lemma FailureExplained(t: State, r: Result<u64, Failure>, r': Result<Blob, Failure>)
    requires Explains(t, r) && r.Err? && r'.Err? && r'.error == r.error
    ensures Explains(t, r')
  {
  }

  lemma WithinBounds(session: u64, s: State, t: State, logins: nat)
    requires s.log == [] && Kept(session, t) && Adds(s, t, 2, logins, 2)
    ensures Requests(t.log, true) <= 2 && Requests(t.log, false) <= logins && Relogins(t.log) <= 2
    ensures UpToDate(session, t.log) && t.session == Current(session, t.log) && Stops(t.log)
  {
  }

  // ----- The requester object -------------------------------------------------------------------

  class DaapRequester {
    const readId: Blob -> Option<u64>
    var sessionId: u64
    var log: seq<Event>
    var locks: seq<Option<u64>>
    var turns: seq<Turn>

    function Now(): State
      reads this
    {
      State(sessionId, log, locks, turns)
    }

    constructor (readId: Blob -> Option<u64>, locks: seq<Option<u64>>, turns: seq<Turn>)
      ensures this.readId == readId && Now() == Fresh(NO_SESSION, locks, turns)
    {
      this.readId, this.locks, this.turns := readId, locks, turns;
      sessionId, log := NO_SESSION, [];
    }

    method TryOnce(own: bool) returns (reply: Option<Reply>)
      modifies this
      ensures (Now(), reply) == Attempt(old(Now()), own)
    {
      log := log + [Sent(own, sessionId)];
      if turns == [] {
        return None;
      }
      var turn := turns[0];
      turns := turns[1..];
      if own && turn.moved.Some? {
        sessionId := turn.moved.value;
        log := log + [Moved(turn.moved.value)];
      }
      log := log + [Got(own, turn.reply)];
      return Some(turn.reply);
    }

    method LoginLocked() returns (r: Result<u64, Failure>)
      modifies this
      ensures (Now(), r) == LoginFrom(readId, old(Now()), true)
    {
      hide Attempt;
      var retry := true;
      while true
        invariant LoginFrom(readId, Now(), retry) == LoginFrom(readId, old(Now()), true)
        decreases retry
      {
        var answer := TryOnce(false);
        if answer.None? {
          return Err(Unfinished);
        }
        if answer.value.NoReply? {
          return Err(NoAnswer);
        }
        var status := answer.value.code;
        if IsSuccess(status) {
          var id := readId(answer.value.body);
          if id.None? {
            return Err(Malformed);
          }
          sessionId := id.value;
          log := log + [Stored(id.value)];
          return Ok(id.value);
        }
        if status == 500 {
          return Err(NotSupported);
        }
        if retry {
          retry := false;
          continue;
        }
        return Err(Authentication(status));
      }
    }

    method ReloginUnlessMoved() returns (r: Result<(), Failure>)
      modifies this
      ensures (Now(), r) == ReloginFrom(readId, old(Now()))
    {
      hide LoginFrom;
      var stale := sessionId;
      log := log + [Relogin(stale)];
      if locks == [] {
        return Err(Unfinished);
      }
      if locks[0].Some? {
        sessionId := locks[0].value;
        log := log + [Moved(locks[0].value)];
      }
      locks := locks[1..];
      if sessionId != stale {
        return Ok(());
      }
      var outcome := LoginLocked();
      return if outcome.Ok? then Ok(()) else Err(outcome.error);
    }

    method Perform() returns (r: Result<Blob, Failure>)
      modifies this
      ensures (Now(), r) == PerformFrom(readId, old(Now()), true)
    {
      hide Attempt, ReloginFrom;
      var retry := true;
      while true
        invariant PerformFrom(readId, Now(), retry) == PerformFrom(readId, old(Now()), true)
        decreases retry
      {
        var answer := TryOnce(true);
        if answer.None? {
          return Err(Unfinished);
        }
        if answer.value.NoReply? {
          return Err(NoAnswer);
        }
        var status := answer.value.code;
        if IsSuccess(status) {
          return Ok(answer.value.body);
        }
        if status == 500 {
          return Err(NotSupported);
        }
        var again := ReloginUnlessMoved();
        if again.Err? {
          return Err(again.error);
        }
        if retry {
          retry := false;
          continue;
        }
        return Err(Authentication(status));
      }
    }

    /** A request, logging in first if no session has been opened. */
    method Get() returns (r: Result<Blob, Failure>)
      modifies this
      ensures var (s, r') := GetFrom(readId, old(Now())); Now() == s && r == r'
      ensures old(log) == [] ==> Bounded(old(sessionId), Now(), r, if old(sessionId) == NO_SESSION then 6 else 4)
    {
      hide PerformFrom, LoginFrom, Bounded;
      if log == [] {
        GetIsBounded(readId, sessionId, locks, turns);
      }
      if sessionId == NO_SESSION {
        if locks == [] {
          return Err(Unfinished);
        }
        if locks[0].Some? {
          sessionId := locks[0].value;
          log := log + [Moved(locks[0].value)];
        }
        locks := locks[1..];
        var login := LoginLocked();
        if login.Err? {
          return Err(login.error);
        }
      }
      r := Perform();
    }
  }
}
