/**
 One task among many is one requester on its own.

 `Daap` runs a single request against scripts of what the others do; `DaapTasks` runs many at
 once. Here the scripts are read off a run: whatever the interleaving, what one task sent, got
 and stored is what the single requester does under those scripts.
 */
module DaapLink {
  import opened Bytes
  import opened Daap
  import opened DaapTasks
  import opened Wrappers

  // ----- A request resumed where it waits ------------------------------------------------------

  /** An own request has been sent; `retry` says whether it may be sent once more. */
  function AfterAsking(readId: Blob -> Option<u64>, s: State, retry: bool): State
    decreases |s.turns| + |s.locks|, 0
  {
    if s.turns == [] then s
    else
      var reply := s.turns[0].reply;
      var s1 := Meanwhile(s, s.turns[0].moved).Note(Got(true, reply)).(turns := s.turns[1..]);
      if reply.NoReply? || !Refuses(reply.code) then s1
      else AfterQueueing(readId, s1.Note(Relogin(s1.session)), Refused(s1.session, retry))
  }

  /** The login lock has been asked for. */
  function AfterQueueing(readId: Blob -> Option<u64>, s: State, cause: Cause): State
    decreases |s.turns| + |s.locks|, 0
  {
    if s.locks == [] then s
    else
      var s1 := Meanwhile(s, s.locks[0]).(locks := s.locks[1..]);
      if cause.Refused? && s1.session != cause.stale then Onward(readId, s1, cause)
      else AfterLogin(readId, s1.Note(Sent(false, s1.session)), cause, true)
  }

  /** A login has been sent; `again` says whether it may be sent once more. */
  function AfterLogin(readId: Blob -> Option<u64>, s: State, cause: Cause, again: bool): State
    decreases |s.turns| + |s.locks|, 0
  {
    if s.turns == [] then s
    else
      var reply := s.turns[0].reply;
      var s1 := s.Note(Got(false, reply)).(turns := s.turns[1..]);
      if reply.NoReply? then s1
      else if IsSuccess(reply.code) then
        var id := readId(reply.body);
        if id.None? then s1 else Onward(readId, s1.Note(Stored(id.value)).(session := id.value), cause)
      else if reply.code == 500 || !again then s1
      else AfterLogin(readId, s1.Note(Sent(false, s1.session)), cause, false)
  }

  /** The login is settled well. */
  function Onward(readId: Blob -> Option<u64>, s: State, cause: Cause): State
    decreases |s.turns| + |s.locks|, 1
  {
    if cause.Refused? && !cause.retry then s
    else AfterAsking(readId, s.Note(Sent(true, s.session)), cause.Initial?)
  }

  /** Where a request that waits at `pc` ends up. */
  function Resumed(readId: Blob -> Option<u64>, s: State, pc: Pc): State {
    match pc
    case Idle => GetFrom(readId, s).0
    case Asking(retry) => AfterAsking(readId, s, retry)
    case Queued(cause) => AfterQueueing(readId, s, cause)
    case LoggingIn(cause, again) => AfterLogin(readId, s, cause, again)
    case Finished => s
  }

  lemma {:induction false} LoginResumes(readId: Blob -> Option<u64>, s: State, cause: Cause, again: bool)
    ensures var (t, r) := LoginFrom(readId, s, again);
            AfterLogin(readId, s.Note(Sent(false, s.session)), cause, again) == if r.Ok? then Onward(readId, t, cause) else t
    decreases again
  {
    hide Onward;
    var (s1, reply) := Attempt(s, false);
    if again {
      LoginResumes(readId, s1, cause, false);
    } else {
    }
  }

  lemma ReloginResumes(readId: Blob -> Option<u64>, s: State, retry: bool)
    ensures var (t, r) := ReloginFrom(readId, s);
            AfterQueueing(readId, s.Note(Relogin(s.session)), Refused(s.session, retry))
            == if r.Ok? then Onward(readId, t, Refused(s.session, retry)) else t
  {
    hide LoginFrom, AfterLogin, Onward;
    if s.locks != [] {
      var locked := Meanwhile(s.Note(Relogin(s.session)), s.locks[0]).(locks := s.locks[1..]);
      LoginResumes(readId, locked, Refused(s.session, retry), true);
    }
  }

  lemma {:induction false} PerformResumes(readId: Blob -> Option<u64>, s: State, retry: bool)
    ensures AfterAsking(readId, s.Note(Sent(true, s.session)), retry) == PerformFrom(readId, s, retry).0
    decreases retry
  {
    hide LoginFrom, AfterLogin, AfterQueueing, ReloginFrom;
    var (s1, reply) := Attempt(s, true);
    if reply.Some? && reply.value.Status? && Refuses(reply.value.code) {
      ReloginResumes(readId, s1, retry);
      if retry {
        PerformResumes(readId, ReloginFrom(readId, s1).0, false);
      }
    }
  }

  lemma GetResumes(readId: Blob -> Option<u64>, s: State)
    ensures GetFrom(readId, s).0 == if s.session != NO_SESSION then AfterAsking(readId, s.Note(Sent(true, s.session)), true)
                                    else AfterQueueing(readId, s, Initial)
  {
    hide LoginFrom, AfterLogin, PerformFrom, AfterAsking;
    if s.session != NO_SESSION {
      PerformResumes(readId, s, true);
    } else if s.locks != [] {
      var locked := Meanwhile(s, s.locks[0]).(locks := s.locks[1..]);
      LoginResumes(readId, locked, Initial, true);
      PerformResumes(readId, LoginFrom(readId, locked, true).0, true);
    }
  }

  // ----- The scripts and the trace of one task ----------------------------------------------------

  /** What the others did to an id last seen as `seen`. */
  function Shift(seen: u64, now: u64): Option<u64> {
    if seen == now then None else Some(now)
  }

  function ShiftEvents(seen: u64, now: u64): seq<Event> {
    if seen == now then [] else [Moved(now)]
  }

  /** The id a task that waits for the lock saw last. */
  function Seen(cause: Cause): u64 {
    if cause.Initial? then NO_SESSION else cause.stale
  }

  predicate TakesLock(w: World, i: nat, step: Step) {
    step == Acquire(i) && i < |w.tasks| && w.tasks[i].pc.Queued? && w.lock.None?
  }

  predicate GetsAnswer(w: World, i: nat, step: Step) {
    step.Answered? && step.task == i && i < |w.tasks| && w.tasks[i].pc.Asking?
  }

  predicate GetsLogin(w: World, i: nat, step: Step) {
    step.LoginAnswered? && step.task == i && i < |w.tasks| && w.tasks[i].pc.LoggingIn?
  }

  function LockOf(w: World, i: nat, step: Step): seq<Option<u64>> {
    if TakesLock(w, i, step) then [Shift(Seen(w.tasks[i].pc.cause), w.session)] else []
  }

  /** Bodies matter for logins alone; `page` writes the one the id is read from. */
  function TurnOf(page: Option<u64> -> Blob, w: World, i: nat, step: Step): seq<Turn> {
    if GetsAnswer(w, i, step) then [Turn(Shift(w.tasks[i].carried, w.session), Status(step.code, []))]
    else if GetsLogin(w, i, step) then [Turn(None, Status(step.code, page(step.id)))]
    else []
  }

  function AnswerEvents(w: World, seen: u64, code: nat): seq<Event> {
    ShiftEvents(seen, w.session) + [Got(true, Status(code, []))] + if Refuses(code) then [Relogin(w.session)] else []
  }

  /** What is sent once a login is settled well with `session` in force. */
  function OnwardEvents(session: u64, cause: Cause): seq<Event> {
    if cause.Refused? && !cause.retry then [] else [Sent(true, session)]
  }

  function LockEvents(w: World, cause: Cause): seq<Event> {
    ShiftEvents(Seen(cause), w.session)
    + if cause.Refused? && w.session != cause.stale then OnwardEvents(w.session, cause) else [Sent(false, w.session)]
  }

  function LoginEvents(w: World, cause: Cause, again: bool, reply: Reply, id: Option<u64>): seq<Event>
    requires reply.Status?
  {
    [Got(false, reply)]
    + if IsSuccess(reply.code) then
        if id.None? then [] else [Stored(id.value)] + OnwardEvents(id.value, cause)
      else if reply.code == 500 || !again then [] else [Sent(false, w.session)]
  }

  /** What one step adds to the trace of task `i`. */
  function StepEvents(page: Option<u64> -> Blob, w: World, i: nat, step: Step): seq<Event> {
    if GetsAnswer(w, i, step) then AnswerEvents(w, w.tasks[i].carried, step.code)
    else if TakesLock(w, i, step) then LockEvents(w, w.tasks[i].pc.cause)
    else if GetsLogin(w, i, step) then
      LoginEvents(w, w.tasks[i].pc.cause, w.tasks[i].pc.again, Status(step.code, page(step.id)), step.id)
    else if step == Begin(i) && i < |w.tasks| && w.tasks[i].pc.Idle? && w.session != NO_SESSION then [Sent(true, w.session)]
    else []
  }

  function Locks(w: World, i: nat, steps: seq<Step>): seq<Option<u64>>
    decreases |steps|
  {
    if steps == [] then [] else LockOf(w, i, steps[0]) + Locks(Next(w, steps[0]), i, steps[1..])
  }

  function Turns(page: Option<u64> -> Blob, w: World, i: nat, steps: seq<Step>): seq<Turn>
    decreases |steps|
  {
    if steps == [] then [] else TurnOf(page, w, i, steps[0]) + Turns(page, Next(w, steps[0]), i, steps[1..])
  }

  function Trace(page: Option<u64> -> Blob, w: World, i: nat, steps: seq<Step>): seq<Event>
    decreases |steps|
  {
    if steps == [] then [] else StepEvents(page, w, i, steps[0]) + Trace(page, Next(w, steps[0]), i, steps[1..])
  }

  // ----- In step ---------------------------------------------------------------------------------

  /** The id the single requester has in hand is the one its task has seen last. */
  ghost predicate InStep(w: World, i: nat, s: State) {
    && i < |w.tasks|
    && match w.tasks[i].pc
       case Idle => false
       case Asking(_) => s.session == w.tasks[i].carried
       case Queued(cause) => s.session == Seen(cause)
       case LoggingIn(_, _) => s.session == w.session
       case Finished => true
  }

  // ----- What a trace counts ---------------------------------------------------------------------

  ghost predicate Tally(log: seq<Event>, asked: nat, attempts: nat, relogins: nat) {
    Requests(log, true) == asked && Requests(log, false) == attempts && Relogins(log) == relogins
  }

  /** The counters of a task count what its trace holds. */
  ghost predicate Counted(t: Task, log: seq<Event>) {
    Tally(log, t.asked, t.attempts, t.relogins)
  }

  lemma {:induction false} TallyAdd(log: seq<Event>, more: seq<Event>, asked: nat, attempts: nat, relogins: nat)
    requires Tally(more, asked, attempts, relogins)
    ensures Tally(log + more, Requests(log, true) + asked, Requests(log, false) + attempts, Relogins(log) + relogins)
    decreases |more|
  {
    if more == [] {
      assert log + more == log;
    } else {
      var front, e := more[..|more| - 1], more[|more| - 1];
      TallyAdd(log, front, Requests(front, true), Requests(front, false), Relogins(front));
      NoteCounts(log + front, e, true);
      NoteCounts(log + front, e, false);
      assert log + more == (log + front) + [e];
    }
  }

  lemma TallyOne(e: Event)
    ensures Tally([e], if e.Sent? && e.own then 1 else 0, if e.Sent? && !e.own then 1 else 0, if e.Relogin? then 1 else 0)
  {
    assert [] + [e] == [e];
    NoteCounts([], e, true);
    NoteCounts([], e, false);
  }

  lemma ShiftTally(seen: u64, now: u64)
    ensures Tally(ShiftEvents(seen, now), 0, 0, 0)
  {
    hide Requests, Relogins;
    TallyOne(Moved(now));
    TallyNone();
  }

  lemma TallyNone()
    ensures Tally([], 0, 0, 0)
  {
  }

  lemma OnwardTally(session: u64, cause: Cause)
    ensures Tally(OnwardEvents(session, cause), if cause.Refused? && !cause.retry then 0 else 1, 0, 0)
  {
    hide Requests, Relogins;
    TallyOne(Sent(true, session));
    TallyNone();
  }

  lemma AnswerTally(w: World, seen: u64, code: nat)
    ensures Tally(AnswerEvents(w, seen, code), 0, 0, if Refuses(code) then 1 else 0)
  {
    hide Requests, Relogins, ShiftEvents;
    var shift, got := ShiftEvents(seen, w.session), Got(true, Status(code, []));
    ShiftTally(seen, w.session);
    TallyOne(got);
    TallyAdd(shift, [got], 0, 0, 0);
    TallyOne(Relogin(w.session));
    TallyNone();
    TallyAdd(shift + [got], if Refuses(code) then [Relogin(w.session)] else [], 0, 0, if Refuses(code) then 1 else 0);
  }

  lemma LockTally(w: World, cause: Cause)
    ensures var moved := cause.Refused? && w.session != cause.stale;
            Tally(LockEvents(w, cause), if moved && cause.retry then 1 else 0, if moved then 0 else 1, 0)
  {
    hide Requests, Relogins, ShiftEvents, OnwardEvents;
    var shift := ShiftEvents(Seen(cause), w.session);
    ShiftTally(Seen(cause), w.session);
    if cause.Refused? && w.session != cause.stale {
      OnwardTally(w.session, cause);
      TallyAdd(shift, OnwardEvents(w.session, cause), if cause.retry then 1 else 0, 0, 0);
    } else {
      TallyOne(Sent(false, w.session));
      TallyAdd(shift, [Sent(false, w.session)], 0, 1, 0);
    }
  }

  lemma LoginTally(w: World, cause: Cause, again: bool, reply: Reply, id: Option<u64>)
    requires reply.Status?
    ensures var done := IsSuccess(reply.code) && id.Some?;
            Tally(LoginEvents(w, cause, again, reply, id),
                  if done && (cause.Initial? || cause.retry) then 1 else 0, if Refuses(reply.code) && again then 1 else 0, 0)
  {
    hide Requests, Relogins, OnwardEvents;
    var got := Got(false, reply);
    TallyOne(got);
    TallyNone();
    if IsSuccess(reply.code) && id.Some? {
      var stored, onward := Stored(id.value), OnwardEvents(id.value, cause);
      TallyOne(stored);
      OnwardTally(id.value, cause);
      var asked := if cause.Initial? || cause.retry then 1 else 0;
      TallyAdd([stored], onward, asked, 0, 0);
      TallyAdd([got], [stored] + onward, asked, 0, 0);
    } else if Refuses(reply.code) && again {
      TallyOne(Sent(false, w.session));
      TallyAdd([got], [Sent(false, w.session)], 0, 1, 0);
    } else {
      TallyAdd([got], [], 0, 0, 0);
    }
  }

  /** An answer is taken as the next turn of the script. */
  lemma AnswerStep(readId: Blob -> Option<u64>, w: World, i: nat, s: State, code: nat, turns: seq<Turn>) returns (t: State)
    requires InStep(w, i, s) && w.tasks[i].pc.Asking?
    requires s.turns == [Turn(Shift(w.tasks[i].carried, w.session), Status(code, []))] + turns
    ensures var next := Next(w, Answered(i, code));
            InStep(next, i, t) && Resumed(readId, s, w.tasks[i].pc) == Resumed(readId, t, next.tasks[i].pc)
    ensures t.turns == turns && t.locks == s.locks && t.log == s.log + AnswerEvents(w, w.tasks[i].carried, code)
  {
    hide AfterQueueing;
    var reply := Status(code, []);
    var m := Meanwhile(s, s.turns[0].moved);
    var s1 := m.Note(Got(true, reply)).(turns := turns);
    assert s.turns[1..] == turns;
    assert m.session == w.session && m.log == s.log + ShiftEvents(w.tasks[i].carried, w.session);
    t := if Refuses(code) then s1.Note(Relogin(s1.session)) else s1;
  }

  /** The lock is taken with the next entry of the script. */
  lemma LockStep(readId: Blob -> Option<u64>, w: World, i: nat, s: State, locks: seq<Option<u64>>) returns (t: State)
    requires InStep(w, i, s) && w.tasks[i].pc.Queued? && w.lock.None?
    requires s.locks == [Shift(Seen(w.tasks[i].pc.cause), w.session)] + locks
    ensures var next := Next(w, Acquire(i));
            InStep(next, i, t) && Resumed(readId, s, w.tasks[i].pc) == Resumed(readId, t, next.tasks[i].pc)
    ensures t.locks == locks && t.turns == s.turns && t.log == s.log + LockEvents(w, w.tasks[i].pc.cause)
  {
    hide AfterAsking, AfterLogin;
    var cause := w.tasks[i].pc.cause;
    var m := Meanwhile(s, s.locks[0]);
    var s1 := m.(locks := locks);
    assert s.locks[1..] == locks;
    assert m.session == w.session && m.log == s.log + ShiftEvents(Seen(cause), w.session);
    t := if cause.Refused? && w.session != cause.stale then
           if cause.retry then s1.Note(Sent(true, s1.session)) else s1
         else s1.Note(Sent(false, s1.session));
    if cause.Refused? && w.session != cause.stale {
      assert Onward(readId, s1, cause) == if cause.retry then AfterAsking(readId, t, false) else t;
      assert AfterQueueing(readId, s, cause) == Onward(readId, s1, cause);
    } else {
      assert AfterQueueing(readId, s, cause) == AfterLogin(readId, t, cause, true);
    }
  }

  /** An answer to a login is taken as the next turn of the script. */
  lemma LoginStep(readId: Blob -> Option<u64>, w: World, i: nat, s: State, code: nat, id: Option<u64>, body: Blob, turns: seq<Turn>)
    returns (t: State)
    requires InStep(w, i, s) && w.tasks[i].pc.LoggingIn? && readId(body) == id
    requires s.turns == [Turn(None, Status(code, body))] + turns
    ensures var next := Next(w, LoginAnswered(i, code, id));
            InStep(next, i, t) && Resumed(readId, s, w.tasks[i].pc) == Resumed(readId, t, next.tasks[i].pc)
    ensures t.turns == turns && t.locks == s.locks
    ensures t.log == s.log + LoginEvents(w, w.tasks[i].pc.cause, w.tasks[i].pc.again, Status(code, body), id)
  {
    hide AfterAsking;
    var pc := w.tasks[i].pc;
    var s1 := s.Note(Got(false, Status(code, body))).(turns := turns);
    assert s.turns[1..] == turns;
    if IsSuccess(code) {
      if id.None? {
        t := s1;
      } else {
        var stored := s1.Note(Stored(id.value)).(session := id.value);
        t := if pc.cause.Refused? && !pc.cause.retry then stored else stored.Note(Sent(true, id.value));
        assert Onward(readId, stored, pc.cause)
            == if pc.cause.Refused? && !pc.cause.retry then t else AfterAsking(readId, t, pc.cause.Initial?);
        assert AfterLogin(readId, s, pc.cause, pc.again) == Onward(readId, stored, pc.cause);
      }
    } else {
      t := if code == 500 || !pc.again then s1 else s1.Note(Sent(false, s1.session));
    }
  }

  lemma CountedAfter(t: Task, u: Task, log: seq<Event>, more: seq<Event>, asked: nat, attempts: nat, relogins: nat)
    requires Counted(t, log) && Tally(more, asked, attempts, relogins)
    requires u.asked == t.asked + asked && u.attempts == t.attempts + attempts && u.relogins == t.relogins + relogins
    ensures Counted(u, log + more)
  {
    TallyAdd(log, more, asked, attempts, relogins);
  }

  lemma AnswerCounts(page: Option<u64> -> Blob, w: World, i: nat, step: Step, log: seq<Event>)
    requires GetsAnswer(w, i, step) && Counted(w.tasks[i], log)
    ensures |Next(w, step).tasks| == |w.tasks| && Counted(Next(w, step).tasks[i], log + StepEvents(page, w, i, step))
  {
    hide Tally, Counted, AnswerEvents;
    var t, more := w.tasks[i], StepEvents(page, w, i, step);
    AnswerTally(w, t.carried, step.code);
    CountedAfter(t, Next(w, step).tasks[i], log, more, 0, 0, if Refuses(step.code) then 1 else 0);
  }

  lemma LockCounts(page: Option<u64> -> Blob, w: World, i: nat, step: Step, log: seq<Event>)
    requires TakesLock(w, i, step) && Counted(w.tasks[i], log)
    ensures |Next(w, step).tasks| == |w.tasks| && Counted(Next(w, step).tasks[i], log + StepEvents(page, w, i, step))
  {
    hide Tally, Counted, LockEvents;
    var t, more := w.tasks[i], StepEvents(page, w, i, step);
    var cause := t.pc.cause;
    var moved := cause.Refused? && w.session != cause.stale;
    LockTally(w, cause);
    CountedAfter(t, Next(w, step).tasks[i], log, more, if moved && cause.retry then 1 else 0, if moved then 0 else 1, 0);
  }

  lemma LoginCounts(page: Option<u64> -> Blob, w: World, i: nat, step: Step, log: seq<Event>)
    requires GetsLogin(w, i, step) && Counted(w.tasks[i], log)
    ensures |Next(w, step).tasks| == |w.tasks| && Counted(Next(w, step).tasks[i], log + StepEvents(page, w, i, step))
  {
    hide Tally, Counted, LoginEvents;
    var t, more := w.tasks[i], StepEvents(page, w, i, step);
    var cause := t.pc.cause;
    var done := IsSuccess(step.code) && step.id.Some?;
    LoginTally(w, cause, t.pc.again, Status(step.code, page(step.id)), step.id);
    CountedAfter(t, Next(w, step).tasks[i], log, more, if done && (cause.Initial? || cause.retry) then 1 else 0,
                 if Refuses(step.code) && t.pc.again then 1 else 0, 0);
  }

  lemma BeginCounts(page: Option<u64> -> Blob, w: World, i: nat, log: seq<Event>)
    requires i < |w.tasks| && w.tasks[i].pc.Idle? && w.tasks[i].asked == 0 && Counted(w.tasks[i], log)
    ensures var next := Next(w, Begin(i));
            |next.tasks| == |w.tasks| && Counted(next.tasks[i], log + StepEvents(page, w, i, Begin(i)))
  {
    hide Tally, Counted;
    var t, u, more := w.tasks[i], Next(w, Begin(i)).tasks[i], StepEvents(page, w, i, Begin(i));
    TallyOne(Sent(true, w.session));
    TallyNone();
    CountedAfter(t, u, log, more, if w.session != NO_SESSION then 1 else 0, 0, 0);
  }

  lemma OtherCounts(page: Option<u64> -> Blob, w: World, i: nat, step: Step, log: seq<Event>)
    requires i < |w.tasks| && Counted(w.tasks[i], log)
    requires !GetsAnswer(w, i, step) && !TakesLock(w, i, step) && !GetsLogin(w, i, step)
    requires step == Begin(i) ==> !w.tasks[i].pc.Idle?
    ensures |Next(w, step).tasks| == |w.tasks| && Counted(Next(w, step).tasks[i], log + StepEvents(page, w, i, step))
  {
    hide Tally, Counted;
    TallyNone();
    CountedAfter(w.tasks[i], Next(w, step).tasks[i], log, [], 0, 0, 0);
  }

  /** The counters move by what the step adds to the trace. */
  lemma StepCounts(page: Option<u64> -> Blob, w: World, i: nat, step: Step, log: seq<Event>)
    requires i < |w.tasks| && Counted(w.tasks[i], log)
    requires w.tasks[i].pc.Idle? ==> w.tasks[i].asked == 0
    ensures |Next(w, step).tasks| == |w.tasks| && Counted(Next(w, step).tasks[i], log + StepEvents(page, w, i, step))
  {
    hide Counted, Next, StepEvents;
    if GetsAnswer(w, i, step) {
      AnswerCounts(page, w, i, step, log);
    } else if TakesLock(w, i, step) {
      LockCounts(page, w, i, step, log);
    } else if GetsLogin(w, i, step) {
      LoginCounts(page, w, i, step, log);
    } else if step == Begin(i) && w.tasks[i].pc.Idle? {
      BeginCounts(page, w, i, log);
    } else {
      OtherCounts(page, w, i, step, log);
    }
  }

  // ----- The whole run ---------------------------------------------------------------------------

  /** A task that has finished takes nothing more from the scripts and adds nothing to its trace. */
  lemma {:induction false} FinishedIsOver(page: Option<u64> -> Blob, w: World, i: nat, steps: seq<Step>)
    requires i < |w.tasks| && w.tasks[i].pc.Finished?
    ensures Locks(w, i, steps) == [] && Turns(page, w, i, steps) == [] && Trace(page, w, i, steps) == []
    decreases |steps|
  {
    if steps == [] {
    } else {
      FinishedStays(w, i, steps[0]);
      hide Next;
      FinishedIsOver(page, Next(w, steps[0]), i, steps[1..]);
    }
  }

  lemma FinishedStays(w: World, i: nat, step: Step)
    requires i < |w.tasks| && w.tasks[i].pc.Finished?
    ensures i < |Next(w, step).tasks| && Next(w, step).tasks[i].pc.Finished?
  {
  }

  /** A step that is not the task's own leaves it in step. */
  lemma OtherKeepsStep(w: World, i: nat, s: State, step: Step)
    requires Good(w) && InStep(w, i, s) && step.task != i
    ensures InStep(Next(w, step), i, s) && Next(w, step).tasks[i] == w.tasks[i]
  {
    OtherLeavesTask(w, step, i);
    if w.tasks[i].pc.LoggingIn? {
      SessionHeldWhileLocked(w, i, step);
    }
  }

  /** `page` writes bodies from which the id is read again. */
  ghost predicate Reads(readId: Blob -> Option<u64>, page: Option<u64> -> Blob) {
    forall id :: readId(page(id)) == id
  }

  /** Every step but a cancellation moves the single requester on by what it reads of the scripts. */
  lemma StepMovesOn(readId: Blob -> Option<u64>, page: Option<u64> -> Blob, w: World, i: nat, s: State, step: Step,
                    locks: seq<Option<u64>>, turns: seq<Turn>)
    returns (t: State)
    requires Good(w) && InStep(w, i, s) && Reads(readId, page) && step != Stop(i)
    requires s.locks == LockOf(w, i, step) + locks && s.turns == TurnOf(page, w, i, step) + turns
    ensures InStep(Next(w, step), i, t) && t.locks == locks && t.turns == turns
    ensures Resumed(readId, t, Next(w, step).tasks[i].pc) == Resumed(readId, s, w.tasks[i].pc)
    ensures t.log == s.log + StepEvents(page, w, i, step)
  {
    hide Good, Resumed, AnswerEvents, LockEvents, LoginEvents, Shift;
    if GetsAnswer(w, i, step) {
      t := AnswerStep(readId, w, i, s, step.code, turns);
    } else if TakesLock(w, i, step) {
      t := LockStep(readId, w, i, s, locks);
    } else if GetsLogin(w, i, step) {
      t := LoginStep(readId, w, i, s, step.code, step.id, page(step.id), turns);
    } else {
      t := s;
      if step.task != i {
        OtherKeepsStep(w, i, s, step);
      }
    }
  }

  /** With nothing left in the scripts a request stays where it waits. */
  lemma WaitsForever(readId: Blob -> Option<u64>, s: State, pc: Pc)
    requires s.locks == [] && s.turns == [] && !pc.Idle?
    ensures Resumed(readId, s, pc) == s
  {
  }

  lemma NothingTaken(page: Option<u64> -> Blob, w: World, i: nat, step: Step)
    requires step.Stop? || step.Begin? || step.task != i
    ensures LockOf(w, i, step) == [] && TurnOf(page, w, i, step) == []
    ensures !step.Begin? || step.task != i ==> StepEvents(page, w, i, step) == []
  {
  }

  /** A cancelled task stays where it waits. */
  lemma StopEnds(readId: Blob -> Option<u64>, page: Option<u64> -> Blob, w: World, i: nat, steps: seq<Step>, s: State)
    requires InStep(w, i, s) && steps != [] && steps[0] == Stop(i)
    requires s.locks == Locks(w, i, steps) && s.turns == Turns(page, w, i, steps)
    ensures Resumed(readId, s, w.tasks[i].pc) == s && Trace(page, w, i, steps) == []
  {
    var next := Next(w, steps[0]);
    hide Resumed, LockOf, TurnOf, StepEvents;
    NothingTaken(page, w, i, steps[0]);
    FinishedIsOver(page, next, i, steps[1..]);
    WaitsForever(readId, s, w.tasks[i].pc);
  }

  lemma {:induction false} RunsOn(readId: Blob -> Option<u64>, page: Option<u64> -> Blob, w: World, i: nat, steps: seq<Step>, s: State)
    requires Good(w) && InStep(w, i, s) && Reads(readId, page)
    requires s.locks == Locks(w, i, steps) && s.turns == Turns(page, w, i, steps)
    ensures Resumed(readId, s, w.tasks[i].pc).log == s.log + Trace(page, w, i, steps)
    decreases |steps|
  {
    hide Good, Resumed, LockOf, TurnOf, Reads, Next, StepEvents;
    if steps == [] {
      WaitsForever(readId, s, w.tasks[i].pc);
      assert s.log + [] == s.log;
    } else if steps[0] == Stop(i) {
      StopEnds(readId, page, w, i, steps, s);
      assert s.log + [] == s.log;
    } else {
      var step, rest := steps[0], steps[1..];
      var next := Next(w, step);
      NextGood(w, step);
      var t := StepMovesOn(readId, page, w, i, s, step, Locks(next, i, rest), Turns(page, next, i, rest));
      RunsOn(readId, page, next, i, rest, t);
      assert s.log + StepEvents(page, w, i, step) + Trace(page, next, i, rest)
          == s.log + (StepEvents(page, w, i, step) + Trace(page, next, i, rest));
    }
  }

  lemma {:induction false} RunCounts(page: Option<u64> -> Blob, w: World, i: nat, steps: seq<Step>, log: seq<Event>)
    requires Good(w) && i < |w.tasks| && Counted(w.tasks[i], log)
    ensures i < |RunAll(w, steps).tasks| && Counted(RunAll(w, steps).tasks[i], log + Trace(page, w, i, steps))
    decreases |steps|
  {
    hide Counted, StepEvents, Next;
    if steps == [] {
      assert log + [] == log;
    } else {
      var step, rest := steps[0], steps[1..];
      var next, more := Next(w, step), StepEvents(page, w, i, step);
      assert Modest(w.tasks[i]);
      StepCounts(page, w, i, step, log);
      NextGood(w, step);
      hide Good;
      RunCounts(page, next, i, rest, log + more);
      assert log + more + Trace(page, next, i, rest) == log + (more + Trace(page, next, i, rest));
    }
  }

  /** A task that begins is where a request is that has found a session, or none. */
  lemma BeginsInStep(readId: Blob -> Option<u64>, page: Option<u64> -> Blob, w: World, i: nat, locks: seq<Option<u64>>, turns: seq<Turn>)
    returns (t: State)
    requires i < |w.tasks| && w.tasks[i].pc.Idle?
    ensures var next := Next(w, Begin(i));
            && InStep(next, i, t) && Resumed(readId, t, next.tasks[i].pc) == GetFrom(readId, Fresh(w.session, locks, turns)).0
    ensures t.locks == locks && t.turns == turns && t.log == StepEvents(page, w, i, Begin(i))
  {
    hide GetFrom, AfterAsking, AfterQueueing;
    var s := Fresh(w.session, locks, turns);
    GetResumes(readId, s);
    t := if w.session != NO_SESSION then s.Note(Sent(true, s.session)) else s;
  }

  /** From the moment a task begins, its part of the run is one request under the scripts of the run. */
  lemma BegunIsRequest(readId: Blob -> Option<u64>, page: Option<u64> -> Blob, w: World, i: nat, steps: seq<Step>)
    requires Good(w) && i < |w.tasks| && w.tasks[i].pc.Idle? && Reads(readId, page)
    requires steps != [] && steps[0] == Begin(i)
    ensures Trace(page, w, i, steps) == GetFrom(readId, Fresh(w.session, Locks(w, i, steps), Turns(page, w, i, steps))).0.log
  {
    hide Good, GetFrom, Reads, Resumed, InStep, StepEvents, LockOf, TurnOf, Next;
    var next, rest := Next(w, steps[0]), steps[1..];
    NothingTaken(page, w, i, steps[0]);
    NextGood(w, steps[0]);
    var locks, turns := Locks(next, i, rest), Turns(page, next, i, rest);
    assert Locks(w, i, steps) == [] + locks == locks;
    assert Turns(page, w, i, steps) == [] + turns == turns;
    var t := BeginsInStep(readId, page, w, i, locks, turns);
    RunsOn(readId, page, next, i, rest, t);
  }

  /** A task that has not begun when the run ends, or is cancelled before, has done nothing. */
  lemma IdleStep(page: Option<u64> -> Blob, w: World, i: nat, step: Step)
    requires i < |w.tasks| && w.tasks[i].pc.Idle? && step != Begin(i)
    ensures i < |Next(w, step).tasks| && (Next(w, step).tasks[i].pc.Idle? || Next(w, step).tasks[i].pc.Finished?)
    ensures StepEvents(page, w, i, step) == []
  {
  }

  lemma {:induction false} RunIsRequest(readId: Blob -> Option<u64>, page: Option<u64> -> Blob, w: World, i: nat, steps: seq<Step>)
    returns (at: u64, locks: seq<Option<u64>>, turns: seq<Turn>)
    requires Good(w) && i < |w.tasks| && w.tasks[i].pc.Idle? && Reads(readId, page)
    ensures Trace(page, w, i, steps) == GetFrom(readId, Fresh(at, locks, turns)).0.log
    decreases |steps|
  {
    if steps == [] {
      at, locks, turns := NO_SESSION, [], [];
    } else if steps[0] == Begin(i) {
      BegunIsRequest(readId, page, w, i, steps);
      at, locks, turns := w.session, Locks(w, i, steps), Turns(page, w, i, steps);
    } else {
      var next := Next(w, steps[0]);
      IdleStep(page, w, i, steps[0]);
      NextGood(w, steps[0]);
      hide Next, Good, StepEvents, GetFrom;
      if next.tasks[i].pc.Idle? {
        at, locks, turns := RunIsRequest(readId, page, next, i, steps[1..]);
      } else {
        FinishedIsOver(page, next, i, steps[1..]);
        at, locks, turns := NO_SESSION, [], [];
        NothingAsked(readId);
      }
    }
  }

  lemma NothingAsked(readId: Blob -> Option<u64>)
    ensures GetFrom(readId, Fresh(NO_SESSION, [], [])).0.log == []
  {
  }

  /**
   In every interleaving, what one task sends, gets and stores is what a single request does under
   some script of answers and interference, and the counters of the task count that trace.
   */
  lemma EveryTaskIsRequest(readId: Blob -> Option<u64>, page: Option<u64> -> Blob, session: u64, tasks: nat, i: nat, steps: seq<Step>)
    returns (at: u64, locks: seq<Option<u64>>, turns: seq<Turn>)
    requires i < tasks && Reads(readId, page)
    ensures var w := RunAll(NewWorld(session, tasks), steps);
            var t := GetFrom(readId, Fresh(at, locks, turns)).0;
            && t.log == Trace(page, NewWorld(session, tasks), i, steps)
            && i < |w.tasks| && Counted(w.tasks[i], t.log)
  {
    var w := NewWorld(session, tasks);
    NewWorldGood(session, tasks);
    TallyNone();
    hide Good, RunAll, Trace, GetFrom, Tally, Reads;
    at, locks, turns := RunIsRequest(readId, page, w, i, steps);
    RunCounts(page, w, i, steps, []);
    assert [] + Trace(page, w, i, steps) == Trace(page, w, i, steps);
  }
}
