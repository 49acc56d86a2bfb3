/**
 Many DAAP requests at once, sharing one session id and one login lock.

 A world is the shared state and the program point of every task; a run is any interleaving of
 their steps. A step a task cannot take leaves the world as it is.
 */
module DaapTasks {
  import opened Bytes
  import opened Daap
  import opened Wrappers

  /** Who is logging in: a request that had no session yet, or one that was refused. */
  datatype Cause = Initial | Refused(stale: u64, retry: bool)

  datatype Pc = Idle | Asking(retry: bool) | Queued(cause: Cause) | LoggingIn(cause: Cause, again: bool) | Finished

  /** A task, the id its latest request carries, and how often it asked, re-logged in and tried to. */
  datatype Task = Task(pc: Pc, carried: u64, asked: nat, relogins: nat, attempts: nat)

  datatype World = World(
    session: u64,
    lock: Option<nat>,
    tasks: seq<Task>,
    arrived: seq<u64>,   // session ids in the order they came into force
    replaced: seq<u64>,  // the id each successful login put out of force
    collapsed: seq<u64>) // the snapshots of the re-logins among them

  datatype Step =
    | Begin(task: nat)
    | Answered(task: nat, code: nat)
    | Acquire(task: nat)
    | LoginAnswered(task: nat, code: nat, id: Option<u64>)
    | Stop(task: nat)

  function NewTask(): Task {
    Task(Idle, NO_SESSION, 0, 0, 0)
  }

  function NewWorld(session: u64, tasks: nat): World {
    World(session, None, seq(tasks, _ => NewTask()), [session], [], [])
  }

  // ----- Steps -------------------------------------------------------------------------

  function Set(w: World, i: nat, t: Task): World
    requires i < |w.tasks|
  {
    w.(tasks := w.tasks[i := t])
  }

  /** Send the request, with the session id as it is now. */
  function Ask(w: World, i: nat, retry: bool): World
    requires i < |w.tasks|
  {
    Set(w, i, w.tasks[i].(pc := Asking(retry), carried := w.session, asked := w.tasks[i].asked + 1))
  }

  function Release(w: World, i: nat): World {
    if w.lock == Some(i) then w.(lock := None) else w
  }

  function Finish(w: World, i: nat): World
    requires i < |w.tasks|
  {
    Set(Release(w, i), i, w.tasks[i].(pc := Finished))
  }

  /** What a task does once its login is settled well. */
  function Resume(w: World, i: nat, cause: Cause): World
    requires i < |w.tasks|
  {
    if cause.Initial? then Ask(w, i, true)
    else if cause.retry then Ask(w, i, false)
    else Finish(w, i)
  }

  function Begun(w: World, i: nat): World
    requires i < |w.tasks|
  {
    if w.session != NO_SESSION then Ask(w, i, true) else Set(w, i, w.tasks[i].(pc := Queued(Initial)))
  }

  /** A refused request takes its snapshot now, not when it was built. */
  function AskedAnswered(w: World, i: nat, code: nat): World
    requires i < |w.tasks| && w.tasks[i].pc.Asking?
  {
    if IsSuccess(code) || code == 500 then Finish(w, i)
    else
      var t := w.tasks[i];
      Set(w, i, t.(pc := Queued(Refused(w.session, t.pc.retry)), relogins := t.relogins + 1))
  }

  function Acquired(w: World, i: nat): World
    requires i < |w.tasks| && w.tasks[i].pc.Queued?
  {
    var t := w.tasks[i];
    var cause := t.pc.cause;
    if cause.Refused? && w.session != cause.stale then Resume(w, i, cause)
    else Set(w.(lock := Some(i)), i, t.(pc := LoggingIn(cause, true), attempts := t.attempts + 1))
  }

  function LoginDone(w: World, i: nat, code: nat, id: Option<u64>): World
    requires i < |w.tasks| && w.tasks[i].pc.LoggingIn?
  {
    var t := w.tasks[i];
    var cause := t.pc.cause;
    if IsSuccess(code) && id.Some? then
      Resume(Release(w, i).(session := id.value, arrived := w.arrived + [id.value], replaced := w.replaced + [w.session],
                            collapsed := if cause.Refused? then w.collapsed + [cause.stale] else w.collapsed), i, cause)
    else if IsSuccess(code) || code == 500 || !t.pc.again then Finish(w, i)
    else Set(w, i, t.(pc := LoggingIn(cause, false), attempts := t.attempts + 1))
  }

  function Next(w: World, step: Step): World {
    var i := step.task;
    if i >= |w.tasks| then w
    else
      var pc := w.tasks[i].pc;
      match step
      case Begin(_) => if pc.Idle? then Begun(w, i) else w
      case Answered(_, code) => if pc.Asking? then AskedAnswered(w, i, code) else w
      case Acquire(_) => if pc.Queued? && w.lock.None? then Acquired(w, i) else w
      case LoginAnswered(_, code, id) => if pc.LoggingIn? then LoginDone(w, i, code, id) else w
      case Stop(_) => Finish(w, i)
  }

  function RunAll(w: World, steps: seq<Step>): World
    decreases |steps|
  {
    if steps == [] then w else RunAll(Next(w, steps[0]), steps[1..])
  }

  // ----- What every step keeps --------------------------------------------------------------

  function Count(s: seq<u64>, x: u64): nat {
    if s == [] then 0 else Count(s[..|s| - 1], x) + if s[|s| - 1] == x then 1 else 0
  }

  /** Whoever is logging in holds the lock, and what it wants to replace is still in force. */
  ghost predicate Exclusive(w: World) {
    && (w.lock.Some? ==> w.lock.value < |w.tasks|)
    && forall i :: 0 <= i < |w.tasks| ==>
         && (w.tasks[i].pc.LoggingIn? <==> w.lock == Some(i))
         && (w.tasks[i].pc.LoggingIn? && w.tasks[i].pc.cause.Refused? ==> w.tasks[i].pc.cause.stale == w.session)
  }

  /** Each id has come into force as often as it went out of force, once more if it is in force. */
  ghost predicate Balanced(w: World) {
    && w.arrived != [] && w.arrived[|w.arrived| - 1] == w.session
    && forall x :: Count(w.arrived, x) == Count(w.replaced, x) + if w.session == x then 1 else 0
  }

  ghost predicate Covered(w: World) {
    forall x :: Count(w.collapsed, x) <= Count(w.replaced, x)
  }

  /** How far along each task may be. */
  ghost predicate Modest(t: Task) {
    match t.pc
    case Idle => t.asked == 0 && t.relogins == 0 && t.attempts == 0
    case Asking(retry) => t.asked == (if retry then 1 else 2) && t.relogins == t.asked - 1 && t.attempts <= 2 * t.asked
    case Queued(cause) => t.asked == t.relogins == Rank(cause) && t.attempts <= 2 * t.asked
    case LoggingIn(cause, again) => t.asked == t.relogins == Rank(cause) && t.attempts <= 2 * t.asked + if again then 1 else 2
    case Finished => t.asked <= 2 && t.relogins <= 2 && t.attempts <= 6
  }

  function Rank(cause: Cause): nat {
    match cause
    case Initial => 0
    case Refused(_, retry) => if retry then 1 else 2
  }

  ghost predicate AllModest(w: World) {
    forall i :: 0 <= i < |w.tasks| ==> Modest(w.tasks[i])
  }

  ghost predicate Good(w: World) {
    Exclusive(w) && Balanced(w) && Covered(w) && AllModest(w)
  }

  lemma CountSnoc(s: seq<u64>, y: u64, x: u64)
    ensures Count(s + [y], x) == Count(s, x) + if x == y then 1 else 0
  {
    assert (s + [y])[..|s|] == s;
  }

  /** Tasks moving on by themselves, with nobody logging in differently than before. */
  lemma TaskMoves(w: World, i: nat, t: Task)
    requires Good(w) && i < |w.tasks| && Modest(t)
    requires !w.tasks[i].pc.LoggingIn? && !t.pc.LoggingIn?
    ensures Good(Set(w, i, t))
  {
    hide Count, Modest;
  }

  lemma TaskReleases(w: World, i: nat, t: Task)
    requires Good(w) && i < |w.tasks| && Modest(t) && !t.pc.LoggingIn?
    ensures Good(Set(Release(w, i), i, t))
  {
    hide Count, Modest;
  }

  lemma FinishGood(w: World, i: nat)
    requires Good(w) && i < |w.tasks|
    ensures Good(Finish(w, i))
  {
    hide Exclusive, Balanced, Covered, Set, Release;
    TaskReleases(w, i, w.tasks[i].(pc := Finished));
  }

  /** The new session id after a login that went well, with the lock given back. */
  function Replaced(w: World, i: nat, id: u64, cause: Cause): World {
    Release(w, i).(session := id, arrived := w.arrived + [id], replaced := w.replaced + [w.session],
                   collapsed := if cause.Refused? then w.collapsed + [cause.stale] else w.collapsed)
  }

  /** A login settles the account: one id leaves, one arrives, and only the holder is affected. */
  lemma ReplacedAccount(w: World, i: nat, id: u64)
    requires Good(w) && i < |w.tasks| && w.tasks[i].pc.LoggingIn?
    ensures Balanced(Replaced(w, i, id, w.tasks[i].pc.cause)) && Covered(Replaced(w, i, id, w.tasks[i].pc.cause))
  {
    hide Modest, Count, AllModest;
    forall x
      ensures Count(w.arrived + [id], x) == Count(w.replaced + [w.session], x) + if id == x then 1 else 0
    {
      CountSnoc(w.arrived, id, x);
      CountSnoc(w.replaced, w.session, x);
    }
    var cause := w.tasks[i].pc.cause;
    var collapsed := if cause.Refused? then w.collapsed + [cause.stale] else w.collapsed;
    forall x
      ensures Count(collapsed, x) <= Count(w.replaced + [w.session], x)
    {
      CountSnoc(w.replaced, w.session, x);
      if cause.Refused? {
        CountSnoc(w.collapsed, cause.stale, x);
      }
    }
  }

  lemma ReplacedTask(w: World, i: nat, id: u64, t: Task)
    requires Good(w) && i < |w.tasks| && w.tasks[i].pc.LoggingIn? && Modest(t) && !t.pc.LoggingIn?
    ensures Good(Set(Replaced(w, i, id, w.tasks[i].pc.cause), i, t))
  {
    hide Modest, Count;
    ReplacedAccount(w, i, id);
  }

  lemma LoginDoneGood(w: World, i: nat, code: nat, id: Option<u64>)
    requires Good(w) && i < |w.tasks| && w.tasks[i].pc.LoggingIn?
    ensures Good(LoginDone(w, i, code, id))
  {
    hide Exclusive, Balanced, Covered;
    var t := w.tasks[i];
    var cause := t.pc.cause;
    if IsSuccess(code) && id.Some? {
      var asking := t.(pc := Asking(cause.Initial?), carried := id.value, asked := t.asked + 1);
      var end := t.(pc := Finished);
      if cause.Initial? || cause.retry {
        ReplacedTask(w, i, id.value, asking);
      } else {
        ReplacedTask(w, i, id.value, end);
      }
    } else if IsSuccess(code) || code == 500 || !t.pc.again {
      FinishGood(w, i);
    } else {
      TriesAgain(w, i);
    }
  }

  lemma TriesAgain(w: World, i: nat)
    requires Good(w) && i < |w.tasks| && w.tasks[i].pc.LoggingIn? && w.tasks[i].pc.again
    ensures var t := w.tasks[i]; Good(Set(w, i, t.(pc := LoggingIn(t.pc.cause, false), attempts := t.attempts + 1)))
  {
    hide Count;
  }

  lemma AcquiredGood(w: World, i: nat)
    requires Good(w) && i < |w.tasks| && w.tasks[i].pc.Queued? && w.lock.None?
    ensures Good(Acquired(w, i))
  {
    hide Count;
    var t := w.tasks[i];
    var cause := t.pc.cause;
    if cause.Refused? && w.session != cause.stale {
      if cause.retry {
        TaskMoves(w, i, t.(pc := Asking(false), carried := w.session, asked := t.asked + 1));
      } else {
        FinishGood(w, i);
      }
    }
  }

  lemma NextGood(w: World, step: Step)
    requires Good(w)
    ensures Good(Next(w, step))
  {
    hide Exclusive, Balanced, Covered, LoginDone, Acquired, Finish;
    var i := step.task;
    if i < |w.tasks| {
      var t := w.tasks[i];
      if step.Begin? && t.pc.Idle? {
        TaskMoves(w, i, if w.session != NO_SESSION then t.(pc := Asking(true), carried := w.session, asked := 1)
                        else t.(pc := Queued(Initial)));
      } else if step.Answered? && t.pc.Asking? {
        if IsSuccess(step.code) || step.code == 500 {
          FinishGood(w, i);
        } else {
          TaskMoves(w, i, t.(pc := Queued(Refused(w.session, t.pc.retry)), relogins := t.relogins + 1));
        }
      } else if step.Acquire? && t.pc.Queued? && w.lock.None? {
        AcquiredGood(w, i);
      } else if step.LoginAnswered? && t.pc.LoggingIn? {
        LoginDoneGood(w, i, step.code, step.id);
      } else if step.Stop? {
        FinishGood(w, i);
      }
    }
  }

  lemma NewWorldGood(session: u64, tasks: nat)
    ensures Good(NewWorld(session, tasks))
  {
    forall x
      ensures Count([session], x) == if session == x then 1 else 0
    {
      CountSnoc([], session, x);
      assert [] + [session] == [session];
    }
  }

  lemma {:induction false} RunGood(w: World, steps: seq<Step>)
    requires Good(w)
    ensures Good(RunAll(w, steps))
    decreases |steps|
  {
    hide Good, Next;
    if steps == [] {
    } else {
      NextGood(w, steps[0]);
      RunGood(Next(w, steps[0]), steps[1..]);
    }
  }

  /**
   In every run: at most one task is inside the login; a task asks at most twice, re-logs in at
   most twice and tries at most six logins in all; and the re-logins that snapshotted an id
   succeed, between them, at most as often as that id came into force.
   */
  lemma EveryRunIsGood(session: u64, tasks: nat, steps: seq<Step>)
    ensures var w := RunAll(NewWorld(session, tasks), steps);
            && (forall i, j :: 0 <= i < |w.tasks| && 0 <= j < |w.tasks| && w.tasks[i].pc.LoggingIn? && w.tasks[j].pc.LoggingIn?
                  ==> i == j)
            && (forall i :: 0 <= i < |w.tasks| ==>
                  w.tasks[i].asked <= 2 && w.tasks[i].relogins <= 2 && w.tasks[i].attempts <= 6)
            && (forall x :: Count(w.collapsed, x) <= Count(w.arrived, x))
  {
    hide RunAll, Count;
    NewWorldGood(session, tasks);
    RunGood(NewWorld(session, tasks), steps);
    var w := RunAll(NewWorld(session, tasks), steps);
    forall i | 0 <= i < |w.tasks|
      ensures w.tasks[i].asked <= 2 && w.tasks[i].relogins <= 2 && w.tasks[i].attempts <= 6
    {
      assert Modest(w.tasks[i]);
    }
  }

  ghost predicate NeverTwice(s: seq<u64>) {
    forall i, j :: 0 <= i < j < |s| ==> s[i] != s[j]
  }

  lemma {:induction false} DistinctCount(s: seq<u64>, x: u64)
    requires NeverTwice(s)
    ensures Count(s, x) <= 1 && (Count(s, x) == 1 ==> x in s)
    decreases |s|
  {
    if s == [] {
    } else {
      DistinctCount(s[..|s| - 1], x);
    }
  }

  /**
   If the device never hands out an id twice, nor the initial one, then for each id at most one
   re-login that snapshotted it succeeds: several requests refused at once log in once.
   */
  lemma ReloginsCollapse(session: u64, tasks: nat, steps: seq<Step>, x: u64)
    requires NeverTwice(RunAll(NewWorld(session, tasks), steps).arrived)
    ensures Count(RunAll(NewWorld(session, tasks), steps).collapsed, x) <= 1
  {
    hide RunAll;
    EveryRunIsGood(session, tasks, steps);
    DistinctCount(RunAll(NewWorld(session, tasks), steps).arrived, x);
  }

  /** While one task is logging in, no step of another touches the session id or the lock. */
  lemma SessionHeldWhileLocked(w: World, i: nat, step: Step)
    requires Good(w) && w.lock == Some(i) && step.task != i
    ensures Next(w, step).session == w.session && Next(w, step).lock == Some(i)
  {
    hide Count, Modest;
  }

  // ----- What is not collapsed ------------------------------------------------------------------

  lemma RunStep(w: World, step: Step, rest: seq<Step>)
    ensures RunAll(w, [step] + rest) == RunAll(Next(w, step), rest)
  {
    hide Next;
    assert ([step] + rest)[1..] == rest;
  }

  /** Six steps, one after the other. */
  lemma RunSix(w: World, a: Step, b: Step, c: Step, d: Step, e: Step, f: Step)
    ensures RunAll(w, [a, b, c, d, e, f]) == Next(Next(Next(Next(Next(Next(w, a), b), c), d), e), f)
  {
    hide Next, RunAll;
    var wa, wb := Next(w, a), Next(Next(w, a), b);
    var wc, wd, we := Next(wb, c), Next(Next(wb, c), d), Next(Next(Next(wb, c), d), e);
    RunStep(w, a, [b, c, d, e, f]);
    RunStep(wa, b, [c, d, e, f]);
    RunStep(wb, c, [d, e, f]);
    RunStep(wc, d, [e, f]);
    RunStep(wd, e, [f]);
    RunStep(we, f, []);
    assert [f] + [] == [f] && [e] + [f] == [e, f] && [d] + [e, f] == [d, e, f];
    assert [c] + [d, e, f] == [c, d, e, f] && [b] + [c, d, e, f] == [b, c, d, e, f];
    assert [a] + [b, c, d, e, f] == [a, b, c, d, e, f];
    NothingLeft(Next(we, f));
  }

  lemma NothingLeft(w: World)
    ensures RunAll(w, []) == w
  {
  }

  /** The shortest run in which first logins are not collapsed. */
  lemma FirstLoginsRepeat(x: u64, y: u64)
    requires x != NO_SESSION
    ensures RunAll(NewWorld(NO_SESSION, 2),
                   [Begin(0), Begin(1), Acquire(0), LoginAnswered(0, 200, Some(x)), Acquire(1), LoginAnswered(1, 200, Some(y))]
            ).arrived == [NO_SESSION, x, y]
  {
    hide RunAll;
    RunSix(NewWorld(NO_SESSION, 2), Begin(0), Begin(1), Acquire(0), LoginAnswered(0, 200, Some(x)), Acquire(1), LoginAnswered(1, 200, Some(y)));
  }

  /** If the device hands out the same id again, the next re-login cannot tell that one has happened. */
  lemma ReissueDefeatsCollapse(x: u64)
    requires x != NO_SESSION
    ensures RunAll(BothRefused(x),
                   [Acquire(0), LoginAnswered(0, 200, Some(x)), Acquire(1), LoginAnswered(1, 200, Some(x)), Stop(0), Stop(1)]
            ).collapsed == [x, x]
  {
    hide RunAll;
    RunSix(BothRefused(x), Acquire(0), LoginAnswered(0, 200, Some(x)), Acquire(1), LoginAnswered(1, 200, Some(x)), Stop(0), Stop(1));
  }

  /** Two requests built with one id and refused before anything else happens. */
  function BothRefused(x: u64): World {
    Next(Next(Next(Next(NewWorld(x, 2), Begin(0)), Begin(1)), Answered(0, 403)), Answered(1, 403))
  }

  /**
   Two requests built with one id log in twice if the second is refused after the first has
   logged in: what is compared is the id in force at the refusal, not the one the request carried.
   */
  lemma LateRefusalLogsInAgain(x: u64, y: u64, z: u64)
    requires x != NO_SESSION && y != x
    ensures var both := Next(Next(NewWorld(x, 2), Begin(0)), Begin(1));
            && both.tasks[0].carried == x && both.tasks[1].carried == x
            && RunAll(both, [Answered(0, 403), Acquire(0), LoginAnswered(0, 200, Some(y)),
                             Answered(1, 403), Acquire(1), LoginAnswered(1, 200, Some(z))]).collapsed == [x, y]
  {
    hide RunAll;
    var both := Next(Next(NewWorld(x, 2), Begin(0)), Begin(1));
    RunSix(both, Answered(0, 403), Acquire(0), LoginAnswered(0, 200, Some(y)),
           Answered(1, 403), Acquire(1), LoginAnswered(1, 200, Some(z)));
  }

  // ----- When the documented rule is kept ---------------------------------------------------------

  predicate ByOthers(steps: seq<Step>, i: nat) {
    forall k :: 0 <= k < |steps| ==> steps[k].task != i
  }

  lemma {:induction false} OthersLeaveTask(w: World, steps: seq<Step>, i: nat)
    requires i < |w.tasks| && ByOthers(steps, i)
    ensures i < |RunAll(w, steps).tasks| && RunAll(w, steps).tasks[i] == w.tasks[i]
    decreases |steps|
  {
    if steps == [] {
    } else {
      OtherLeavesTask(w, steps[0], i);
      hide Next;
      assert forall k :: 0 <= k < |steps[1..]| ==> steps[1..][k] == steps[k + 1];
      OthersLeaveTask(Next(w, steps[0]), steps[1..], i);
    }
  }

  lemma OtherLeavesTask(w: World, step: Step, i: nat)
    requires i < |w.tasks| && step.task != i
    ensures i < |Next(w, step).tasks| && Next(w, step).tasks[i] == w.tasks[i]
  {
  }

  /**
   The documented rule, for a task about to take the lock: it logs in if and only if the id its
   refused request carried is still in force.
   */
  ghost predicate LogsInAsDocumented(w: World, i: nat) {
    i < |w.tasks| && (Next(w, Acquire(i)).tasks[i].pc.LoggingIn? <==> w.session == w.tasks[i].carried)
  }

  /** With the lock held by another, that one giving up lets the refused task in with nothing changed. */
  lemma HolderGivesUp(w: World, i: nat) returns (steps: seq<Step>)
    requires Good(w) && i < |w.tasks| && !w.tasks[i].pc.LoggingIn?
    ensures ByOthers(steps, i)
    ensures var v := RunAll(w, steps); v.lock.None? && v.session == w.session && |v.tasks| == |w.tasks| && v.tasks[i] == w.tasks[i]
  {
    hide Balanced, Covered, AllModest;
    if w.lock.None? {
      steps := [];
    } else {
      var j := w.lock.value;
      steps := [Stop(j)];
      assert steps[1..] == [];
      assert RunAll(w, steps) == Next(w, Stop(j));
    }
  }

  /**
   The rule is kept at the refused task's turn, whatever the others do until then, if and only if
   the id its request carried is the one in force when the refusal comes.
   */
  lemma DocumentedRuleHoldsIff(w: World, i: nat, code: nat)
    requires Good(w) && i < |w.tasks| && w.tasks[i].pc.Asking? && Refuses(code)
    ensures var refused := Next(w, Answered(i, code));
            (forall steps :: ByOthers(steps, i) && RunAll(refused, steps).lock.None?
               ==> LogsInAsDocumented(RunAll(refused, steps), i))
            <==> w.session == w.tasks[i].carried
  {
    var refused := Next(w, Answered(i, code));
    var t := refused.tasks[i];
    assert t.pc == Queued(Refused(w.session, w.tasks[i].pc.retry)) && t.carried == w.tasks[i].carried;
    NextGood(w, Answered(i, code));
    hide RunAll, Good, ByOthers;
    forall steps | ByOthers(steps, i) && RunAll(refused, steps).lock.None? && w.session == t.carried
      ensures LogsInAsDocumented(RunAll(refused, steps), i)
    {
      OthersLeaveTask(refused, steps, i);
    }
    if w.session != t.carried {
      var steps := HolderGivesUp(refused, i);
      assert !LogsInAsDocumented(RunAll(refused, steps), i);
    }
  }

  // ----- Collapse by the id a request carried -------------------------------------------------------

  /** The id carried by the request whose re-login this step settles well, if it settles one. */
  function CarrierOf(w: World, step: Step): seq<u64> {
    if step.LoginAnswered? && step.task < |w.tasks| && IsSuccess(step.code) && step.id.Some?
       && w.tasks[step.task].pc.LoggingIn? && w.tasks[step.task].pc.cause.Refused?
    then [w.tasks[step.task].carried] else []
  }

  function Carriers(w: World, steps: seq<Step>): seq<u64>
    decreases |steps|
  {
    if steps == [] then [] else CarrierOf(w, steps[0]) + Carriers(Next(w, steps[0]), steps[1..])
  }

  /** Every refusal in the run comes while the id the request carried is in force. */
  ghost predicate RefusedInTime(w: World, steps: seq<Step>)
    decreases |steps|
  {
    steps == [] || (InTime(w, steps[0]) && RefusedInTime(Next(w, steps[0]), steps[1..]))
  }

  ghost predicate InTime(w: World, step: Step) {
    step.Answered? && step.task < |w.tasks| && w.tasks[step.task].pc.Asking? && Refuses(step.code)
    ==> w.session == w.tasks[step.task].carried
  }

  /** Whoever waits or logs in after a refusal has the id its request carried as its snapshot. */
  ghost predicate SnapshotsCarried(w: World) {
    forall i :: 0 <= i < |w.tasks| ==> SnapshotCarried(w.tasks[i])
  }

  ghost predicate SnapshotCarried(t: Task) {
    && (t.pc.Queued? && t.pc.cause.Refused? ==> t.pc.cause.stale == t.carried)
    && (t.pc.LoggingIn? && t.pc.cause.Refused? ==> t.pc.cause.stale == t.carried)
  }

  lemma StepCarries(w: World, step: Step)
    requires SnapshotsCarried(w) && InTime(w, step)
    ensures SnapshotsCarried(Next(w, step))
    ensures Next(w, step).collapsed == w.collapsed + CarrierOf(w, step)
  {
    var i := step.task;
    if i < |w.tasks| {
      assert SnapshotCarried(w.tasks[i]);
      TaskCarries(w, step);
      forall j | 0 <= j < |Next(w, step).tasks|
        ensures SnapshotCarried(Next(w, step).tasks[j])
      {
        if j != i {
          assert Next(w, step).tasks[j] == w.tasks[j];
        }
      }
    }
  }

  lemma TaskCarries(w: World, step: Step)
    requires step.task < |w.tasks| && SnapshotCarried(w.tasks[step.task]) && InTime(w, step)
    ensures |Next(w, step).tasks| == |w.tasks| && SnapshotCarried(Next(w, step).tasks[step.task])
    ensures Next(w, step).collapsed == w.collapsed + CarrierOf(w, step)
  {
  }

  lemma {:induction false} RunCarries(w: World, steps: seq<Step>)
    requires SnapshotsCarried(w) && RefusedInTime(w, steps)
    ensures RunAll(w, steps).collapsed == w.collapsed + Carriers(w, steps)
    decreases |steps|
  {
    hide Next, SnapshotsCarried, InTime, CarrierOf;
    if steps == [] {
      assert w.collapsed + [] == w.collapsed;
    } else {
      var w1 := Next(w, steps[0]);
      StepCarries(w, steps[0]);
      RunCarries(w1, steps[1..]);
      assert w.collapsed + CarrierOf(w, steps[0]) + Carriers(w1, steps[1..])
          == w.collapsed + (CarrierOf(w, steps[0]) + Carriers(w1, steps[1..]));
    }
  }

  /**
   In runs whose refusals all come in time, the requests that carried an id log in, between them,
   at most as often as that id came into force: once, if the device never hands out an id twice.
   */
  lemma CollapseByCarriedId(session: u64, tasks: nat, steps: seq<Step>, x: u64)
    requires RefusedInTime(NewWorld(session, tasks), steps)
    ensures var w := NewWorld(session, tasks);
            && Count(Carriers(w, steps), x) <= Count(RunAll(w, steps).arrived, x)
            && (NeverTwice(RunAll(w, steps).arrived) ==> Count(Carriers(w, steps), x) <= 1)
  {
    var w := NewWorld(session, tasks);
    assert SnapshotsCarried(w);
    hide RunAll, Count, Carriers, RefusedInTime, NeverTwice, SnapshotsCarried;
    RunCarries(w, steps);
    assert [] + Carriers(w, steps) == Carriers(w, steps);
    EveryRunIsGood(session, tasks, steps);
    if NeverTwice(RunAll(w, steps).arrived) {
      DistinctCount(RunAll(w, steps).arrived, x);
    }
  }

  /**
   First logins never yield: a task that found no session logs in when its turn comes, whatever
   the others did meanwhile and whatever id is in force by then.
   */
  lemma FirstLoginNeverYields(w: World, i: nat, steps: seq<Step>, id: u64)
    requires i < |w.tasks| && w.tasks[i].pc == Queued(Initial) && ByOthers(steps, i)
    requires RunAll(w, steps).lock.None?
    ensures var v := RunAll(w, steps);
            var mine := Next(v, Acquire(i));
            && i < |mine.tasks|
            && mine.tasks[i].pc == LoggingIn(Initial, true) && mine.lock == Some(i)
            && Next(mine, LoginAnswered(i, 200, Some(id))).arrived == v.arrived + [id]
  {
    OthersLeaveTask(w, steps, i);
  }
}
