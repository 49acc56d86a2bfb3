/**
 Which reply can reach which exchange.

 While fewer than 2^32 + 1 XIDs have been taken, an answer always arrived while its own
 exchange was running. One XID more and the guarantee is gone, as `WrapHandsStaleReply` shows.
 */
module CompanionCorrelation {
  import opened Bytes
  import opened CompanionCodec
  import opened CompanionDelivery
  import opened CompanionMessage
  import opened CompanionProtocol
  import opened CompanionRuns
  import opened OpackDe
  import opened OpackTables
  import opened OpackValue
  import opened Wrappers

  /** How many XIDs after `start` the XID `x` is taken. */
  function Offset(start: u32, x: u32): nat {
    (x + U32_LIMIT - start) % U32_LIMIT
  }

  lemma OffsetOfNext(start: u32, n: nat)
    requires n < U32_LIMIT
    ensures Offset(start, WrappingAdd(start, n)) == n
    ensures WrappingAdd(WrappingAdd(start, n), 1) == WrappingAdd(start, n + 1)
  {
  }

  /** Every exchange has its own XID, has begun, and is over unless it is the one waiting. */
  ghost predicate Timed(start: u32, r: Run) {
    && r.core.xid == WrappingAdd(start, r.issued)
    && (forall x :: x in r.begun ==> Offset(start, x) < r.issued && r.begun[x] <= |r.frames|)
    && (forall x :: x in r.core.outstanding ==> x in r.begun)
    && (forall x :: x in r.ended ==> x in r.begun && r.begun[x] <= r.ended[x] <= |r.frames|)
    && (forall x :: x in r.begun ==> x in r.ended || r.waiting == Some(Xid(x)))
    && (r.waiting.Some? && r.waiting.value.Xid? ==>
          r.waiting.value.xid in r.begun && r.waiting.value.xid !in r.ended)
  }

  /** Every answer arrived between the beginning and the end of the exchange it was handed to. */
  ghost predicate InTime(r: Run) {
    forall k :: 0 <= k < |r.answers| && r.answers[k].awaiting.Xid? ==>
      var x := r.answers[k].awaiting.xid;
      x in r.begun && x in r.ended && r.begun[x] <= r.answers[k].frame < r.ended[x]
  }

  ghost predicate Correlated(start: u32, r: Run) {
    Timed(start, r) && InTime(r)
  }

  lemma IssuedOutstanding(s: Core, x: u32)
    requires Tracked(s)
    ensures forall y :: y in IssueXid(s, x).outstanding ==> y == x || y in s.outstanding
  {
    EvictShrinks(s);
  }

  /** While XIDs are fresh, no exchange is ever answered from the stash. */
  lemma StashNeverServes(p: Params, start: u32, r: Run)
    requires Safe(p, r) && Timed(start, r) && r.issued < U32_LIMIT
    ensures r.core.xid !in r.begun && r.core.xid !in Issue(r).core.stash
  {
    hide Conserved, AnswersAccounted, Eventful, IssueXid;
    var x := r.core.xid;
    OffsetOfNext(start, r.issued);
    IssueTracksFrom(r.core, WrappingAdd(x, 1), x);
    assert Shrunk(r.core, Issue(r).core);
  }

  lemma BeginCorrelated(p: Params, start: u32, r: Run, sent: bool)
    requires Safe(p, r) && Correlated(start, r) && r.issued < U32_LIMIT && r.waiting.None?
    ensures Correlated(start, BeginExchange(r, sent))
  {
    hide Safe, IssueXid, Settle;
    var x := r.core.xid;
    StashNeverServes(p, start, r);
    OffsetOfNext(start, r.issued);
    SafeTracks(p, r);
    IssuedOutstanding(r.core.(xid := WrappingAdd(x, 1)), x);
    var r' := BeginExchange(r, sent);
    IssueKeepsXid(r.core.(xid := WrappingAdd(x, 1)), x);
    assert r'.begun == r.begun[x := |r.frames|];
    assert r'.answers == r.answers;
    assert x !in r.ended;
  }

  lemma IssueKeepsXid(s: Core, x: u32)
    requires Tracked(s)
    ensures IssueXid(s, x).xid == s.xid
  {
    EvictShrinks(s);
  }

  /** Ending the exchange that waits, with or without forgetting its XID. */
  lemma EndCorrelated(start: u32, r: Run, core: Core, x: u32)
    requires Correlated(start, r) && r.waiting == Some(Xid(x))
    requires core.xid == r.core.xid && forall y :: y in core.outstanding ==> y in r.core.outstanding
    ensures Correlated(start, End(WithCore(r, core), x))
    ensures Correlated(start, End(r, x))
  {
    hide Settle;
  }

  lemma ReceiveCorrelated(p: Params, start: u32, r: Run, f: Frame)
    requires Correlated(start, r)
    ensures Correlated(start, ReceiveFrame(p, r, f))
  {
    hide Settle, Decoded, Classify;
    match Classify(p, r.core.outstanding, r.waiting, f)
    case Hand(v) =>
      if r.waiting.Some? && r.waiting.value.Xid? {
        HandCorrelated(start, r, f, r.waiting.value.xid, v);
      }
    case Keep(x, v) =>
    case Publish(event) =>
    case Drop =>
  }

  lemma HandCorrelated(start: u32, r: Run, f: Frame, x: u32, v: Value)
    requires Correlated(start, r) && r.waiting == Some(Xid(x))
    ensures Correlated(start, HandFrame(r, f, Xid(x), v))
  {
    hide Settle;
    var r' := HandFrame(r, f, Xid(x), v);
    assert r'.ended == r.ended[x := |r.frames| + 1];
    assert r'.begun == r.begun;
    forall k | 0 <= k < |r'.answers| && r'.answers[k].awaiting.Xid?
      ensures var y := r'.answers[k].awaiting.xid;
              y in r'.begun && y in r'.ended && r'.begun[y] <= r'.answers[k].frame < r'.ended[y]
    {
      if k < |r.answers| {
        assert r'.answers[k] == r.answers[k];
      }
    }
  }

  lemma NextCorrelated(p: Params, start: u32, r: Run, step: Step)
    requires Safe(p, r) && Correlated(start, r)
    requires Next(p, r, step).issued <= U32_LIMIT
    ensures Correlated(start, Next(p, r, step))
  {
    hide Safe, BeginExchange, ReceiveFrame, Settle;
    match step
    case Begin(sent) =>
      BeginIssues(r, sent);
      if r.waiting.None? {
        BeginCorrelated(p, start, r, sent);
      }
    case BeginAuth(t, stamped, sent) => StampAdvances(start, r.issued);
    case SendEvent(stamped) => StampAdvances(start, r.issued);
    case Arrive(f) => ReceiveCorrelated(p, start, r, f);
    case Expire =>
      if r.waiting.Some? && r.waiting.value.Xid? {
        EndCorrelated(start, r, ResolveXid(r.core, r.waiting.value.xid), r.waiting.value.xid);
      }
    case Cancel =>
      if r.waiting.Some? && r.waiting.value.Xid? {
        EndCorrelated(start, r, r.core, r.waiting.value.xid);
      }
    case Close =>
  }

  lemma BeginIssues(r: Run, sent: bool)
    ensures BeginExchange(r, sent).issued == r.issued + 1
  {
  }

  lemma StampAdvances(start: u32, n: nat)
    ensures WrappingAdd(WrappingAdd(start, n), 1) == WrappingAdd(start, n + 1)
  {
  }

  lemma IssuedGrows(p: Params, r: Run, step: Step)
    ensures r.issued <= Next(p, r, step).issued
  {
    hide Classify, IssueXid, Settle;
  }

  lemma {:induction false} IssuedGrowsAlong(p: Params, r: Run, steps: seq<Step>)
    ensures r.issued <= RunAll(p, r, steps).issued
    decreases |steps|
  {
    hide Next;
    if steps == [] {
    } else {
      IssuedGrows(p, r, steps[0]);
      IssuedGrowsAlong(p, Next(p, r, steps[0]), steps[1..]);
    }
  }

  lemma {:induction false} RunCorrelated(p: Params, start: u32, r: Run, steps: seq<Step>)
    requires Safe(p, r) && Correlated(start, r)
    requires RunAll(p, r, steps).issued <= U32_LIMIT
    ensures Correlated(start, RunAll(p, r, steps))
    decreases |steps|
  {
    hide Next, Safe, Correlated;
    if steps == [] {
    } else {
      var r1 := Next(p, r, steps[0]);
      IssuedGrowsAlong(p, r1, steps[1..]);
      NextSafe(p, r, steps[0]);
      NextCorrelated(p, start, r, steps[0]);
      RunCorrelated(p, start, r1, steps[1..]);
    }
  }

  /** No reply for an exchange that was already over when it arrived is handed to any exchange. */
  ghost predicate LateRepliesUnused(p: Params, r: Run) {
    forall i, x ::
      (0 <= i < |r.frames| && i < |r.fates| && x in r.ended && r.ended[x] <= i && ReplyFor(p, x, r.frames[i]))
      ==> !(r.fates[i].Handed? && r.fates[i].to.Xid?)
  }

  ghost predicate ReplyFor(p: Params, x: u32, f: Frame) {
    Decoded(p, f).Some? && ResponseFor(x, Decoded(p, f).value)
  }

  /**
   In every run that takes at most 2^32 XIDs, a frame handed to an exchange carries that
   exchange's XID and arrived while it was running; so a reply that arrives once its exchange
   is over, however it ended, is never handed to anyone.
   */
  lemma {:induction false} LateRepliesReachNobody(p: Params, start: u32, steps: seq<Step>)
    requires RunAll(p, StartRun(start), steps).issued <= U32_LIMIT
    ensures InTime(RunAll(p, StartRun(start), steps))
    ensures LateRepliesUnused(p, RunAll(p, StartRun(start), steps))
  {
    hide RunAll, Next, Safe, Correlated, InTime, LateRepliesUnused;
    StartSafe(p, start);
    StartCorrelated(start);
    RunCorrelated(p, start, StartRun(start), steps);
    EveryRunIsSafe(p, start, steps);
    InTimeMeansUnused(p, start, RunAll(p, StartRun(start), steps));
  }

  lemma InTimeMeansUnused(p: Params, start: u32, r: Run)
    requires Safe(p, r) && Correlated(start, r)
    ensures InTime(r) && LateRepliesUnused(p, r)
  {
    hide Decoded, Conserved, Eventful, Tracked, ResponseFor, Timed;
    forall i, x | 0 <= i < |r.frames| && i < |r.fates| && x in r.ended && r.ended[x] <= i && ReplyFor(p, x, r.frames[i])
      ensures !(r.fates[i].Handed? && r.fates[i].to.Xid?)
    {
      if r.fates[i].Handed? && r.fates[i].to.Xid? {
        var k :| 0 <= k < |r.answers| && r.answers[k].frame == i;
        OneXid(x, r.fates[i].to.xid, Decoded(p, r.frames[i]).value);
      }
    }
  }

  lemma OneXid(x: u32, y: u32, v: Value)
    requires ResponseFor(x, v) && ResponseFor(y, v)
    ensures x == y
  {
  }

  lemma StartCorrelated(start: u32)
    ensures Correlated(start, StartRun(start))
  {
  }

  /**
   In every run, an exchange that succeeds returns a dictionary carrying its own XID and no
   error message; an answer fails exactly when it has one.
   */
  lemma {:induction false} SuccessCarriesOwnXid(p: Params, start: u32, steps: seq<Step>, k: nat)
    requires k < |RunAll(p, StartRun(start), steps).answers|
    requires RunAll(p, StartRun(start), steps).answers[k].awaiting.Xid?
    ensures var answer := RunAll(p, StartRun(start), steps).answers[k];
            && answer.value.Dict?
            && ReadXid(answer.value) == Some(answer.awaiting.xid)
            && (Judge(Outcome.Answered(answer.value)).Ok? <==> Get(answer.value, KeyErrorMessage()).None?)
            && (Judge(Outcome.Answered(answer.value)).Ok? ==> Judge(Outcome.Answered(answer.value)).value == answer.value)
  {
    hide RunAll, Conserved, Eventful, Tracked, Decoded;
    EveryRunIsSafe(p, start, steps);
  }

  // ----- The bound is exact -----------------------------------------------------------------------

  function Events(n: nat): (s: seq<Step>)
    ensures |s| == n
  {
    seq(n, _ => SendEvent(true))
  }

  lemma {:induction false} EventsAdvance(p: Params, r: Run, n: nat)
    requires r.waiting.None?
    ensures RunAll(p, r, Events(n)) == r.(core := r.core.(xid := WrappingAdd(r.core.xid, n)), issued := r.issued + n)
    decreases n
  {
    if n == 0 {
    } else {
      var r1 := Next(p, r, SendEvent(true));
      assert Events(n)[0] == SendEvent(true) && Events(n)[1..] == Events(n - 1);
      EventsAdvance(p, r1, n - 1);
      WrapAdds(r.core.xid, n - 1);
    }
  }

  lemma WrapAdds(x: u32, n: nat)
    ensures WrappingAdd(WrappingAdd(x, 1), n) == WrappingAdd(x, n + 1)
  {
  }

  lemma {:induction false} RunAllAppend(p: Params, r: Run, a: seq<Step>, b: seq<Step>)
    ensures RunAll(p, r, a + b) == RunAll(p, RunAll(p, r, a), b)
    decreases |a|
  {
    hide Next;
    if a == [] {
      assert a + b == b;
    } else {
      assert (a + b)[1..] == a[1..] + b && (a + b)[0] == a[0];
      RunAllAppend(p, Next(p, r, a[0]), a[1..], b);
    }
  }

  /** A request is cancelled, its reply comes late, and 2^32 - 1 events later its XID comes round again. */
  function WrapScript(f: Frame): seq<Step> {
    [Begin(true), Cancel, Arrive(f)] + Events(U32_LIMIT - 1) + [Begin(true)]
  }

  lemma RunThree(p: Params, r: Run, a: Step, b: Step, c: Step)
    ensures RunAll(p, r, [a, b, c]) == Next(p, Next(p, Next(p, r, a), b), c)
  {
    hide Next;
    assert [a, b, c][1..] == [b, c] && [b, c][1..] == [c];
    assert RunAll(p, Next(p, r, a), [b, c]) == RunAll(p, Next(p, Next(p, r, a), b), [c]);
    RunOne(p, Next(p, Next(p, r, a), b), c);
  }

  lemma RunOne(p: Params, r: Run, a: Step)
    ensures RunAll(p, r, [a]) == Next(p, r, a)
  {
    hide Next;
  }

  /** The late reply is kept, because a cancelled wait leaves its XID outstanding. */
  lemma CancelledReplyIsHeld(p: Params, start: u32, f: Frame, v: Value)
    requires Classify(p, [start], None, f) == Verdict.Keep(start, v)
    ensures RunAll(p, StartRun(start), [Begin(true), Cancel, Arrive(f)])
         == Run(Core(WrappingAdd(start, 1), [start], map[start := v], []), None, [f], [Held(start)],
                map[start := 0], [], 1, map[start := 0], map[start := 0])
  {
    hide Classify;
    RunThree(p, StartRun(start), Begin(true), Cancel, Arrive(f));
    var r1 := Next(p, StartRun(start), Begin(true));
    assert r1 == Run(Core(WrappingAdd(start, 1), [start], map[], []), Some(Xid(start)), [], [], map[], [], 1, map[start := 0], map[]);
    var r2 := Next(p, r1, Cancel);
    assert r2 == r1.(waiting := None, ended := map[start := 0]);
    var r3 := Next(p, r2, Arrive(f));
    assert r3.fates == [Held(start)] && r3.origin == map[start := 0];
  }

  /** Taking an XID that has a stashed reply hands that reply over at once. */
  lemma StashedReplyIsServed(p: Params, r: Run, x: u32, v: Value)
    requires r.core == Core(x, [x], map[x := v], []) && r.origin == map[x := 0] && r.fates == [Held(x)]
    requires r.waiting.None?
    ensures var r' := Next(p, r, Begin(true));
            r'.answers == r.answers + [Answer(Xid(x), 0, v)] && r'.fates == [Handed(Xid(x))]
            && r'.issued == r.issued + 1
  {
    var held := Issue(r);
    assert held.core.stash == map[x := v] && held.origin == map[x := 0] && held.fates == [Held(x)];
  }

  /**
   With one XID more than the bound, a reply that arrived after its exchange had ended is handed
   to a later exchange: the guarantee above holds for 2^32 XIDs and for no more.
   */
  lemma {:induction false} WrapHandsStaleReply(p: Params, start: u32)
    requires Plain(p) && SeparatesZeros(p.digest)
    ensures var f := ReplyFrame(start);
            var late := RunAll(p, StartRun(start), [Begin(true), Cancel, Arrive(f)]);
            late.ended == map[start := 0] && late.frames == [f] && late.fates == [Held(start)]
    ensures var f := ReplyFrame(start);
            var r := RunAll(p, StartRun(start), WrapScript(f));
            && r.issued == U32_LIMIT + 1
            && r.answers == [Answer(Xid(start), 0, Canon(ToValue(EmptyReply(start))))]
            && r.fates == [Handed(Xid(start))]
  {
    hide Classify, Next, RunAll, ReplyFrame, Plain, SeparatesZeros, Canon, EmptyReply;
    var f, v := ReplyFrame(start), Canon(ToValue(EmptyReply(start)));
    ReplyIsKept(p, start);
    var early := [Begin(true), Cancel, Arrive(f)];
    CancelledReplyIsHeld(p, start, f, v);
    var r3 := RunAll(p, StartRun(start), early);
    RunAllAppend(p, StartRun(start), early, Events(U32_LIMIT - 1));
    EventsAdvance(p, r3, U32_LIMIT - 1);
    var r4 := RunAll(p, r3, Events(U32_LIMIT - 1));
    RunAllAppend(p, StartRun(start), early + Events(U32_LIMIT - 1), [Begin(true)]);
    RunOne(p, r4, Begin(true));
    StashedReplyIsServed(p, r4, start, v);
  }

  // ----- The exact condition, for any number of XIDs ----------------------------------------------

  /** An answer to an exchange: its frame, how many frames there were when that exchange began. */
  datatype Handout = Handout(xid: u32, frame: nat, began: nat, served: bool)

  /** The answer a step hands to an exchange, if it does; it is served if the exchange found it in the stash. */
  function HandoutsOf(p: Params, r: Run, step: Step): seq<Handout> {
    var s := Next(p, r, step);
    if |s.answers| <= |r.answers| then []
    else
      var answer := s.answers[|r.answers|];
      if answer.awaiting.Xid? && answer.awaiting.xid in s.begun
      then [Handout(answer.awaiting.xid, answer.frame, s.begun[answer.awaiting.xid], step.Begin?)] else []
  }

  function Handouts(p: Params, r: Run, steps: seq<Step>): seq<Handout>
    decreases |steps|
  {
    if steps == [] then [] else HandoutsOf(p, r, steps[0]) + Handouts(p, Next(p, r, steps[0]), steps[1..])
  }

  /** The answers to exchanges, as opposed to pairing. */
  function ToXids(answers: seq<Answer>): seq<(u32, nat)> {
    if answers == [] then []
    else
      var last := answers[|answers| - 1];
      ToXids(answers[..|answers| - 1]) + if last.awaiting.Xid? then [(last.awaiting.xid, last.frame)] else []
  }

  function Pairs(hs: seq<Handout>): (r: seq<(u32, nat)>)
    ensures |r| == |hs|
  {
    seq(|hs|, i requires 0 <= i < |hs| => (hs[i].xid, hs[i].frame))
  }

  /** Beginning an exchange hands it an answer if and only if one is stashed under its XID. */
  lemma BeginServesIff(p: Params, r: Run)
    requires Safe(p, r) && r.waiting.None?
    ensures |Next(p, r, Begin(true)).answers| > |r.answers| <==> r.core.xid in Issue(r).core.stash
  {
    hide Safe, IssueXid, ResolveXid, Issue, ServeStash;
    var x, issued := r.core.xid, Issue(r);
    IssueSafe(p, r);
    StashedHasOrigin(p, issued, x);
    IssueAnswers(r);
    if x in issued.core.stash {
      ServeLeaves(issued, x);
    }
  }

  lemma IssueAnswers(r: Run)
    ensures Issue(r).answers == r.answers && Issue(r).begun == r.begun[r.core.xid := |r.frames|] && Issue(r).frames == r.frames
  {
  }

  /** An exchange that waits began when no more frames had arrived than now. */
  ghost predicate Begun(r: Run) {
    r.waiting.Some? && r.waiting.value.Xid? ==>
      r.waiting.value.xid in r.begun && r.begun[r.waiting.value.xid] <= |r.frames|
  }

  /** What one step adds: at most one answer, and it is early exactly if it was served. */
  ghost predicate HandsOver(p: Params, r: Run, step: Step) {
    var s, hs := Next(p, r, step), HandoutsOf(p, r, step);
    && Begun(s)
    && r.answers <= s.answers && |s.answers| <= |r.answers| + 1
    && (forall i :: 0 <= i < |hs| ==> (hs[i].frame < hs[i].began <==> hs[i].served))
    && ToXids(s.answers) == ToXids(r.answers) + Pairs(hs)
  }

  lemma OneMore(answers: seq<Answer>, a: Answer)
    ensures ToXids(answers + [a]) == ToXids(answers) + if a.awaiting.Xid? then [(a.awaiting.xid, a.frame)] else []
  {
    assert (answers + [a])[..|answers|] == answers;
  }

  lemma BeginHandsOver(p: Params, r: Run, sent: bool)
    requires Safe(p, r) && Begun(r) && r.waiting.None?
    ensures HandsOver(p, r, Begin(sent))
  {
    hide Safe, IssueXid, ResolveXid, Issue, ServeStash, ToXids;
    var x, issued := r.core.xid, Issue(r);
    IssueSafe(p, r);
    StashedHasOrigin(p, issued, x);
    IssueAnswers(r);
    IssueLeaves(r);
    if sent && x in issued.core.stash {
      ServeLeaves(issued, x);
      ServeBegun(issued, x);
      FatesAreFrames(p, issued);
      OneMore(r.answers, Answer(Xid(x), issued.origin[x], issued.core.stash[x]));
    } else {
      assert ToXids(r.answers) + [] == ToXids(r.answers);
    }
  }

  lemma FatesAreFrames(p: Params, r: Run)
    requires Safe(p, r)
    ensures |r.fates| == |r.frames|
  {
  }

  lemma ServeBegun(r: Run, x: u32)
    requires x in r.core.stash && x in r.origin && r.origin[x] < |r.fates|
    ensures ServeStash(r, x).begun == r.begun && ServeStash(r, x).frames == r.frames
  {
    hide ResolveXid, Settle;
  }

  lemma ArriveHandsOver(p: Params, r: Run, f: Frame)
    requires Begun(r)
    ensures HandsOver(p, r, Arrive(f))
  {
    hide Classify, Settle, ResolveXid, ToXids;
    assert ToXids(r.answers) + [] == ToXids(r.answers);
    match Classify(p, r.core.outstanding, r.waiting, f)
    case Hand(v) =>
      if r.waiting.Some? {
        OneMore(r.answers, Answer(r.waiting.value, |r.frames|, v));
      }
    case Keep(x, v) =>
    case Publish(event) =>
    case Drop =>
  }

  lemma NextHandsOver(p: Params, r: Run, step: Step)
    requires Safe(p, r) && Begun(r)
    ensures HandsOver(p, r, step)
  {
    if step.Begin? && r.waiting.None? {
      BeginHandsOver(p, r, step.sent);
    } else if step.Arrive? {
      ArriveHandsOver(p, r, step.frame);
    } else {
      QuietStep(p, r, step);
      hide Safe, Next, Begun, ToXids;
      assert HandoutsOf(p, r, step) == [];
      assert ToXids(r.answers) + [] == ToXids(r.answers);
    }
  }

  lemma QuietStep(p: Params, r: Run, step: Step)
    requires Begun(r) && !step.Arrive? && !(step.Begin? && r.waiting.None?)
    ensures Begun(Next(p, r, step)) && Next(p, r, step).answers == r.answers
  {
    hide ReceiveFrame, BeginExchange, Settle, ResolveXid;
  }

  lemma {:induction false} RunHandsOver(p: Params, r: Run, steps: seq<Step>)
    requires Safe(p, r) && Begun(r)
    ensures var hs := Handouts(p, r, steps);
            && (forall i :: 0 <= i < |hs| ==> (hs[i].frame < hs[i].began <==> hs[i].served))
            && ToXids(RunAll(p, r, steps).answers) == ToXids(r.answers) + Pairs(hs)
    decreases |steps|
  {
    hide Next, Safe, Begun, HandoutsOf, ToXids;
    if steps == [] {
      assert ToXids(r.answers) + [] == ToXids(r.answers);
    } else {
      var r1 := Next(p, r, steps[0]);
      var first, rest := HandoutsOf(p, r, steps[0]), Handouts(p, r1, steps[1..]);
      NextSafe(p, r, steps[0]);
      NextHandsOver(p, r, steps[0]);
      RunHandsOver(p, r1, steps[1..]);
      assert Pairs(first + rest) == Pairs(first) + Pairs(rest);
      assert ToXids(r.answers) + Pairs(first) + Pairs(rest) == ToXids(r.answers) + (Pairs(first) + Pairs(rest));
    }
  }

  /**
   In every run, whatever the number of XIDs taken: the handouts are exactly the answers to
   exchanges, and an answer arrived before its exchange began if and only if that exchange found
   it in the stash.
   */
  lemma {:induction false} EarlyIffServed(p: Params, start: u32, steps: seq<Step>)
    ensures var hs := Handouts(p, StartRun(start), steps);
            && Pairs(hs) == ToXids(RunAll(p, StartRun(start), steps).answers)
            && forall i :: 0 <= i < |hs| ==> (hs[i].frame < hs[i].began <==> hs[i].served)
  {
    hide RunAll, Handouts, Safe, Pairs;
    StartSafe(p, start);
    RunHandsOver(p, StartRun(start), steps);
    assert ToXids([]) == [];
    assert [] + Pairs(Handouts(p, StartRun(start), steps)) == Pairs(Handouts(p, StartRun(start), steps));
  }

  // ----- The driver's own wait is such a run ---------------------------------------------------------

  /** The steps one wait amounts to: arrivals up to the answer, or to the end of the wait. */
  function WaitScript(p: Params, s: Core, awaiting: Awaiting, feed: seq<Arrival>): seq<Step>
    decreases |feed|
  {
    if feed == [] || feed[0].Lost? then [Expire]
    else
      var (s1, answer) := Dispatch(p, s, Some(awaiting), feed[0].frame);
      [Arrive(feed[0].frame)] + if answer.Some? then [] else WaitScript(p, s1, awaiting, feed[1..])
  }

  /** Waiting as the driver does it leaves the driver as the corresponding steps of a run do. */
  lemma {:induction false} WaitIsRun(p: Params, r: Run, awaiting: Awaiting, feed: seq<Arrival>)
    requires r.waiting == Some(awaiting)
    ensures var (s, outcome) := Await(p, r.core, awaiting, feed);
            var end := RunAll(p, r, WaitScript(p, r.core, awaiting, feed));
            && end.waiting.None?
            && end.core == (if awaiting.Xid? then ResolveXid(s, awaiting.xid) else s)
            && (outcome.Answered? ==> |end.answers| == |r.answers| + 1
                                      && end.answers[|r.answers|].value == outcome.value
                                      && end.answers[|r.answers|].awaiting == awaiting)
            && (!outcome.Answered? ==> end.answers == r.answers)
    decreases |feed|
  {
    hide Decoded, Classify, Settle;
    if feed == [] || feed[0].Lost? {
      assert RunAll(p, r, [Expire]) == Next(p, r, Expire);
    } else {
      var f := feed[0].frame;
      var (s1, answer) := Dispatch(p, r.core, Some(awaiting), f);
      var r1 := Next(p, r, Arrive(f));
      DispatchIsReceive(p, r, f, awaiting);
      var script := WaitScript(p, r.core, awaiting, feed);
      assert script[0] == Arrive(f);
      if answer.Some? {
        assert script[1..] == [];
      } else {
        assert script[1..] == WaitScript(p, s1, awaiting, feed[1..]);
        WaitIsRun(p, r1, awaiting, feed[1..]);
      }
    }
  }

  lemma DispatchIsReceive(p: Params, r: Run, f: Frame, awaiting: Awaiting)
    requires r.waiting == Some(awaiting)
    ensures var (s, answer) := Dispatch(p, r.core, Some(awaiting), f);
            var r' := ReceiveFrame(p, r, f);
            if answer.Some? then
              && r'.core == (if awaiting.Xid? then ResolveXid(s, awaiting.xid) else s)
              && r'.waiting.None?
              && r'.answers == r.answers + [Answer(awaiting, |r.frames|, answer.value)]
            else r'.core == s && r'.waiting == r.waiting && r'.answers == r.answers
  {
    hide Decoded, Settle;
  }

  /** The steps one whole exchange amounts to. */
  function ExchangeScript(p: Params, r: Run, sent: bool, feed: seq<Arrival>): seq<Step> {
    var begun := BeginExchange(r, sent);
    [Begin(sent)] + if begun.waiting.None? then [] else WaitScript(p, begun.core, begun.waiting.value, feed)
  }

  /**
   An exchange as the driver performs it is such a run: it leaves the driver as the run's steps
   do, nobody waiting, and what it returns is the last answer the run handed to its XID.
   */
  lemma {:induction false} ExchangeIsRun(p: Params, r: Run, sent: bool, feed: seq<Arrival>)
    requires Safe(p, r) && r.waiting.None?
    ensures var (s, result) := Exchanged(p, r.core, sent, feed);
            var end := RunAll(p, r, ExchangeScript(p, r, sent, feed));
            && end.waiting.None? && end.core == s
            && (result.Ok? ==> end.answers != [] && end.answers[|end.answers| - 1].awaiting == Xid(r.core.xid)
                               && end.answers[|end.answers| - 1].value == result.value)
  {
    var x, begun := r.core.xid, BeginExchange(r, sent);
    var issued := IssueXid(r.core.(xid := WrappingAdd(x, 1)), x);
    BeginIsIssue(p, r, sent);
    ScriptRuns(p, r, sent, feed);
    hide Safe, Await, WaitScript, IssueXid, ResolveXid, Judge, BeginExchange, RunAll, ExchangeScript;
    if sent && x !in issued.stash {
      WaitIsRun(p, begun, Xid(x), feed);
    } else if sent {
      PumpedFromStash(p, issued, x, feed);
    }
    JudgeReturnsAnswer(Pumped(p, issued, Xid(x), feed).1);
  }

  lemma ScriptRuns(p: Params, r: Run, sent: bool, feed: seq<Arrival>)
    requires r.waiting.None?
    ensures var begun := BeginExchange(r, sent);
            RunAll(p, r, ExchangeScript(p, r, sent, feed))
            == if begun.waiting.None? then begun
               else RunAll(p, begun, WaitScript(p, begun.core, begun.waiting.value, feed))
  {
    hide WaitScript, BeginExchange;
    var begun := BeginExchange(r, sent);
    var rest := if begun.waiting.None? then [] else WaitScript(p, begun.core, begun.waiting.value, feed);
    assert ([Begin(sent)] + rest)[1..] == rest;
    assert Next(p, r, Begin(sent)) == begun;
  }

  /** Beginning an exchange issues its XID, and serves it at once if its answer is already there. */
  lemma BeginIsIssue(p: Params, r: Run, sent: bool)
    requires Safe(p, r) && r.waiting.None?
    ensures var x, b := r.core.xid, BeginExchange(r, sent);
            var issued := IssueXid(r.core.(xid := WrappingAdd(x, 1)), x);
            if !sent then b.core == issued && b.waiting.None?
            else if x in issued.stash then
              && b.core == ResolveXid(issued, x) && b.waiting.None? && b.answers != []
              && b.answers[|b.answers| - 1].awaiting == Xid(x) && b.answers[|b.answers| - 1].value == issued.stash[x]
            else b.core == issued && b.waiting == Some(Xid(x))
  {
    hide Safe, IssueXid, ResolveXid, Issue, ServeStash;
    var x, issued := r.core.xid, Issue(r);
    IssueSafe(p, r);
    StashedHasOrigin(p, issued, x);
    IssueLeaves(r);
    if sent && x in issued.core.stash {
      ServeLeaves(issued, x);
    }
  }

  lemma IssueLeaves(r: Run)
    ensures Issue(r).core == IssueXid(r.core.(xid := WrappingAdd(r.core.xid, 1)), r.core.xid)
    ensures Issue(r).waiting == r.waiting
  {
    hide IssueXid, Settle;
  }

  lemma ServeLeaves(r: Run, x: u32)
    requires x in r.core.stash && x in r.origin && r.origin[x] < |r.fates|
    ensures var b := ServeStash(r, x);
            && b.core == ResolveXid(r.core, x) && b.waiting.None?
            && b.answers == r.answers + [Answer(Xid(x), r.origin[x], r.core.stash[x])]
  {
    hide ResolveXid, Settle;
  }

  lemma JudgeReturnsAnswer(outcome: Outcome)
    ensures Judge(outcome).Ok? ==> outcome.Answered? && Judge(outcome).value == outcome.value
  {
  }

  lemma StashedHasOrigin(p: Params, r: Run, x: u32)
    requires Safe(p, r)
    ensures x in r.core.stash ==> x in r.origin && r.origin[x] < |r.fates|
  {
  }
}
