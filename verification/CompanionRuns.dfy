/**
 Whole runs of the Companion driver.

 A run is any interleaving of exchanges (whose send may fail), pairing exchanges, events sent,
 frames arriving, deadlines, cancelled waits and closes. Beside the driver's own state a run
 remembers what arrived, what became of each frame and when each exchange began and ended.
 */
module CompanionRuns {
  import opened Bytes
  import opened CompanionCodec
  import opened CompanionFrame
  import opened CompanionMessage
  import opened CompanionProtocol
  import opened OpackDe
  import opened OpackValue
  import opened Wrappers

  datatype Step =
    | Begin(sent: bool)
    | BeginAuth(frameType: FrameType, stamped: bool, sent: bool)
    | SendEvent(stamped: bool)
    | Arrive(frame: Frame)
    | Expire
    | Cancel
    | Close

  /** What became of a frame that was received. */
  datatype Fate = Handed(to: Awaiting) | Held(xid: u32) | Published | Dropped | Forgotten

  datatype Answer = Answer(awaiting: Awaiting, frame: nat, value: Value)

  datatype Run = Run(
    core: Core,
    waiting: Option<Awaiting>,
    frames: seq<Frame>,      // everything received, in arrival order
    fates: seq<Fate>,        // one fate for each of them
    origin: map<u32, nat>,   // which frame each stashed response came from
    answers: seq<Answer>,    // everything handed to an exchange
    issued: nat,             // how many XIDs have been taken
    begun: map<u32, nat>,    // how many frames had arrived when the exchange of an XID began
    ended: map<u32, nat>)    // and when it ended, however it ended

  function StartRun(xid: u32): Run {
    Run(Core(xid, [], map[], []), None, [], [], map[], [], 0, map[], map[])
  }

  // ----- Steps ------------------------------------------------------------------------------

  /** Held frames whose stash entry is gone are forgotten. */
  function Settle(fates: seq<Fate>, keys: set<u32>): (r: seq<Fate>)
    ensures |r| == |fates|
    ensures forall i :: 0 <= i < |fates| ==>
              r[i] == if fates[i].Held? && fates[i].xid !in keys then Forgotten else fates[i]
  {
    seq(|fates|, i requires 0 <= i < |fates| =>
      if fates[i].Held? && fates[i].xid !in keys then Forgotten else fates[i])
  }

  /** The run with another driver state, whose stash may have lost entries. */
  function WithCore(r: Run, core: Core): Run {
    r.(core := core, fates := Settle(r.fates, core.stash.Keys),
       origin := map x | x in r.origin && x in core.stash :: r.origin[x])
  }

  function End(r: Run, xid: u32): Run {
    r.(ended := r.ended[xid := |r.frames|], waiting := None)
  }

  function Resolve(r: Run, xid: u32): Run {
    End(WithCore(r, ResolveXid(r.core, xid)), xid)
  }

  function Stamp(r: Run, stamped: bool): Run {
    if stamped then r.(core := r.core.(xid := WrappingAdd(r.core.xid, 1)), issued := r.issued + 1) else r
  }

  function Issue(r: Run): Run {
    var x := r.core.xid;
    WithCore(r, IssueXid(r.core.(xid := WrappingAdd(x, 1)), x)).(issued := r.issued + 1, begun := r.begun[x := |r.frames|])
  }

  /** An exchange whose answer is already in the stash. */
  function ServeStash(r: Run, x: u32): Run
    requires x in r.core.stash && x in r.origin && r.origin[x] < |r.fates|
  {
    Resolve(r.(fates := r.fates[r.origin[x] := Handed(Xid(x))],
               answers := r.answers + [Answer(Xid(x), r.origin[x], r.core.stash[x])]), x)
  }

  function BeginExchange(r: Run, sent: bool): Run {
    var x := r.core.xid;
    var issued := Issue(r);
    if !sent then End(issued, x)
    else if x in issued.core.stash && x in issued.origin && issued.origin[x] < |issued.fates| then ServeStash(issued, x)
    else issued.(waiting := Some(Xid(x)))
  }

  function HandFrame(r: Run, f: Frame, a: Awaiting, v: Value): Run {
    var handed := r.(frames := r.frames + [f], fates := r.fates + [Handed(a)],
                     answers := r.answers + [Answer(a, |r.frames|, v)]);
    if a.Xid? then Resolve(handed, a.xid) else handed.(waiting := None)
  }

  function KeepFrame(r: Run, f: Frame, x: u32, v: Value): Run {
    var cleared := WithCore(r, r.core.(stash := r.core.stash - {x}));
    cleared.(core := r.core.(stash := r.core.stash[x := v]), frames := r.frames + [f],
             fates := cleared.fates + [Held(x)], origin := cleared.origin[x := |r.frames|])
  }

  function ReceiveFrame(p: Params, r: Run, f: Frame): Run {
    match Classify(p, r.core.outstanding, r.waiting, f)
    case Hand(v) => if r.waiting.Some? then HandFrame(r, f, r.waiting.value, v) else r
    case Keep(x, v) => KeepFrame(r, f, x, v)
    case Publish(event) => r.(frames := r.frames + [f], fates := r.fates + [Published],
                              core := r.core.(events := r.core.events + [event]))
    case Drop => r.(frames := r.frames + [f], fates := r.fates + [Dropped])
  }

  /** Only one exchange is ever in flight, so nothing else begins while one waits. */
  function Next(p: Params, r: Run, step: Step): Run {
    match step
    case Begin(sent) => if r.waiting.Some? then r else BeginExchange(r, sent)
    case BeginAuth(t, stamped, sent) =>
      if r.waiting.Some? then r
      else Stamp(r, stamped).(waiting := if sent then Some(Auth(t.ResponseType())) else None)
    case SendEvent(stamped) => if r.waiting.Some? then r else Stamp(r, stamped)
    case Arrive(f) => ReceiveFrame(p, r, f)
    case Expire =>
      if r.waiting.None? then r
      else if r.waiting.value.Xid? then Resolve(r, r.waiting.value.xid)
      else r.(waiting := None)
    case Cancel =>
      if r.waiting.None? then r
      else if r.waiting.value.Xid? then End(r, r.waiting.value.xid)
      else r.(waiting := None)
    case Close => if r.waiting.Some? then r else WithCore(r, r.core.(outstanding := [], stash := map[]))
  }

  function RunAll(p: Params, r: Run, steps: seq<Step>): Run
    decreases |steps|
  {
    if steps == [] then r else RunAll(p, Next(p, r, steps[0]), steps[1..])
  }

  // ----- What every step keeps ---------------------------------------------------------------

  /** The bookkeeping bound: at most 16 XIDs are tracked and only those can be stashed. */
  ghost predicate Tracked(s: Core) {
    && |s.outstanding| <= 16
    && forall x :: x in s.stash ==> x in s.outstanding
  }

  /** A response as it is handed out: a dictionary carrying this XID. */
  ghost predicate ResponseFor(x: u32, v: Value) {
    v.Dict? && ReadXid(v) == Some(x)
  }

  /** Every frame has one fate, and the held ones are exactly the stash. */
  ghost predicate Conserved(p: Params, r: Run) {
    && |r.fates| == |r.frames|
    && r.origin.Keys == r.core.stash.Keys
    && (forall x :: x in r.origin ==>
          && r.origin[x] < |r.frames| && r.fates[r.origin[x]] == Held(x)
          && Decoded(p, r.frames[r.origin[x]]) == Some(r.core.stash[x])
          && ResponseFor(x, r.core.stash[x]))
    && (forall i :: 0 <= i < |r.fates| && r.fates[i].Held? ==>
          r.fates[i].xid in r.origin && r.origin[r.fates[i].xid] == i)
  }

  /** Answers are exactly the handed frames, each handed once, each a response for its XID. */
  ghost predicate AnswersAccounted(p: Params, r: Run) {
    && |r.fates| == |r.frames|
    && (forall k :: 0 <= k < |r.answers| ==>
          && r.answers[k].frame < |r.frames|
          && r.fates[r.answers[k].frame] == Handed(r.answers[k].awaiting)
          && Decoded(p, r.frames[r.answers[k].frame]) == Some(r.answers[k].value)
          && (r.answers[k].awaiting.Xid? ==> ResponseFor(r.answers[k].awaiting.xid, r.answers[k].value)))
    && (forall i :: 0 <= i < |r.fates| && r.fates[i].Handed? ==>
          exists k :: 0 <= k < |r.answers| && r.answers[k].frame == i)
    && (forall j, k :: 0 <= j < k < |r.answers| ==> r.answers[j].frame != r.answers[k].frame)
  }

  /** The event a frame carries, if it is a decodable event with an identifier. */
  function EventOf(p: Params, f: Frame): seq<CompanionEvent> {
    match Classify(p, [], None, f)
    case Publish(event) => [event]
    case _ => []
  }

  function EventsOf(p: Params, frames: seq<Frame>): seq<CompanionEvent> {
    if frames == [] then []
    else EventsOf(p, frames[..|frames| - 1]) + EventOf(p, frames[|frames| - 1])
  }

  /** Events are published exactly for the frames that carry one, in arrival order. */
  ghost predicate Eventful(p: Params, r: Run) {
    && |r.fates| == |r.frames|
    && r.core.events == EventsOf(p, r.frames)
    && forall i :: 0 <= i < |r.frames| ==> (r.fates[i] == Published <==> EventOf(p, r.frames[i]) != [])
  }

  ghost predicate Safe(p: Params, r: Run) {
    Tracked(r.core) && Conserved(p, r) && AnswersAccounted(p, r) && Eventful(p, r)
  }

  // ----- Helpers about the driver's state -------------------------------------------------------

  /** `t` has lost stash entries and gained none. */
  ghost predicate Shrunk(s: Core, t: Core) {
    t.events == s.events && forall x :: x in t.stash ==> x in s.stash && t.stash[x] == s.stash[x]
  }

  lemma {:induction false} EvictShrinks(s: Core)
    requires forall x :: x in s.stash ==> x in s.outstanding
    ensures Shrunk(s, Evict(s)) && |Evict(s).outstanding| < 16 && Evict(s).xid == s.xid
    ensures forall x :: x in Evict(s).stash ==> x in Evict(s).outstanding
    ensures forall x :: x in Evict(s).outstanding ==> x in s.outstanding
    decreases |s.outstanding|
  {
    if |s.outstanding| < 16 {
    } else {
      EvictShrinks(s.(outstanding := s.outstanding[1..], stash := s.stash - {s.outstanding[0]}));
    }
  }

  lemma IssueTracks(s: Core, x: u32)
    requires Tracked(s)
    ensures Tracked(IssueXid(s, x)) && Shrunk(s, IssueXid(s, x))
  {
    EvictShrinks(s);
  }

  lemma ResolveTracks(s: Core, x: u32)
    requires Tracked(s)
    ensures Tracked(ResolveXid(s, x)) && Shrunk(s, ResolveXid(s, x))
  {
  }

  /** Losing stash entries keeps the account of fates straight. */
  lemma WithCoreSafe(p: Params, r: Run, core: Core)
    requires Safe(p, r) && Shrunk(r.core, core) && Tracked(core)
    ensures Safe(p, WithCore(r, core))
  {
    hide Decoded, EventsOf, EventOf, ResponseFor;
    var r' := WithCore(r, core);
    assert Conserved(p, r') by {
      assert r'.origin.Keys == core.stash.Keys;
    }
    assert AnswersAccounted(p, r') by {
      forall i | 0 <= i < |r'.fates| && r'.fates[i].Handed?
        ensures exists k :: 0 <= k < |r'.answers| && r'.answers[k].frame == i
      {
        assert r.fates[i].Handed?;
      }
    }
  }

  lemma EventsOfAppend(p: Params, frames: seq<Frame>, f: Frame)
    ensures EventsOf(p, frames + [f]) == EventsOf(p, frames) + EventOf(p, f)
  {
    hide EventOf;
    assert (frames + [f])[..|frames|] == frames;
  }

  /** What each verdict says about the frame, whoever is waiting. */
  lemma VerdictMeans(p: Params, outstanding: seq<u32>, awaiting: Option<Awaiting>, f: Frame)
    ensures match Classify(p, outstanding, awaiting, f)
            case Hand(v) => awaiting.Some? && Decoded(p, f) == Some(v) && EventOf(p, f) == []
                            && (awaiting.value.Xid? ==> ResponseFor(awaiting.value.xid, v))
            case Keep(x, v) => x in outstanding && Decoded(p, f) == Some(v) && ResponseFor(x, v)
                               && EventOf(p, f) == [] && awaiting != Some(Xid(x))
            case Publish(event) => EventOf(p, f) == [event]
            case Drop => EventOf(p, f) == []
  {
    hide Decoded, GetU64, GetStr, ReadContent, ReadError;
  }

  // ----- Each step keeps the account straight -----------------------------------------------------

  lemma PublishSafe(p: Params, r: Run, f: Frame, event: CompanionEvent)
    requires Safe(p, r) && EventOf(p, f) == [event]
    ensures Safe(p, r.(frames := r.frames + [f], fates := r.fates + [Published],
                       core := r.core.(events := r.core.events + [event])))
  {
    hide Decoded, EventsOf, EventOf, ResponseFor;
    EventsOfAppend(p, r.frames, f);
    FateAppended(p, r, f, Published);
  }

  lemma DropSafe(p: Params, r: Run, f: Frame)
    requires Safe(p, r) && EventOf(p, f) == []
    ensures Safe(p, r.(frames := r.frames + [f], fates := r.fates + [Dropped]))
  {
    hide Decoded, EventsOf, EventOf, ResponseFor;
    EventsOfAppend(p, r.frames, f);
    assert EventsOf(p, r.frames) + [] == EventsOf(p, r.frames);
    FateAppended(p, r, f, Dropped);
  }

  /** A frame that is neither handed nor held leaves the stash and the answers as accounted for. */
  lemma FateAppended(p: Params, r: Run, f: Frame, fate: Fate)
    requires Conserved(p, r) && AnswersAccounted(p, r) && (fate == Published || fate == Dropped)
    ensures var r' := r.(frames := r.frames + [f], fates := r.fates + [fate]); Conserved(p, r') && AnswersAccounted(p, r')
  {
    hide Decoded, ResponseFor;
    var r' := r.(frames := r.frames + [f], fates := r.fates + [fate]);
    forall i | 0 <= i < |r'.fates| && r'.fates[i].Handed?
      ensures exists k :: 0 <= k < |r'.answers| && r'.answers[k].frame == i
    {
      assert r.fates[i].Handed?;
    }
  }

  lemma HandedSafe(p: Params, r: Run, f: Frame, a: Awaiting, v: Value)
    requires Safe(p, r) && EventOf(p, f) == [] && Decoded(p, f) == Some(v)
    requires a.Xid? ==> ResponseFor(a.xid, v)
    ensures Safe(p, r.(frames := r.frames + [f], fates := r.fates + [Handed(a)],
                       answers := r.answers + [Answer(a, |r.frames|, v)]))
  {
    HandedConserved(p, r, f, a, v);
    HandedAnswered(p, r, f, a, v);
    SilentEventful(p, r, f, Handed(a));
    hide Conserved, AnswersAccounted, Eventful;
  }

  lemma HandedConserved(p: Params, r: Run, f: Frame, a: Awaiting, v: Value)
    requires Conserved(p, r)
    ensures Conserved(p, r.(frames := r.frames + [f], fates := r.fates + [Handed(a)],
                            answers := r.answers + [Answer(a, |r.frames|, v)]))
  {
    hide Decoded, ResponseFor;
  }

  lemma HandedAnswered(p: Params, r: Run, f: Frame, a: Awaiting, v: Value)
    requires AnswersAccounted(p, r) && Decoded(p, f) == Some(v)
    requires a.Xid? ==> ResponseFor(a.xid, v)
    ensures AnswersAccounted(p, r.(frames := r.frames + [f], fates := r.fates + [Handed(a)],
                                   answers := r.answers + [Answer(a, |r.frames|, v)]))
  {
    hide Decoded, ResponseFor;
    var r' := r.(frames := r.frames + [f], fates := r.fates + [Handed(a)],
                 answers := r.answers + [Answer(a, |r.frames|, v)]);
    forall i | 0 <= i < |r'.fates| && r'.fates[i].Handed?
      ensures exists k :: 0 <= k < |r'.answers| && r'.answers[k].frame == i
    {
      if i < |r.fates| {
        assert r.fates[i].Handed?;
        var k :| 0 <= k < |r.answers| && r.answers[k].frame == i;
        assert r'.answers[k].frame == i;
      } else {
        assert r'.answers[|r.answers|].frame == i;
      }
    }
  }

  /** A frame without an event leaves the events as accounted for. */
  lemma SilentEventful(p: Params, r: Run, f: Frame, fate: Fate)
    requires Eventful(p, r) && EventOf(p, f) == [] && fate != Published
    ensures r.core.events == EventsOf(p, r.frames + [f])
    ensures forall i :: 0 <= i < |r.frames + [f]| ==>
              ((r.fates + [fate])[i] == Published <==> EventOf(p, (r.frames + [f])[i]) != [])
  {
    hide EventOf, EventsOf;
    EventsOfAppend(p, r.frames, f);
    assert EventsOf(p, r.frames) + [] == EventsOf(p, r.frames);
  }

  lemma ResolveSafe(p: Params, r: Run, x: u32)
    requires Safe(p, r)
    ensures Safe(p, Resolve(r, x))
  {
    hide Conserved, AnswersAccounted, Eventful, Tracked, Shrunk;
    ResolveTracks(r.core, x) by {
      SafeTracks(p, r);
    }
    WithCoreSafe(p, r, ResolveXid(r.core, x));
    SameAccount(p, WithCore(r, ResolveXid(r.core, x)), Resolve(r, x));
  }

  lemma SafeTracks(p: Params, r: Run)
    requires Safe(p, r)
    ensures Tracked(r.core)
  {
  }

  /** Safety is about the driver and its frames, not about who is waiting or when exchanges ran. */
  lemma SameAccount(p: Params, r: Run, s: Run)
    requires Safe(p, r)
    requires s == r.(waiting := s.waiting, issued := s.issued, begun := s.begun, ended := s.ended,
                     core := r.core.(xid := s.core.xid))
    ensures Safe(p, s)
  {
    hide Decoded, EventsOf, EventOf, ResponseFor;
  }

  /** A newly stashed response is held, under an XID that has no other. */
  lemma HeldSafe(p: Params, r: Run, f: Frame, x: u32, v: Value)
    requires Safe(p, r) && EventOf(p, f) == [] && Decoded(p, f) == Some(v)
    requires ResponseFor(x, v) && x in r.core.outstanding && x !in r.core.stash
    ensures Safe(p, r.(core := r.core.(stash := r.core.stash[x := v]), frames := r.frames + [f],
                       fates := r.fates + [Held(x)], origin := r.origin[x := |r.frames|]))
  {
    HeldConserved(p, r, f, x, v);
    HeldAnswered(p, r, f, x, v);
    SilentEventful(p, r, f, Held(x));
    hide Conserved, AnswersAccounted, ResponseFor, Decoded, EventOf, EventsOf;
  }

  lemma HeldConserved(p: Params, r: Run, f: Frame, x: u32, v: Value)
    requires Conserved(p, r) && Decoded(p, f) == Some(v) && ResponseFor(x, v) && x !in r.core.stash
    ensures Conserved(p, r.(core := r.core.(stash := r.core.stash[x := v]), frames := r.frames + [f],
                            fates := r.fates + [Held(x)], origin := r.origin[x := |r.frames|]))
  {
    hide Decoded, ResponseFor;
    assert r.origin[x := |r.frames|].Keys == r.origin.Keys + {x};
    assert r.core.stash[x := v].Keys == r.core.stash.Keys + {x};
  }

  lemma HeldAnswered(p: Params, r: Run, f: Frame, x: u32, v: Value)
    requires AnswersAccounted(p, r)
    ensures AnswersAccounted(p, r.(core := r.core.(stash := r.core.stash[x := v]), frames := r.frames + [f],
                           fates := r.fates + [Held(x)], origin := r.origin[x := |r.frames|]))
  {
    hide Decoded, ResponseFor;
    var fates := r.fates + [Held(x)];
    forall i | 0 <= i < |fates| && fates[i].Handed?
      ensures exists k :: 0 <= k < |r.answers| && r.answers[k].frame == i
    {
      assert r.fates[i].Handed?;
    }
  }

  lemma KeepSafe(p: Params, r: Run, f: Frame, x: u32, v: Value)
    requires Safe(p, r) && EventOf(p, f) == [] && Decoded(p, f) == Some(v)
    requires ResponseFor(x, v) && x in r.core.outstanding
    ensures Safe(p, KeepFrame(r, f, x, v))
  {
    hide Safe, Decoded, EventsOf, EventOf, ResponseFor;
    var core := r.core.(stash := r.core.stash - {x});
    SafeTracks(p, r);
    WithCoreSafe(p, r, core);
    HeldSafe(p, WithCore(r, core), f, x, v);
    assert core.stash[x := v] == r.core.stash[x := v];
  }

  lemma ReceiveSafe(p: Params, r: Run, f: Frame)
    requires Safe(p, r)
    ensures Safe(p, ReceiveFrame(p, r, f))
  {
    hide Safe, Classify, Decoded, EventOf, ResponseFor, KeepFrame, Resolve;
    VerdictMeans(p, r.core.outstanding, r.waiting, f);
    match Classify(p, r.core.outstanding, r.waiting, f)
    case Hand(v) =>
      var a := r.waiting.value;
      var handed := r.(frames := r.frames + [f], fates := r.fates + [Handed(a)],
                       answers := r.answers + [Answer(a, |r.frames|, v)]);
      HandedSafe(p, r, f, a, v);
      if a.Xid? {
        ResolveSafe(p, handed, a.xid);
      } else {
        SameAccount(p, handed, handed.(waiting := None));
      }
    case Keep(x, v) => KeepSafe(p, r, f, x, v);
    case Publish(event) => PublishSafe(p, r, f, event);
    case Drop => DropSafe(p, r, f);
  }

  /** A response that has just left the stash may be counted as handed instead of forgotten. */
  lemma ForgottenHanded(p: Params, r: Run, i: nat, x: u32, v: Value)
    requires Safe(p, r) && i < |r.frames| && r.fates[i] == Forgotten
    requires Decoded(p, r.frames[i]) == Some(v) && ResponseFor(x, v)
    ensures Safe(p, r.(fates := r.fates[i := Handed(Xid(x))], answers := r.answers + [Answer(Xid(x), i, v)]))
  {
    hide Decoded, EventsOf, EventOf, ResponseFor;
    var r' := r.(fates := r.fates[i := Handed(Xid(x))], answers := r.answers + [Answer(Xid(x), i, v)]);
    assert AnswersAccounted(p, r') by {
      forall j | 0 <= j < |r'.fates| && r'.fates[j].Handed?
        ensures exists k :: 0 <= k < |r'.answers| && r'.answers[k].frame == j
      {
        if j == i {
          assert r'.answers[|r.answers|].frame == j;
        } else {
          assert r.fates[j].Handed?;
          var k :| 0 <= k < |r.answers| && r.answers[k].frame == j;
          assert r'.answers[k].frame == j;
        }
      }
    }
  }

  lemma ServeStashSafe(p: Params, r: Run, x: u32)
    requires Safe(p, r) && x in r.core.stash && x in r.origin && r.origin[x] < |r.fates|
    ensures Safe(p, ServeStash(r, x))
  {
    hide Decoded, EventsOf, EventOf, ResponseFor, Tracked, AnswersAccounted, Eventful, ResolveXid;
    var i, v, core := r.origin[x], r.core.stash[x], ResolveXid(r.core, x);
    SafeTracks(p, r);
    ResolveTracks(r.core, x);
    ResolveStash(r.core, x);
    WithCoreSafe(p, r, core);
    var cleared := WithCore(r, core);
    ForgottenHanded(p, cleared, i, x, v);
    var served := cleared.(fates := cleared.fates[i := Handed(Xid(x))],
                           answers := cleared.answers + [Answer(Xid(x), i, v)]);
    assert ServeStash(r, x).fates == served.fates;
    SameAccount(p, served, ServeStash(r, x));
  }

  lemma ResolveStash(s: Core, x: u32)
    ensures ResolveXid(s, x).stash == s.stash - {x}
  {
  }

  lemma IssueSafe(p: Params, r: Run)
    requires Safe(p, r)
    ensures Safe(p, Issue(r))
  {
    hide Safe, Tracked, Shrunk, IssueXid;
    var x := r.core.xid;
    var core := IssueXid(r.core.(xid := WrappingAdd(x, 1)), x);
    SafeTracks(p, r);
    IssueTracksFrom(r.core, WrappingAdd(x, 1), x);
    WithCoreSafe(p, r, core);
    SameAccount(p, WithCore(r, core), Issue(r));
  }

  lemma BeginSafe(p: Params, r: Run, sent: bool)
    requires Safe(p, r)
    ensures Safe(p, BeginExchange(r, sent))
  {
    hide Safe, ServeStash, Issue;
    var x := r.core.xid;
    IssueSafe(p, r);
    if sent && x in Issue(r).core.stash && x in Issue(r).origin && Issue(r).origin[x] < |Issue(r).fates| {
      ServeStashSafe(p, Issue(r), x);
    } else {
      SameAccount(p, Issue(r), BeginExchange(r, sent));
    }
  }

  lemma IssueTracksFrom(s: Core, next: u32, x: u32)
    requires Tracked(s)
    ensures Tracked(IssueXid(s.(xid := next), x)) && Shrunk(s, IssueXid(s.(xid := next), x))
  {
    IssueTracks(s.(xid := next), x);
  }

  lemma NextSafe(p: Params, r: Run, step: Step)
    requires Safe(p, r)
    ensures Safe(p, Next(p, r, step))
  {
    hide Safe, BeginExchange, ReceiveFrame, Resolve;
    match step
    case Begin(sent) => BeginSafe(p, r, sent);
    case BeginAuth(t, stamped, sent) => SameAccount(p, r, Next(p, r, step));
    case SendEvent(stamped) => SameAccount(p, r, Next(p, r, step));
    case Arrive(f) => ReceiveSafe(p, r, f);
    case Expire =>
      if r.waiting.Some? && r.waiting.value.Xid? {
        ResolveSafe(p, r, r.waiting.value.xid);
      } else {
        SameAccount(p, r, Next(p, r, step));
      }
    case Cancel => SameAccount(p, r, Next(p, r, step));
    case Close =>
      if r.waiting.None? {
        var core := r.core.(outstanding := [], stash := map[]);
        WithCoreSafe(p, r, core);
      }
  }

  /**
   In every reachable state at most 16 XIDs are tracked, only tracked XIDs have stashed
   responses, every frame received has exactly one fate, answers are exactly the handed frames,
   and the events published are exactly those the frames carried, once each and in order.
   */
  lemma {:induction false} EveryRunIsSafe(p: Params, xid: u32, steps: seq<Step>)
    ensures Safe(p, RunAll(p, StartRun(xid), steps))
  {
    StartSafe(p, xid);
    RunSafe(p, StartRun(xid), steps);
  }

  lemma StartSafe(p: Params, xid: u32)
    ensures Safe(p, StartRun(xid))
  {
  }

  lemma {:induction false} RunSafe(p: Params, r: Run, steps: seq<Step>)
    requires Safe(p, r)
    ensures Safe(p, RunAll(p, r, steps))
    decreases |steps|
  {
    hide Safe, Next;
    if steps == [] {
    } else {
      NextSafe(p, r, steps[0]);
      RunSafe(p, Next(p, r, steps[0]), steps[1..]);
    }
  }
}
