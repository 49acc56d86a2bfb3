/**
 Which XIDs are still outstanding once their exchanges are over.

 An exchange that was answered or timed out is forgotten at once. One whose wait was cancelled,
 or whose send failed, is not; how long it stays is settled here.
 */
module CompanionOutstanding {
  import opened Bytes
  import opened CompanionCodec
  import opened CompanionCorrelation
  import opened CompanionDelivery
  import opened CompanionEndToEnd
  import opened CompanionMessage
  import opened CompanionProtocol
  import opened CompanionRuns
  import opened OpackDe
  import opened OpackTables
  import opened OpackValue
  import opened Wrappers

  // ----- One exchange ----------------------------------------------------------------------

  lemma {:induction false} EvictKeepsBack(s: Core)
    ensures |Evict(s).outstanding| < 16
    ensures Evict(s).outstanding
         == if |s.outstanding| < 16 then s.outstanding else s.outstanding[|s.outstanding| - 15..]
    decreases |s.outstanding|
  {
    if |s.outstanding| < 16 {
    } else {
      var rest := s.(outstanding := s.outstanding[1..], stash := s.stash - {s.outstanding[0]});
      EvictKeepsBack(rest);
      assert s.outstanding[1..][|s.outstanding| - 16..] == s.outstanding[|s.outstanding| - 15..];
    }
  }

  /** The most recent fifteen. */
  function Room(xids: seq<u32>): (r: seq<u32>)
    ensures |r| < 16
  {
    if |xids| < 16 then xids else xids[|xids| - 15..]
  }

  lemma IssueMakesRoom(s: Core, x: u32)
    ensures IssueXid(s, x).outstanding == Room(s.outstanding) + [x]
  {
    hide Evict;
    EvictKeepsBack(s);
  }

  lemma {:induction false} AwaitKeepsOutstanding(p: Params, s: Core, awaiting: Awaiting, feed: seq<Arrival>)
    ensures Await(p, s, awaiting, feed).0.outstanding == s.outstanding
    decreases |feed|
  {
    hide Classify;
    if feed == [] || feed[0].Lost? {
    } else {
      AwaitKeepsOutstanding(p, Dispatch(p, s, Some(awaiting), feed[0].frame).0, awaiting, feed[1..]);
    }
  }

  /**
   After an exchange its XID is outstanding if and only if its request could not be sent. What
   was outstanding before stays so, except for the oldest beyond fifteen.
   */
  lemma {:induction false} ExchangeForgetsIffSent(p: Params, s: Core, sent: bool, feed: seq<Arrival>)
    ensures var after := Exchanged(p, s, sent, feed).0.outstanding;
            && (s.xid in after <==> !sent)
            && after == if sent then Without(Room(s.outstanding), s.xid) else Room(s.outstanding) + [s.xid]
  {
    hide Await, Judge, Evict, IssueXid;
    var begun := IssueXid(s.(xid := WrappingAdd(s.xid, 1)), s.xid);
    IssueMakesRoom(s.(xid := WrappingAdd(s.xid, 1)), s.xid);
    AwaitKeepsOutstanding(p, begun, Xid(s.xid), feed);
    WithoutLast(Room(s.outstanding), s.xid);
  }

  lemma {:induction false} WithoutLast(xids: seq<u32>, x: u32)
    ensures Without(xids + [x], x) == Without(xids, x)
    decreases |xids|
  {
    if xids == [] {
    } else {
      assert (xids + [x])[1..] == xids[1..] + [x];
      WithoutLast(xids[1..], x);
    }
  }

  lemma {:induction false} WithoutAbsent(xids: seq<u32>, x: u32)
    requires x !in xids
    ensures Without(xids, x) == xids
    decreases |xids|
  {
    if xids == [] {
    } else {
      WithoutAbsent(xids[1..], x);
    }
  }

  // ----- One step ----------------------------------------------------------------------------

  /**
   While an exchange waits, an answer handed to it or its deadline makes it forgotten; cancelling
   the wait leaves the driver as it was.
   */
  lemma EndingStep(p: Params, r: Run, x: u32, step: Step)
    requires r.waiting == Some(Xid(x)) && Next(p, r, step).waiting.None?
    ensures step.Arrive? || step.Expire? || step.Cancel?
    ensures if step.Cancel? then Next(p, r, step).core == r.core
            else Next(p, r, step).core.outstanding == Without(r.core.outstanding, x)
  {
    hide Classify, Settle, IssueXid;
  }

  lemma WaitingStep(p: Params, r: Run, x: u32, step: Step)
    requires r.waiting == Some(Xid(x)) && Next(p, r, step).waiting.Some?
    ensures Next(p, r, step).waiting == r.waiting
    ensures Next(p, r, step).core.outstanding == r.core.outstanding && Next(p, r, step).ended == r.ended
  {
    hide Classify, Settle, IssueXid;
  }

  // ----- The past of a run --------------------------------------------------------------------

  /** What is over: an exchange, left outstanding or not, or everything, by a close. */
  datatype Chapter = Over(xid: u32, abandoned: bool) | Closed

  /** What a step ends. An exchange is abandoned if its send failed or its wait was cancelled. */
  function Ends(p: Params, r: Run, step: Step): seq<Chapter> {
    if Next(p, r, step).waiting.Some? then []
    else if r.waiting.Some? then (if r.waiting.value.Xid? then [Over(r.waiting.value.xid, step.Cancel?)] else [])
    else if step.Begin? then [Over(r.core.xid, !step.sent)]
    else if step.Close? then [Closed]
    else []
  }

  function Past(p: Params, r: Run, steps: seq<Step>): seq<Chapter>
    decreases |steps|
  {
    if steps == [] then [] else Ends(p, r, steps[0]) + Past(p, Next(p, r, steps[0]), steps[1..])
  }

  /** How many of these were abandoned. */
  function Abandoned(h: seq<Chapter>): nat {
    if h == [] then 0
    else Abandoned(h[..|h| - 1]) + if h[|h| - 1].Over? && h[|h| - 1].abandoned then 1 else 0
  }

  /**
   The `k`-th exchange is not displaced: nothing has been closed since, and no exchange has begun
   since when fifteen later ones had already been abandoned.
   */
  ghost predicate Stays(h: seq<Chapter>, k: nat)
    requires k < |h|
  {
    forall j :: k < j < |h| ==> Spares(h, k, j)
  }

  /** What began `j`-th did not displace what began `k`-th. */
  ghost predicate Spares(h: seq<Chapter>, k: nat, j: nat)
    requires k < j < |h|
  {
    h[j].Over? && Abandoned(h[k + 1..j]) < 15
  }

  /** What is outstanding when nobody waits. */
  function Left(h: seq<Chapter>): seq<u32> {
    if h == [] then []
    else
      match h[|h| - 1]
      case Closed => []
      case Over(x, abandoned) => Room(Left(h[..|h| - 1])) + if abandoned then [x] else []
  }

  predicate RunsXid(r: Run) {
    r.waiting.Some? && r.waiting.value.Xid?
  }

  /** No XID is used twice. */
  ghost predicate Once(h: seq<Chapter>) {
    forall i, j :: 0 <= i < j < |h| && h[i].Over? && h[j].Over? ==> h[i].xid != h[j].xid
  }

  // ----- Who is left ---------------------------------------------------------------------------

  lemma {:induction false} LeftAreOver(h: seq<Chapter>)
    ensures |Left(h)| <= 16
    ensures forall x :: x in Left(h) ==> exists k :: 0 <= k < |h| && h[k] == Over(x, true)
    decreases |h|
  {
    if h == [] {
    } else {
      var front := h[..|h| - 1];
      LeftAreOver(front);
      forall x | x in Left(h)
        ensures exists k :: 0 <= k < |h| && h[k] == Over(x, true)
      {
        if x in Left(front) {
          var k :| 0 <= k < |front| && front[k] == Over(x, true);
          assert h[k] == Over(x, true);
        } else {
          assert h[|h| - 1] == Over(x, true);
        }
      }
    }
  }

  /** Every entry is there for a reason of its own. */
  lemma {:induction false} LeftDistinct(h: seq<Chapter>)
    requires Once(h)
    ensures AllDifferent(Left(h))
    decreases |h|
  {
    if h == [] {
    } else {
      var front := h[..|h| - 1];
      LeftDistinct(front);
      LeftAreOver(front);
      if h[|h| - 1].Over? {
        assert h[|h| - 1].xid !in Left(front);
      }
    }
  }

  lemma SparesFront(front: seq<Chapter>, last: Chapter, k: nat, j: nat)
    requires k < j < |front|
    ensures Spares(front + [last], k, j) == Spares(front, k, j)
  {
    assert (front + [last])[k + 1..j] == front[k + 1..j];
  }

  lemma StaysSnoc(front: seq<Chapter>, last: Chapter, k: nat)
    requires k < |front|
    ensures Stays(front + [last], k)
       <==> Stays(front, k) && last.Over? && Abandoned(front[k + 1..]) < 15
  {
    var h := front + [last];
    assert Spares(h, k, |front|) <==> last.Over? && Abandoned(front[k + 1..]) < 15 by {
      assert h[k + 1..|front|] == front[k + 1..];
    }
    hide Spares;
    forall j | k < j < |front|
      ensures Spares(h, k, j) == Spares(front, k, j)
    {
      SparesFront(front, last, k, j);
    }
  }

  lemma AbandonedSnoc(front: seq<Chapter>, last: Chapter)
    ensures Abandoned(front + [last]) == Abandoned(front) + if last.Over? && last.abandoned then 1 else 0
  {
    assert (front + [last])[..|front|] == front;
  }

  lemma LeftSnoc(front: seq<Chapter>, last: Chapter)
    ensures Left(front + [last])
         == if last.Closed? then [] else Room(Left(front)) + if last.abandoned then [last.xid] else []
  {
    assert (front + [last])[..|front|] == front;
  }

  /** `x` is in the list with so many behind it, or not at all. */
  ghost predicate Placed(xids: seq<u32>, x: u32, behind: nat, there: bool) {
    if there then behind < |xids| && xids[|xids| - 1 - behind] == x else x !in xids
  }

  ghost predicate AllDifferent(xids: seq<u32>) {
    forall i, j :: 0 <= i < j < |xids| ==> xids[i] != xids[j]
  }

  /** An abandoned exchange that stays has exactly the later abandoned ones behind it. */
  lemma {:induction false} PlaceInLeft(h: seq<Chapter>, k: nat)
    requires Once(h) && k < |h| && h[k].Over? && h[k].abandoned
    ensures Placed(Left(h), h[k].xid, Abandoned(h[k + 1..]), Stays(h, k))
    decreases |h|
  {
    hide Once, Stays, Left, Room, Abandoned, Placed, AllDifferent;
    var front, last, x := h[..|h| - 1], h[|h| - 1], h[k].xid;
    assert h == front + [last];
    LeftSnoc(front, last);
    if k == |h| - 1 {
      assert h[k + 1..] == [];
      StaysLast(h);
      PlacedLast(Room(Left(front)), x);
    } else {
      OnceFront(front, last);
      PlaceInLeft(front, k);
      StaysSnoc(front, last, k);
      assert h[k + 1..] == front[k + 1..] + [last];
      AbandonedSnoc(front[k + 1..], last);
      LeftDistinct(front);
      LeftAreOver(front);
      if last.Over? {
        LastIsOther(front, last, k);
        var behind := Abandoned(front[k + 1..]);
        RoomKeeps(Left(front), x, behind, Stays(front, k));
        PlacedBefore(Room(Left(front)), x, behind, Stays(h, k), last.xid);
        assert Room(Left(front)) + [] == Room(Left(front));
      } else {
        PlacedNowhere(x, Abandoned(h[k + 1..]));
      }
    }
  }

  lemma PlacedLast(xids: seq<u32>, x: u32)
    ensures Placed(xids + [x], x, Abandoned([]), true)
  {
  }

  lemma PlacedNowhere(x: u32, behind: nat)
    ensures Placed([], x, behind, false)
  {
  }

  lemma PlacedBefore(xids: seq<u32>, x: u32, behind: nat, there: bool, y: u32)
    requires Placed(xids, x, behind, there) && x != y
    ensures Placed(xids + [y], x, behind + 1, there)
  {
  }

  lemma StaysLast(h: seq<Chapter>)
    requires h != []
    ensures Stays(h, |h| - 1)
  {
  }

  lemma OnceFront(front: seq<Chapter>, last: Chapter)
    requires Once(front + [last])
    ensures Once(front)
  {
    var h := front + [last];
    assert forall i :: 0 <= i < |front| ==> h[i] == front[i];
  }

  lemma LastIsOther(front: seq<Chapter>, last: Chapter, k: nat)
    requires Once(front + [last]) && k < |front| && front[k].Over? && last.Over?
    ensures front[k].xid != last.xid
  {
    var h := front + [last];
    assert h[k] == front[k] && h[|front|] == last;
  }

  /** Making room drops an entry exactly when there are fifteen behind it. */
  lemma RoomKeeps(xids: seq<u32>, x: u32, behind: nat, there: bool)
    requires |xids| <= 16 && AllDifferent(xids) && Placed(xids, x, behind, there)
    ensures Placed(Room(xids), x, behind, there && behind < 15)
  {
  }

  // ----- Runs -----------------------------------------------------------------------------------

  /** The driver's list is what the past leaves, and the waiting exchange behind it. */
  ghost predicate Explained(r: Run, h: seq<Chapter>) {
    && r.core.outstanding == (if RunsXid(r) then Room(Left(h)) + [r.waiting.value.xid] else Left(h))
    && Once(h)
    && (forall k :: 0 <= k < |h| && h[k].Over? ==> h[k].xid in r.ended)
    && (forall x :: x in r.ended ==> exists k :: 0 <= k < |h| && h[k].Over? && h[k].xid == x)
  }

  lemma OverSnoc(r: Run, h: seq<Chapter>, s: Run, x: u32, abandoned: bool)
    requires Explained(r, h) && x !in r.ended && s.ended.Keys == r.ended.Keys + {x}
    requires !RunsXid(s) && s.core.outstanding == Left(h + [Over(x, abandoned)])
    ensures Explained(s, h + [Over(x, abandoned)])
  {
    hide Left;
    var h' := h + [Over(x, abandoned)];
    assert h'[|h|].xid == x;
    forall i, j | 0 <= i < j < |h'| && h'[i].Over? && h'[j].Over?
      ensures h'[i].xid != h'[j].xid
    {
      assert h'[i] == h[i];
      assert j < |h| ==> h'[j] == h[j];
    }
    forall y | y in s.ended
      ensures exists k :: 0 <= k < |h'| && h'[k].Over? && h'[k].xid == y
    {
      if y != x {
        var k :| 0 <= k < |h| && h[k].Over? && h[k].xid == y;
        assert h'[k].xid == y;
      }
    }
  }

  /** A step that ends nothing and touches neither list nor ended exchanges. */
  lemma SamePast(r: Run, h: seq<Chapter>, s: Run)
    requires Explained(r, h) && s.ended == r.ended
    requires s.core.outstanding == if RunsXid(s) then Room(Left(h)) + [s.waiting.value.xid] else Left(h)
    ensures Explained(s, h)
  {
    hide Left, Room;
  }

  lemma BeginExplained(p: Params, start: u32, r: Run, h: seq<Chapter>, sent: bool)
    requires Safe(p, r) && Correlated(start, r) && r.issued < U32_LIMIT && r.waiting.None?
    requires Explained(r, h)
    ensures var s := Next(p, r, Begin(sent)); Explained(s, h + Ends(p, r, Begin(sent)))
  {
    var x := r.core.xid;
    var s := BeginExchange(r, sent);
    assert s == Next(p, r, Begin(sent));
    BeginLeaves(p, start, r, sent);
    hide Safe, Correlated, Explained, BeginExchange, Next, Left, Room;
    LeftSnoc(h, Over(x, true));
    if sent {
      assert h + [] == h;
      FromExplained(r, h);
      SamePast(r, h, s);
    } else {
      FromExplained(r, h);
      OverSnoc(r, h, s, x, true);
    }
  }

  lemma FromExplained(r: Run, h: seq<Chapter>)
    requires Explained(r, h) && !RunsXid(r)
    ensures r.core.outstanding == Left(h)
  {
  }

  lemma BeginLeaves(p: Params, start: u32, r: Run, sent: bool)
    requires Safe(p, r) && Correlated(start, r) && r.issued < U32_LIMIT && r.waiting.None?
    ensures var x, s := r.core.xid, BeginExchange(r, sent);
            && x !in r.ended && s.core.outstanding == Room(r.core.outstanding) + [x]
            && (if sent then s.waiting == Some(Xid(x)) && s.ended == r.ended
                else s.waiting.None? && s.ended.Keys == r.ended.Keys + {x})
  {
    var x := r.core.xid;
    StashNeverServes(p, start, r);
    hide Safe, IssueXid, Settle, Room;
    IssueLeaves(r);
    IssueMakesRoom(r.core.(xid := WrappingAdd(x, 1)), x);
  }

  lemma EndExplained(p: Params, start: u32, r: Run, h: seq<Chapter>, x: u32, step: Step)
    requires Correlated(start, r) && Explained(r, h)
    requires r.waiting == Some(Xid(x)) && Next(p, r, step).waiting.None?
    ensures Explained(Next(p, r, step), h + Ends(p, r, step))
  {
    var s := Next(p, r, step);
    EndingStep(p, r, x, step);
    EndsInEnded(p, r, x, step);
    assert Ends(p, r, step) == [Over(x, step.Cancel?)];
    assert x !in r.ended;
    hide Next, Ends, Correlated, Left, Room;
    LastLeft(r, h, x, step.Cancel?);
    hide Explained;
    OverSnoc(r, h, s, x, step.Cancel?);
  }

  /** Forgetting the exchange that waits, or not, leaves what the longer past leaves. */
  lemma LastLeft(r: Run, h: seq<Chapter>, x: u32, abandoned: bool)
    requires Explained(r, h) && r.waiting == Some(Xid(x)) && x !in r.ended
    ensures Left(h + [Over(x, abandoned)])
         == if abandoned then r.core.outstanding else Without(r.core.outstanding, x)
  {
    var kept := Room(Left(h));
    LeftSnoc(h, Over(x, abandoned));
    LeftAreOver(h);
    RoomIsPart(Left(h), x);
    assert x !in Left(h);
    hide Left, Room;
    WithoutLast(kept, x);
    WithoutAbsent(kept, x);
    assert kept + [] == kept;
  }

  lemma EndsInEnded(p: Params, r: Run, x: u32, step: Step)
    requires r.waiting == Some(Xid(x)) && Next(p, r, step).waiting.None?
    ensures Next(p, r, step).ended.Keys == r.ended.Keys + {x}
  {
    hide Classify, Settle, IssueXid;
  }

  lemma NextExplained(p: Params, start: u32, r: Run, h: seq<Chapter>, step: Step)
    requires Safe(p, r) && Correlated(start, r) && Explained(r, h)
    requires Next(p, r, step).issued <= U32_LIMIT
    ensures Explained(Next(p, r, step), h + Ends(p, r, step))
  {
    var s := Next(p, r, step);
    assert h + [] == h;
    if RunsXid(r) {
      var x := r.waiting.value.xid;
      if s.waiting.None? {
        EndExplained(p, start, r, h, x, step);
      } else {
        WaitingStep(p, r, x, step);
        hide Next, Safe, Correlated, Left, Room;
        SamePast(r, h, s);
      }
    } else if step.Begin? && r.waiting.None? {
      BeginIssues(r, step.sent);
      BeginExplained(p, start, r, h, step.sent);
    } else if step.Close? && r.waiting.None? {
      CloseExplained(p, r, h);
    } else {
      IdleStep(p, r, step);
      hide Next, Safe, Correlated, Left, Room;
      SamePast(r, h, s);
    }
  }

  lemma CloseExplained(p: Params, r: Run, h: seq<Chapter>)
    requires Explained(r, h) && r.waiting.None?
    ensures Explained(Next(p, r, Close), h + [Closed])
  {
    var s, h' := Next(p, r, Close), h + [Closed];
    LeftSnoc(h, Closed);
    assert s.core.outstanding == [] && s.ended == r.ended;
    assert forall k :: 0 <= k < |h| ==> h'[k] == h[k];
    forall x | x in s.ended
      ensures exists k :: 0 <= k < |h'| && h'[k].Over? && h'[k].xid == x
    {
      var k :| 0 <= k < |h| && h[k].Over? && h[k].xid == x;
      assert h'[k].xid == x;
    }
  }

  lemma IdleStep(p: Params, r: Run, step: Step)
    requires !RunsXid(r) && !(r.waiting.None? && (step.Begin? || step.Close?))
    ensures var s := Next(p, r, step);
            && !RunsXid(s) && s.core.outstanding == r.core.outstanding && s.ended == r.ended && Ends(p, r, step) == []
  {
    hide Classify, Settle;
  }

  lemma {:induction false} RunExplained(p: Params, start: u32, r: Run, h: seq<Chapter>, steps: seq<Step>)
    requires Safe(p, r) && Correlated(start, r) && Explained(r, h)
    requires RunAll(p, r, steps).issued <= U32_LIMIT
    ensures Explained(RunAll(p, r, steps), h + Past(p, r, steps))
    decreases |steps|
  {
    hide Next, Safe, Correlated, Explained, Ends;
    if steps == [] {
      assert h + [] == h;
    } else {
      var r1 := Next(p, r, steps[0]);
      IssuedGrowsAlong(p, r1, steps[1..]);
      NextSafe(p, r, steps[0]);
      NextCorrelated(p, start, r, steps[0]);
      NextExplained(p, start, r, h, steps[0]);
      RunExplained(p, start, r1, h + Ends(p, r, steps[0]), steps[1..]);
      assert h + Ends(p, r, steps[0]) + Past(p, r1, steps[1..]) == h + (Ends(p, r, steps[0]) + Past(p, r1, steps[1..]));
    }
  }

  lemma StartExplained(start: u32)
    ensures Explained(StartRun(start), [])
  {
  }

  /**
   In every run that takes at most 2^32 XIDs, an exchange that is over is still outstanding if
   and only if it was abandoned (its send failed or its wait was cancelled), nothing has been
   closed since, and no exchange has begun since when fifteen later ones had been abandoned.
   */
  lemma {:induction false} OutstandingAfterEndIff(p: Params, start: u32, steps: seq<Step>)
    requires RunAll(p, StartRun(start), steps).issued <= U32_LIMIT
    ensures var r, h := RunAll(p, StartRun(start), steps), Past(p, StartRun(start), steps);
            && (forall x :: x in r.ended <==> exists k :: 0 <= k < |h| && h[k].Over? && h[k].xid == x)
            && (forall k :: 0 <= k < |h| && h[k].Over? ==>
                  (h[k].xid in r.core.outstanding
                   <==> h[k].abandoned && Stays(h, k)
                        && (RunsXid(r) ==> Abandoned(h[k + 1..]) < 15)))
  {
    hide RunAll, Past, Safe, Correlated, Left, Room, Stays;
    var r, h := RunAll(p, StartRun(start), steps), Past(p, StartRun(start), steps);
    StartSafe(p, start);
    StartCorrelated(start);
    StartExplained(start);
    RunExplained(p, start, StartRun(start), [], steps);
    assert [] + h == h;
    RunCorrelated(p, start, StartRun(start), steps);
    forall k | 0 <= k < |h| && h[k].Over?
      ensures h[k].xid in r.core.outstanding
         <==> h[k].abandoned && Stays(h, k) && (RunsXid(r) ==> Abandoned(h[k + 1..]) < 15)
    {
      OverOutstandingIff(start, r, h, k);
    }
  }

  lemma OverOutstandingIff(start: u32, r: Run, h: seq<Chapter>, k: nat)
    requires Correlated(start, r) && Explained(r, h) && k < |h| && h[k].Over?
    ensures h[k].xid in r.core.outstanding
       <==> h[k].abandoned && Stays(h, k) && (RunsXid(r) ==> Abandoned(h[k + 1..]) < 15)
  {
    var x := h[k].xid;
    assert x in r.ended && (RunsXid(r) ==> r.waiting.value.xid != x);
    LeftDistinct(h);
    LeftAreOver(h);
    hide Stays, Left, Room, Once, Correlated, Abandoned, AllDifferent;
    if h[k].abandoned {
      PlaceInLeft(h, k);
      RoomKeeps(Left(h), x, Abandoned(h[k + 1..]), Stays(h, k));
    } else {
      OnlyOnce(h, k);
      RoomIsPart(Left(h), x);
    }
  }

  lemma RoomIsPart(xids: seq<u32>, x: u32)
    ensures x in Room(xids) ==> x in xids
  {
  }

  /** What was not abandoned is not left. */
  lemma OnlyOnce(h: seq<Chapter>, k: nat)
    requires Once(h) && k < |h| && h[k].Over? && !h[k].abandoned
    ensures h[k].xid !in Left(h)
  {
    LeftAreOver(h);
    hide Left;
  }

  /** A peer's reply to an exchange nobody waits for is kept if its XID is outstanding, and dropped otherwise. */
  lemma {:induction false} LateReplyKeptIff(p: Params, r: Run, e: Envelope, x: u32)
    requires SeparatesZeros(p.digest) && Sendable(p, e)
    requires e.messageType == Some(Response) && e.xid == Some(x)
    requires r.waiting != Some(Xid(x))
    ensures var s, n := Next(p, r, Arrive(MessageFrame(e))), |r.fates|;
            && |s.fates| == n + 1
            && s.fates[n] == (if x in r.core.outstanding then Held(x) else Dropped)
            && s.core.stash == if x in r.core.outstanding then r.core.stash[x := Canon(ToValue(e))] else r.core.stash
  {
    var f := MessageFrame(e);
    hide Sendable, SeparatesZeros, Classify, MessageFrame, Canon, ToValue, ReceiveFrame;
    MessageIsClassified(p, e, r.core.outstanding, r.waiting);
    if x in r.core.outstanding {
      KeptFrame(p, r, f, x, Canon(ToValue(e)));
    } else {
      DroppedFrame(p, r, f);
    }
  }

  lemma KeptFrame(p: Params, r: Run, f: Frame, x: u32, v: Value)
    requires Classify(p, r.core.outstanding, r.waiting, f) == Verdict.Keep(x, v)
    ensures var s, n := ReceiveFrame(p, r, f), |r.fates|;
            |s.fates| == n + 1 && s.fates[n] == Held(x) && s.core.stash == r.core.stash[x := v]
  {
    hide Classify, Settle;
  }

  lemma DroppedFrame(p: Params, r: Run, f: Frame)
    requires Classify(p, r.core.outstanding, r.waiting, f) == Verdict.Drop
    ensures var s, n := ReceiveFrame(p, r, f), |r.fates|;
            |s.fates| == n + 1 && s.fates[n] == Dropped && s.core.stash == r.core.stash
  {
    hide Classify;
  }

  // ----- What displaces and what does not ---------------------------------------------------------

  lemma {:induction false} AbandonedOfAlike(h: seq<Chapter>, abandoned: bool)
    requires forall j :: 0 <= j < |h| ==> h[j].Over? && h[j].abandoned == abandoned
    ensures Abandoned(h) == if abandoned then |h| else 0
    decreases |h|
  {
    if h == [] {
    } else {
      AbandonedOfAlike(h[..|h| - 1], abandoned);
    }
  }

  /**
   However many later exchanges are answered or time out, they displace nothing; if all later
   ones are abandoned, the sixteenth of them does.
   */
  lemma {:induction false} DisplacedByAbandonedOnly(h: seq<Chapter>, k: nat, abandoned: bool)
    requires k < |h| && forall j :: k < j < |h| ==> h[j].Over? && h[j].abandoned == abandoned
    ensures Stays(h, k) <==> !abandoned || |h| - 1 - k < 16
  {
    hide Abandoned;
    forall j | k < j < |h|
      ensures Spares(h, k, j) <==> !abandoned || j - 1 - k < 15
    {
      var between := h[k + 1..j];
      forall i | 0 <= i < |between|
        ensures between[i].Over? && between[i].abandoned == abandoned
      {
        assert between[i] == h[k + 1 + i];
      }
      AbandonedOfAlike(between, abandoned);
    }
    if abandoned && |h| - 1 - k >= 16 {
      assert !Spares(h, k, k + 16);
    }
  }

  /** What is forgotten to make room for one more: the oldest XIDs, all but fifteen. */
  function Oldest(xids: seq<u32>): seq<u32> {
    if |xids| <= 15 then [] else xids[..|xids| - 15]
  }

  lemma OldestFirst(xids: seq<u32>)
    requires |xids| >= 16
    ensures Oldest(xids) == [xids[0]] + Oldest(xids[1..])
    ensures xids[|Oldest(xids)|..] == xids[1..][|Oldest(xids[1..])|..]
  {
  }

  lemma {:induction false} EvictForgets(s: Core)
    ensures Evict(s).(stash := s.stash) == s.(outstanding := s.outstanding[|Oldest(s.outstanding)|..])
    ensures forall y :: y in Evict(s).stash <==> y in s.stash && y !in Oldest(s.outstanding)
    ensures forall y :: y in Evict(s).stash ==> Evict(s).stash[y] == s.stash[y]
    decreases |s.outstanding|
  {
    if |s.outstanding| < 16 {
    } else {
      OldestFirst(s.outstanding);
      hide Oldest;
      var first := s.outstanding[0];
      var smaller := s.(outstanding := s.outstanding[1..], stash := s.stash - {first});
      EvictForgets(smaller);
      assert Evict(s) == Evict(smaller);
    }
  }

  /**
   Issuing an XID makes room by forgetting the oldest ones, all but fifteen, and the replies
   stashed under these and no others.
   */
  lemma IssueForgets(s: Core, x: u32)
    ensures var gone, t := Oldest(s.outstanding), IssueXid(s, x);
            && t.outstanding == s.outstanding[|gone|..] + [x] && t.events == s.events && t.xid == s.xid
            && forall y :: (y in t.stash <==> y in s.stash && y !in gone) && (y in t.stash ==> t.stash[y] == s.stash[y])
  {
    hide Evict, Oldest;
    EvictForgets(s);
  }

  /** The driver after exchanges that were sent, each with what arrived while it waited. */
  function AfterExchanges(p: Params, s: Core, feeds: seq<seq<Arrival>>): Core
    decreases |feeds|
  {
    if feeds == [] then s else AfterExchanges(p, Exchanged(p, s, true, feeds[0]).0, feeds[1..])
  }

  /**
   While there is room, any number of sent exchanges under fresh XIDs, whatever arrives while
   they wait and however they end, leaves the list as it is.
   */
  lemma {:induction false} SentExchangesDisplaceNothing(p: Params, s: Core, feeds: seq<seq<Arrival>>)
    requires |s.outstanding| < 16
    requires |feeds| <= U32_LIMIT && forall x :: x in s.outstanding ==> Offset(s.xid, x) >= |feeds|
    ensures AfterExchanges(p, s, feeds).outstanding == s.outstanding
    decreases |feeds|
  {
    if feeds == [] {
    } else {
      var t := Exchanged(p, s, true, feeds[0]).0;
      ExchangeForgetsIffSent(p, s, true, feeds[0]);
      NextXidAfter(p, s, feeds[0]);
      hide Exchanged, Offset, Without;
      OffsetDrops(s.xid, s.xid);
      WithoutAbsent(s.outstanding, s.xid);
      forall x | x in t.outstanding
        ensures Offset(t.xid, x) >= |feeds| - 1
      {
        OffsetDrops(s.xid, x);
      }
      SentExchangesDisplaceNothing(p, t, feeds[1..]);
    }
  }

  lemma OffsetDrops(xid: u32, x: u32)
    ensures Offset(xid, x) > 0 ==> Offset(WrappingAdd(xid, 1), x) == Offset(xid, x) - 1
    ensures Offset(xid, x) == 0 <==> x == xid
  {
  }

  lemma {:induction false} AwaitKeepsXid(p: Params, s: Core, awaiting: Awaiting, feed: seq<Arrival>)
    ensures Await(p, s, awaiting, feed).0.xid == s.xid
    decreases |feed|
  {
    hide Classify;
    if feed == [] || feed[0].Lost? {
    } else {
      AwaitKeepsXid(p, Dispatch(p, s, Some(awaiting), feed[0].frame).0, awaiting, feed[1..]);
    }
  }

  lemma NextXidAfter(p: Params, s: Core, feed: seq<Arrival>)
    ensures Exchanged(p, s, true, feed).0.xid == WrappingAdd(s.xid, 1)
  {
    hide IssueXid, Await;
    var next := s.(xid := WrappingAdd(s.xid, 1));
    IssueTakesXid(next, s.xid);
    AwaitKeepsXid(p, IssueXid(next, s.xid), Xid(s.xid), feed);
  }

  lemma IssueTakesXid(s: Core, x: u32)
    ensures IssueXid(s, x).xid == s.xid
  {
    hide Evict;
    EvictKeepsXid(s);
  }

  lemma {:induction false} EvictKeepsXid(s: Core)
    ensures Evict(s).xid == s.xid
    decreases |s.outstanding|
  {
    if |s.outstanding| < 16 {
    } else {
      EvictKeepsXid(s.(outstanding := s.outstanding[1..], stash := s.stash - {s.outstanding[0]}));
    }
  }
}
