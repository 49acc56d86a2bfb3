/** Priority-based selection of one implementation among several protocols, with takeover. */
module Relayer {
  import opened Wrappers

  datatype Protocol = Dmap | Mrp | AirPlay | Companion | Raop

  type Feature = nat

  datatype Registration<T> = Registration(instance: T, declared: set<Feature>)

  datatype Error = NotPrioritised(protocol: Protocol) | AlreadyTaken(holder: Protocol)

  datatype State<T> = State(priorities: seq<Protocol>, instances: map<Protocol, Registration<T>>, takeover: Option<Protocol>)

  // ----- Selection --------------------------------------------------------------------

  function Except(ps: seq<Protocol>, out: Option<Protocol>): (r: seq<Protocol>)
    ensures forall p :: p in r <==> p in ps && Some(p) != out
  {
    if ps == [] then []
    else if Some(ps[0]) == out then Except(ps[1..], out)
    else [ps[0]] + Except(ps[1..], out)
  }

  /** Whoever has taken over first, then the others by priority. */
  function SearchOrder<T>(s: State<T>): seq<Protocol> {
    (if s.takeover.Some? then [s.takeover.value] else []) + Except(s.priorities, s.takeover)
  }

  function Registered<T>(s: State<T>, ps: seq<Protocol>): (r: seq<Protocol>)
    ensures forall p :: p in r <==> p in ps && p in s.instances
  {
    if ps == [] then []
    else if ps[0] in s.instances then [ps[0]] + Registered(s, ps[1..])
    else Registered(s, ps[1..])
  }

  function Protocols<T>(s: State<T>): (r: seq<Protocol>)
    ensures forall p :: p in r ==> p in s.instances
  {
    Registered(s, SearchOrder(s))
  }

  function InstancesOf<T>(s: State<T>, ps: seq<Protocol>): seq<T> {
    if ps == [] then []
    else if ps[0] in s.instances then [s.instances[ps[0]].instance] + InstancesOf(s, ps[1..])
    else InstancesOf(s, ps[1..])
  }

  function Instances<T>(s: State<T>): seq<T> {
    InstancesOf(s, SearchOrder(s))
  }

  function FirstRegistered<T>(s: State<T>, ps: seq<Protocol>): Option<Protocol> {
    if ps == [] then None else if ps[0] in s.instances then Some(ps[0]) else FirstRegistered(s, ps[1..])
  }

  function MainProtocol<T>(s: State<T>): Option<Protocol> {
    FirstRegistered(s, SearchOrder(s))
  }

  function FirstInstance<T>(s: State<T>, ps: seq<Protocol>): Option<T> {
    if ps == [] then None
    else if ps[0] in s.instances then Some(s.instances[ps[0]].instance)
    else FirstInstance(s, ps[1..])
  }

  function MainInstance<T>(s: State<T>): Option<T> {
    FirstInstance(s, SearchOrder(s))
  }

  function FirstDeclaring<T>(s: State<T>, ps: seq<Protocol>, feature: Feature): Option<T> {
    if ps == [] then None
    else if ps[0] in s.instances && feature in s.instances[ps[0]].declared then Some(s.instances[ps[0]].instance)
    else FirstDeclaring(s, ps[1..], feature)
  }

  function InstanceFor<T>(s: State<T>, feature: Feature): Option<T> {
    FirstDeclaring(s, SearchOrder(s), feature)
  }

  // ----- Operations ----------------------------------------------------------------------

  datatype Op<T> = Register(protocol: Protocol, instance: T, declared: set<Feature>) | Takeover(holder: Protocol) | Release

  /** What an operation leaves behind; one that is refused leaves everything as it was. */
  function Apply<T>(s: State<T>, op: Op<T>): State<T> {
    match op
    case Register(p, instance, declared) =>
      if p in s.priorities then s.(instances := s.instances[p := Registration(instance, declared)]) else s
    case Takeover(p) => if s.takeover.Some? then s else s.(takeover := Some(p))
    case Release => s.(takeover := None)
  }

  function ApplyAll<T>(s: State<T>, ops: seq<Op<T>>): State<T>
    decreases |ops|
  {
    if ops == [] then s else ApplyAll(Apply(s, ops[0]), ops[1..])
  }

  function New<T>(priorities: seq<Protocol>): State<T> {
    State(priorities, map[], None)
  }

  /** Only prioritised protocols are ever registered. */
  ghost predicate Reachable<T>(s: State<T>) {
    forall p :: p in s.instances ==> p in s.priorities
  }

  lemma {:induction false} ApplyAllReachable<T>(s: State<T>, ops: seq<Op<T>>)
    requires Reachable(s)
    ensures Reachable(ApplyAll(s, ops)) && ApplyAll(s, ops).priorities == s.priorities
    decreases |ops|
  {
    if ops == [] {
    } else {
      ApplyAllReachable(Apply(s, ops[0]), ops[1..]);
    }
  }

  // ----- Every registered protocol is listed once -----------------------------------------

  predicate Distinct(ps: seq<Protocol>) {
    forall i, j :: 0 <= i < j < |ps| ==> ps[i] != ps[j]
  }

  lemma DistinctCons(p: Protocol, ps: seq<Protocol>)
    ensures Distinct([p] + ps) <==> p !in ps && Distinct(ps)
  {
    var all := [p] + ps;
    if Distinct(all) {
      forall i | 0 <= i < |ps|
        ensures ps[i] != p
      {
        assert all[i + 1] == ps[i] && all[0] == p;
      }
      forall i, j | 0 <= i < j < |ps|
        ensures ps[i] != ps[j]
      {
        assert all[i + 1] == ps[i] && all[j + 1] == ps[j];
      }
    }
  }

  lemma {:induction false} ExceptDistinct(ps: seq<Protocol>, out: Option<Protocol>)
    requires Distinct(ps)
    ensures Distinct(Except(ps, out))
    decreases |ps|
  {
    if ps == [] {
    } else {
      assert ps == [ps[0]] + ps[1..];
      DistinctCons(ps[0], ps[1..]);
      ExceptDistinct(ps[1..], out);
      DistinctCons(ps[0], Except(ps[1..], out));
    }
  }

  lemma {:induction false} RegisteredDistinct<T>(s: State<T>, ps: seq<Protocol>)
    requires Distinct(ps)
    ensures Distinct(Registered(s, ps))
    decreases |ps|
  {
    if ps == [] {
    } else {
      assert ps == [ps[0]] + ps[1..];
      DistinctCons(ps[0], ps[1..]);
      RegisteredDistinct(s, ps[1..]);
      DistinctCons(ps[0], Registered(s, ps[1..]));
    }
  }

  lemma OrderDistinct<T>(s: State<T>)
    requires Distinct(s.priorities)
    ensures Distinct(SearchOrder(s))
    ensures forall p :: p in SearchOrder(s) <==> p in s.priorities || Some(p) == s.takeover
  {
    var rest := Except(s.priorities, s.takeover);
    ExceptDistinct(s.priorities, s.takeover);
    if s.takeover.Some? {
      DistinctCons(s.takeover.value, rest);
    } else {
      assert SearchOrder(s) == rest;
    }
  }

  /** Only `out` may occur twice. */
  ghost predicate DistinctBut(ps: seq<Protocol>, out: Option<Protocol>) {
    forall i, j :: 0 <= i < j < |ps| && ps[i] == ps[j] ==> Some(ps[i]) == out
  }

  lemma DistinctButCons(p: Protocol, ps: seq<Protocol>, out: Option<Protocol>)
    ensures DistinctBut([p] + ps, out) <==> DistinctBut(ps, out) && (p !in ps || Some(p) == out)
  {
    var all := [p] + ps;
    assert forall i :: 0 <= i < |ps| ==> all[i + 1] == ps[i];
    if DistinctBut(all, out) {
      forall i, j | 0 <= i < j < |ps| && ps[i] == ps[j]
        ensures Some(ps[i]) == out
      {
        assert all[i + 1] == all[j + 1];
      }
      if p in ps {
        var i :| 0 <= i < |ps| && ps[i] == p;
        assert all[0] == all[i + 1];
      }
    }
  }

  lemma {:induction false} ExceptDistinctIff(ps: seq<Protocol>, out: Option<Protocol>)
    ensures Distinct(Except(ps, out)) <==> DistinctBut(ps, out)
    decreases |ps|
  {
    hide Distinct, DistinctBut;
    if ps == [] {
      NothingTwice(out);
    } else {
      assert ps == [ps[0]] + ps[1..];
      ExceptDistinctIff(ps[1..], out);
      DistinctButCons(ps[0], ps[1..], out);
      DistinctCons(ps[0], Except(ps[1..], out));
    }
  }

  lemma NothingTwice(out: Option<Protocol>)
    ensures Distinct([]) && DistinctBut([], out)
  {
  }

  /**
   In any state the search order yields each protocol at most once if and only if no protocol but
   the one holding a takeover is listed twice in the priorities.
   */
  lemma SearchOrderDistinctIff<T>(s: State<T>)
    ensures Distinct(SearchOrder(s))
       <==> forall i, j :: 0 <= i < j < |s.priorities| && s.priorities[i] == s.priorities[j] ==> Some(s.priorities[i]) == s.takeover
  {
    var rest := Except(s.priorities, s.takeover);
    ExceptDistinctIff(s.priorities, s.takeover);
    if s.takeover.Some? {
      DistinctCons(s.takeover.value, rest);
    } else {
      assert SearchOrder(s) == rest;
    }
  }

  lemma {:induction false} DistinctCount(ps: seq<Protocol>)
    requires Distinct(ps)
    ensures |set p | p in ps| == |ps|
    decreases |ps|
  {
    if ps == [] {
    } else {
      var rest := ps[1..];
      assert ps == [ps[0]] + rest;
      DistinctCons(ps[0], rest);
      DistinctCount(rest);
      assert (set p | p in ps) == {ps[0]} + (set p | p in rest);
    }
  }

  /**
   After any operations on a relayer with a duplicate-free priority list, the protocols listed
   are exactly the registered ones, each once, whether or not somebody has taken over.
   */
  lemma {:induction false} ListedOnce<T>(priorities: seq<Protocol>, ops: seq<Op<T>>)
    requires Distinct(priorities)
    ensures var s := ApplyAll(New(priorities), ops);
            && Distinct(Protocols(s))
            && (forall p :: p in Protocols(s) <==> p in s.instances)
            && |Protocols(s)| == |s.instances|
  {
    hide SearchOrder, Distinct;
    var s := ApplyAll(New(priorities), ops);
    ApplyAllReachable(New(priorities), ops);
    OrderDistinct(s);
    RegisteredDistinct(s, SearchOrder(s));
    DistinctCount(Protocols(s));
    assert (set p | p in Protocols(s)) == s.instances.Keys;
  }

  /** With a protocol listed twice in the priorities, it is listed twice once it is registered. */
  lemma {:induction false} DuplicatesShow<T>(priorities: seq<Protocol>, instance: T)
    requires !Distinct(priorities)
    ensures exists p :: !Distinct(Protocols(Apply(New(priorities), Register(p, instance, {}))))
  {
    hide Protocols, Apply;
    var i, j :| 0 <= i < j < |priorities| && priorities[i] == priorities[j];
    DuplicateShows(priorities, i, j, instance);
  }

  lemma DuplicateShows<T>(priorities: seq<Protocol>, i: nat, j: nat, instance: T)
    requires i < j < |priorities| && priorities[i] == priorities[j]
    ensures !Distinct(Protocols(Apply(New(priorities), Register(priorities[i], instance, {}))))
  {
    hide Registered, Distinct, Except, SearchOrder, Count;
    var p := priorities[i];
    var s: State<T> := State(priorities, map[p := Registration(instance, {})], None);
    assert Apply(New(priorities), Register(p, instance, {})) == s;
    OrderWithoutTakeover(s);
    RegisteredCounts(s, priorities, p);
    TwiceCounts(priorities, i, j, p);
    NotDistinct(Registered(s, priorities));
  }

  lemma OrderWithoutTakeover<T>(s: State<T>)
    requires s.takeover.None?
    ensures SearchOrder(s) == s.priorities
  {
    ExceptNothing(s.priorities);
  }

  lemma NotDistinct(ps: seq<Protocol>)
    requires |ps| >= 2 && ps[0] == ps[1]
    ensures !Distinct(ps)
  {
  }

  lemma {:induction false} ExceptNothing(ps: seq<Protocol>)
    ensures Except(ps, None) == ps
    decreases |ps|
  {
    if ps == [] {
    } else {
      ExceptNothing(ps[1..]);
    }
  }

  function Count(ps: seq<Protocol>, p: Protocol): nat {
    if ps == [] then 0 else (if ps[0] == p then 1 else 0) + Count(ps[1..], p)
  }

  lemma {:induction false} TwiceCounts(ps: seq<Protocol>, i: nat, j: nat, p: Protocol)
    requires i < j < |ps| && ps[i] == p == ps[j]
    ensures Count(ps, p) >= 2
    decreases |ps|
  {
    if i > 0 {
      TwiceCounts(ps[1..], i - 1, j - 1, p);
    } else {
      OnceCounts(ps[1..], j - 1, p);
    }
  }

  lemma {:induction false} OnceCounts(ps: seq<Protocol>, j: nat, p: Protocol)
    requires j < |ps| && ps[j] == p
    ensures Count(ps, p) >= 1
    decreases |ps|
  {
    if j == 0 {
    } else {
      OnceCounts(ps[1..], j - 1, p);
    }
  }

  lemma {:induction false} RegisteredCounts<T>(s: State<T>, ps: seq<Protocol>, p: Protocol)
    requires s.instances.Keys == {p}
    ensures |Registered(s, ps)| == Count(ps, p)
    ensures forall k :: 0 <= k < |Registered(s, ps)| ==> Registered(s, ps)[k] == p
    decreases |ps|
  {
    if ps == [] {
    } else {
      RegisteredCounts(s, ps[1..], p);
    }
  }

  // ----- The queries agree -------------------------------------------------------------------

  /** Each query over a search order, said of the registered protocols in it. */
  lemma {:induction false} QueriesOver<T>(s: State<T>, ps: seq<Protocol>)
    ensures var listed := Registered(s, ps);
            && |InstancesOf(s, ps)| == |listed|
            && (forall i :: 0 <= i < |listed| ==> InstancesOf(s, ps)[i] == s.instances[listed[i]].instance)
            && FirstRegistered(s, ps) == (if listed == [] then None else Some(listed[0]))
            && FirstInstance(s, ps) == (if listed == [] then None else Some(s.instances[listed[0]].instance))
    decreases |ps|
  {
    if ps == [] {
    } else {
      QueriesOver(s, ps[1..]);
    }
  }

  /**
   The list of instances is the list of protocols looked up one by one, and the main protocol and
   main instance are its first entries.
   */
  lemma QueriesAgree<T>(s: State<T>)
    ensures var listed := Protocols(s);
            && |Instances(s)| == |listed|
            && (forall i :: 0 <= i < |listed| ==> Instances(s)[i] == s.instances[listed[i]].instance)
            && MainProtocol(s) == (if listed == [] then None else Some(listed[0]))
            && MainInstance(s) == (if listed == [] then None else Some(s.instances[listed[0]].instance))
  {
    QueriesOver(s, SearchOrder(s));
  }

  predicate Declares<T>(s: State<T>, p: Protocol, feature: Feature) {
    p in s.instances && feature in s.instances[p].declared
  }

  /** The first protocol of `listed` that declares the feature is at `i`. */
  ghost predicate FirstAt<T>(s: State<T>, listed: seq<Protocol>, feature: Feature, i: nat) {
    i < |listed| && Declares(s, listed[i], feature) && forall j :: 0 <= j < i ==> !Declares(s, listed[j], feature)
  }

  ghost predicate AnsweredByFirst<T>(s: State<T>, listed: seq<Protocol>, feature: Feature, x: T) {
    exists i: nat :: FirstAt(s, listed, feature, i) && x == s.instances[listed[i]].instance
  }

  ghost predicate NobodyDeclares<T>(s: State<T>, listed: seq<Protocol>, feature: Feature) {
    forall i :: 0 <= i < |listed| ==> !Declares(s, listed[i], feature)
  }

  lemma {:induction false} DeclaringOver<T>(s: State<T>, ps: seq<Protocol>, feature: Feature)
    ensures var listed, r := Registered(s, ps), FirstDeclaring(s, ps, feature);
            if r.None? then NobodyDeclares(s, listed, feature)
            else AnsweredByFirst(s, listed, feature, r.value)
    decreases |ps|
  {
    if ps == [] {
    } else {
      hide NobodyDeclares, AnsweredByFirst;
      DeclaringOver(s, ps[1..], feature);
      var listed, rest := Registered(s, ps), Registered(s, ps[1..]);
      var r := FirstDeclaring(s, ps, feature);
      if ps[0] in s.instances && feature in s.instances[ps[0]].declared {
        FirstHere(s, ps[0], rest, feature);
      } else if ps[0] in s.instances {
        if r.None? {
          NobodyAdded(s, ps[0], rest, feature);
        } else {
          FirstLater(s, ps[0], rest, feature, r.value);
        }
      }
    }
  }

  lemma FirstHere<T>(s: State<T>, p: Protocol, rest: seq<Protocol>, feature: Feature)
    requires Declares(s, p, feature)
    ensures AnsweredByFirst(s, [p] + rest, feature, s.instances[p].instance)
  {
    assert FirstAt(s, [p] + rest, feature, 0);
  }

  lemma NobodyAdded<T>(s: State<T>, p: Protocol, rest: seq<Protocol>, feature: Feature)
    requires !Declares(s, p, feature) && NobodyDeclares(s, rest, feature)
    ensures NobodyDeclares(s, [p] + rest, feature)
  {
  }

  lemma FirstLater<T>(s: State<T>, p: Protocol, rest: seq<Protocol>, feature: Feature, x: T)
    requires !Declares(s, p, feature) && AnsweredByFirst(s, rest, feature, x)
    ensures AnsweredByFirst(s, [p] + rest, feature, x)
  {
    var i: nat :| FirstAt(s, rest, feature, i) && x == s.instances[rest[i]].instance;
    assert FirstAt(s, [p] + rest, feature, i + 1);
  }

  /** A method's feature is answered by the first listed protocol that declared it, or by nobody. */
  lemma FirstDeclarerAnswers<T>(s: State<T>, feature: Feature)
    ensures var listed, r := Protocols(s), InstanceFor(s, feature);
            if r.None? then NobodyDeclares(s, listed, feature)
            else AnsweredByFirst(s, listed, feature, r.value)
  {
    hide NobodyDeclares, AnsweredByFirst;
    DeclaringOver(s, SearchOrder(s), feature);
  }

  // ----- Takeover ----------------------------------------------------------------------------------

  lemma {:induction false} RegisteredExcept<T>(s: State<T>, ps: seq<Protocol>, out: Option<Protocol>)
    ensures Registered(s, Except(ps, out)) == Except(Registered(s, ps), out)
    decreases |ps|
  {
    if ps == [] {
    } else {
      RegisteredExcept(s, ps[1..], out);
    }
  }

  /** A takeover moves its holder to the front, if it is registered, and keeps everyone else in order. */
  lemma TakeoverMovesToFront<T>(s: State<T>, p: Protocol)
    requires s.takeover.None?
    ensures Protocols(Apply(s, Takeover(p)))
         == (if p in s.instances then [p] else []) + Except(Protocols(s), Some(p))
  {
    var t: State<T> := Apply(s, Takeover(p));
    OrderWithoutTakeover(s);
    assert SearchOrder(t)[1..] == Except(s.priorities, Some(p)) && SearchOrder(t)[0] == p;
    SameInstances(s, t, Except(s.priorities, Some(p)));
    RegisteredExcept(s, s.priorities, Some(p));
  }

  lemma {:induction false} SameInstances<T>(s: State<T>, t: State<T>, ps: seq<Protocol>)
    requires s.instances == t.instances
    ensures Registered(s, ps) == Registered(t, ps)
    decreases |ps|
  {
    if ps == [] {
    } else {
      SameInstances(s, t, ps[1..]);
    }
  }

  /** The registrations among some operations. */
  function Registrations<T>(ops: seq<Op<T>>): seq<Op<T>> {
    if ops == [] then []
    else if ops[0].Register? then [ops[0]] + Registrations(ops[1..])
    else Registrations(ops[1..])
  }

  lemma {:induction false} OnlyTakeoverDiffers<T>(s: State<T>, t: State<T>, ops: seq<Op<T>>)
    requires s.(takeover := None) == t.(takeover := None)
    ensures ApplyAll(s, ops).(takeover := None) == ApplyAll(t, Registrations(ops)).(takeover := None)
    ensures t.takeover.None? ==> ApplyAll(t, Registrations(ops)).takeover.None?
    decreases |ops|
  {
    if ops == [] {
    } else {
      if ops[0].Register? {
        assert Registrations(ops)[0] == ops[0] && Registrations(ops)[1..] == Registrations(ops[1..]);
        OnlyTakeoverDiffers(Apply(s, ops[0]), Apply(t, ops[0]), ops[1..]);
      } else {
        OnlyTakeoverDiffers(Apply(s, ops[0]), t, ops[1..]);
      }
    }
  }

  lemma {:induction false} ApplyAllAppend<T>(s: State<T>, a: seq<Op<T>>, b: seq<Op<T>>)
    ensures ApplyAll(s, a + b) == ApplyAll(ApplyAll(s, a), b)
    decreases |a|
  {
    hide Apply;
    if a == [] {
      assert a + b == b;
    } else {
      assert (a + b)[0] == a[0] && (a + b)[1..] == a[1..] + b;
      ApplyAllAppend(Apply(s, a[0]), a[1..], b);
    }
  }

  /**
   Takeovers leave no trace: however they and their releases are mixed with registrations, after
   a final release the state is what the registrations alone would have made it.
   */
  lemma {:induction false} TakeoversLeaveNoTrace<T>(s: State<T>, ops: seq<Op<T>>)
    requires s.takeover.None?
    ensures ApplyAll(s, ops + [Release]) == ApplyAll(s, Registrations(ops))
  {
    ApplyAllAppend(s, ops, [Release]);
    OnlyTakeoverDiffers(s, s, ops);
    assert ApplyAll(ApplyAll(s, ops), [Release]) == Apply(ApplyAll(s, ops), Release);
  }

  // ----- What operations leave behind ------------------------------------------------------------

  /** Operation `i` is the last one that registers `p`. */
  ghost predicate LastRegisters<T>(ops: seq<Op<T>>, p: Protocol, i: nat) {
    && i < |ops| && ops[i].Register? && ops[i].protocol == p
    && forall j :: i < j < |ops| ==> !(ops[j].Register? && ops[j].protocol == p)
  }

  ghost predicate NeverRegistered<T>(ops: seq<Op<T>>, p: Protocol) {
    forall j :: 0 <= j < |ops| ==> !(ops[j].Register? && ops[j].protocol == p)
  }

  lemma {:induction false} LastRegistrationKept<T>(priorities: seq<Protocol>, ops: seq<Op<T>>, p: Protocol, i: nat)
    requires LastRegisters(ops, p, i)
    ensures var s := ApplyAll(New(priorities), ops);
            if p in priorities then p in s.instances && s.instances[p] == Registration(ops[i].instance, ops[i].declared)
            else p !in s.instances
    decreases |ops|
  {
    var n := |ops| - 1;
    var front, last := ops[..n], ops[n];
    assert ops == front + [last];
    ApplyAllAppend(New(priorities), front, [last]);
    ApplyAllReachable(New(priorities), front);
    var t: State<T> := ApplyAll(New(priorities), front);
    assert ApplyAll(t, [last]) == Apply(t, last) by { assert [last][1..] == []; }
    if i < n {
      LastRegistrationKept(priorities, front, p, i);
    }
  }

  lemma {:induction false} NeverRegisteredAbsent<T>(priorities: seq<Protocol>, ops: seq<Op<T>>, p: Protocol)
    requires NeverRegistered(ops, p)
    ensures p !in ApplyAll(New(priorities), ops).instances
    decreases |ops|
  {
    if ops == [] {
    } else {
      var n := |ops| - 1;
      var front, last := ops[..n], ops[n];
      assert ops == front + [last];
      ApplyAllAppend(New(priorities), front, [last]);
      var t: State<T> := ApplyAll(New(priorities), front);
      assert ApplyAll(t, [last]) == Apply(t, last) by { assert [last][1..] == []; }
      NeverRegisteredAbsent(priorities, front, p);
    }
  }

  /**
   After any operations: under each protocol stands exactly what its last registration gave, the
   instance with the features it declared, if the protocol is prioritised, and nothing otherwise.
   */
  lemma RegistrationsStand<T>(priorities: seq<Protocol>, ops: seq<Op<T>>, p: Protocol)
    ensures var s := ApplyAll(New(priorities), ops);
            && (p in s.instances <==> p in priorities && exists i: nat :: LastRegisters(ops, p, i))
            && (forall i: nat :: LastRegisters(ops, p, i) && p in priorities ==>
                  s.instances[p] == Registration(ops[i].instance, ops[i].declared))
  {
    hide ApplyAll, NeverRegistered;
    forall i: nat | LastRegisters(ops, p, i)
      ensures var s := ApplyAll(New(priorities), ops);
              if p in priorities then p in s.instances && s.instances[p] == Registration(ops[i].instance, ops[i].declared)
              else p !in s.instances
    {
      LastRegistrationKept(priorities, ops, p, i);
    }
    if !exists i: nat :: LastRegisters(ops, p, i) {
      NoLastNone(ops, p);
      NeverRegisteredAbsent(priorities, ops, p);
    }
  }

  lemma {:induction false} NoLastNone<T>(ops: seq<Op<T>>, p: Protocol)
    requires !exists i: nat :: LastRegisters(ops, p, i)
    ensures NeverRegistered(ops, p)
    decreases |ops|
  {
    if ops == [] {
    } else {
      var n := |ops| - 1;
      var front := ops[..n];
      assert !LastRegisters(ops, p, n);
      forall i: nat | LastRegisters(front, p, i)
        ensures false
      {
        assert LastRegisters(ops, p, i);
      }
      NoLastNone(front, p);
      assert forall j :: 0 <= j < n ==> ops[j] == front[j];
    }
  }

  /** Who claims first, if anybody does. */
  function FirstClaim<T>(ops: seq<Op<T>>): Option<Protocol> {
    if ops == [] then None else if ops[0].Takeover? then Some(ops[0].holder) else FirstClaim(ops[1..])
  }

  /** Until a release, a takeover stays with who held it or claimed it first, whoever claims it later. */
  lemma {:induction false} FirstClaimHolds<T>(s: State<T>, ops: seq<Op<T>>)
    requires forall i :: 0 <= i < |ops| ==> !ops[i].Release?
    ensures ApplyAll(s, ops).takeover == if s.takeover.Some? then s.takeover else FirstClaim(ops)
    ensures ApplyAll(s, ops + [Release]).takeover == None
    decreases |ops|
  {
    if ops == [] {
      assert (ops + [Release])[1..] == [];
    } else {
      assert (ops + [Release])[0] == ops[0] && (ops + [Release])[1..] == ops[1..] + [Release];
      FirstClaimHolds(Apply(s, ops[0]), ops[1..]);
    }
  }

  // ----- The relayer object ----------------------------------------------------------------------------

  class Relayer<T> {
    const priorities: seq<Protocol>
    var instances: map<Protocol, Registration<T>>
    var takeover: Option<Protocol>

    function Now(): State<T>
      reads this
    {
      State(priorities, instances, takeover)
    }

    ghost predicate Valid()
      reads this
    {
      Reachable(Now())
    }

    constructor (priorities: seq<Protocol>)
      ensures Valid() && Now() == New(priorities)
    {
      this.priorities := priorities;
      instances, takeover := map[], None;
    }

    method Register(protocol: Protocol, instance: T, declared: set<Feature>) returns (r: Result<(), Error>)
      requires Valid()
      modifies this`instances
      ensures Valid() && Now() == Apply(old(Now()), Op.Register(protocol, instance, declared))
      ensures r == if protocol in priorities then Ok(()) else Err(NotPrioritised(protocol))
    {
      if protocol !in priorities {
        return Err(NotPrioritised(protocol));
      }
      instances := instances[protocol := Registration(instance, declared)];
      return Ok(());
    }

    /** Exclusive: a second claim fails and changes nothing. */
    method Takeover(protocol: Protocol) returns (r: Result<(), Error>)
      requires Valid()
      modifies this`takeover
      ensures Valid() && Now() == Apply(old(Now()), Op.Takeover(protocol))
      ensures r == if old(takeover).Some? then Err(AlreadyTaken(old(takeover).value)) else Ok(())
    {
      if takeover.Some? {
        return Err(AlreadyTaken(takeover.value));
      }
      takeover := Some(protocol);
      return Ok(());
    }

    method Release()
      requires Valid()
      modifies this`takeover
      ensures Valid() && Now() == Apply(old(Now()), Op.Release)
    {
      takeover := None;
    }
  }
}
