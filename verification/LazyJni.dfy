/**
  `LazyGetClass` and `MethodID::LazyGet` (jni/jni_generator_helper.cpp) as step systems: any number of
  threads, each at its own place in the code, taking atomic steps in any order.
 */
module LazyClass {
  import opened Text

  type Ref = nat
  type Thread = nat

  /** Where a thread is: before the load; past it with nothing found; owning the global reference it
      made; with that reference still owned after a lost exchange; returned. */
  datatype Place = Entered | Missed | Owning(own: Ref) | Lost(own: Ref, found: Ref) | Returned(result: Ref)

  /** The shared cell, the live global references, and the threads inside a call or past it. */
  datatype State = State(cell: Option<Ref>, live: set<Ref>, threads: map<Thread, Place>)

  /** `Lookup` makes a global reference that is not in use; a null class aborts the process and is no step. */
  datatype Step =
    | Enter(t: Thread) | Load(t: Thread) | Lookup(t: Thread, made: Ref) | Exchange(t: Thread) | Drop(t: Thread)

  const INITIAL := State(None, {}, map[])

  predicate Enabled(s: State, step: Step) {
    match step
    case Enter(t) => t !in s.threads
    case Load(t) => t in s.threads && s.threads[t] == Entered
    case Lookup(t, made) => t in s.threads && s.threads[t] == Missed && made !in s.live
    case Exchange(t) => t in s.threads && s.threads[t].Owning?
    case Drop(t) => t in s.threads && s.threads[t].Lost?
  }

  function Take(s: State, step: Step): State
    requires Enabled(s, step)
  {
    match step
    case Enter(t) => s.(threads := s.threads[t := Entered])
    case Load(t) => s.(threads := s.threads[t := if s.cell.Some? then Returned(s.cell.value) else Missed])
    case Lookup(t, made) => s.(live := s.live + {made}, threads := s.threads[t := Owning(made)])
    case Exchange(t) =>
      var own := s.threads[t].own;
      if s.cell.None? then s.(cell := Some(own), threads := s.threads[t := Returned(own)])
      else s.(threads := s.threads[t := Lost(own, s.cell.value)])
    case Drop(t) =>
      var Lost(own, found) := s.threads[t];
      s.(live := s.live - {own}, threads := s.threads[t := Returned(found)])
  }

  predicate Holds(p: Place) { p.Owning? || p.Lost? }

  /** Owned references are live, not published, and no two threads own the same. */
  ghost predicate Separate(s: State) {
    && (forall t :: t in s.threads && Holds(s.threads[t]) ==>
          s.threads[t].own in s.live && s.cell != Some(s.threads[t].own))
    && (forall t, u :: t in s.threads && u in s.threads && t != u && Holds(s.threads[t]) && Holds(s.threads[u]) ==>
          s.threads[t].own != s.threads[u].own)
  }

  ghost predicate HasOwner(s: State, r: Ref) {
    exists t :: t in s.threads && Holds(s.threads[t]) && s.threads[t].own == r
  }

  /** Every live reference is the published one or owned. */
  ghost predicate Accounted(s: State) {
    && (s.cell.Some? ==> s.cell.value in s.live)
    && forall r :: r in s.live && s.cell != Some(r) ==> HasOwner(s, r)
  }

  /** Whoever found or returned a reference has the published one. */
  ghost predicate Agreed(s: State) {
    && (forall t :: t in s.threads && s.threads[t].Lost? ==> s.cell == Some(s.threads[t].found))
    && (forall t :: t in s.threads && s.threads[t].Returned? ==> s.cell == Some(s.threads[t].result))
  }

  ghost predicate Inv(s: State) { Separate(s) && Accounted(s) && Agreed(s) }

  lemma TakeKeepsSeparate(s: State, step: Step)
    requires Inv(s) && Enabled(s, step)
    ensures Separate(Take(s, step))
  {
  }

  lemma TakeKeepsAccounted(s: State, step: Step)
    requires Inv(s) && Enabled(s, step)
    ensures Accounted(Take(s, step))
  {
    var s' := Take(s, step);
    forall r | r in s'.live && s'.cell != Some(r) ensures HasOwner(s', r) {
      if step.Lookup? && r == step.made {
        assert Holds(s'.threads[step.t]) && s'.threads[step.t].own == r;
      } else {
        assert HasOwner(s, r);
        var u :| u in s.threads && Holds(s.threads[u]) && s.threads[u].own == r;
        assert Holds(s'.threads[u]) && s'.threads[u].own == r;
      }
    }
  }

  lemma TakeKeeps(s: State, step: Step)
    requires Inv(s) && Enabled(s, step)
    ensures Inv(Take(s, step))
  {
    TakeKeepsSeparate(s, step);
    TakeKeepsAccounted(s, step);
  }

  /** A run: the states around each step. */
  ghost predicate Run(t: seq<State>, steps: seq<Step>) {
    && |t| == |steps| + 1 && t[0] == INITIAL
    && forall i :: 0 <= i < |steps| ==> Enabled(t[i], steps[i]) && t[i + 1] == Take(t[i], steps[i])
  }

  lemma {:induction false} RunInv(t: seq<State>, steps: seq<Step>, i: nat)
    requires Run(t, steps) && i < |t|
    ensures Inv(t[i])
  {
    if i == 0 {
    } else {
      RunInv(t, steps, i - 1);
      TakeKeeps(t[i - 1], steps[i - 1]);
    }
  }

  /** The first reference published stays published and stays live. */
  lemma {:induction false} PublishedForGood(t: seq<State>, steps: seq<Step>, i: nat, j: nat)
    requires Run(t, steps) && i <= j < |t| && t[i].cell.Some?
    ensures t[j].cell == t[i].cell && t[i].cell.value in t[j].live
  {
    RunInv(t, steps, j);
    if i == j {
    } else {
      PublishedForGood(t, steps, i, j - 1);
    }
  }

  lemma {:induction false} ReturnedStays(t: seq<State>, steps: seq<Step>, i: nat, j: nat, u: Thread)
    requires Run(t, steps) && i <= j < |t| && u in t[i].threads && t[i].threads[u].Returned?
    ensures u in t[j].threads && t[j].threads[u] == t[i].threads[u]
  {
    if i == j {
    } else {
      ReturnedStays(t, steps, i, j - 1, u);
    }
  }

  /** All calls return the same reference, whenever they return, and it is live from then on. */
  lemma AllReturnTheSame(t: seq<State>, steps: seq<Step>, i: nat, j: nat, u: Thread, v: Thread)
    requires Run(t, steps) && i <= j < |t|
    requires u in t[i].threads && t[i].threads[u].Returned? && v in t[j].threads && t[j].threads[v].Returned?
    ensures t[i].threads[u].result == t[j].threads[v].result && t[i].threads[u].result in t[j].live
  {
    RunInv(t, steps, i);
    RunInv(t, steps, j);
    PublishedForGood(t, steps, i, j);
  }

  /** When every call has returned, exactly one global reference is live: the one they returned. */
  lemma OneReferenceRemains(t: seq<State>, steps: seq<Step>, i: nat, u: Thread)
    requires Run(t, steps) && i < |t| && u in t[i].threads
    requires forall v :: v in t[i].threads ==> t[i].threads[v].Returned?
    ensures t[i].live == {t[i].threads[u].result}
  {
    RunInv(t, steps, i);
    forall r | r in t[i].live ensures t[i].cell == Some(r) {
    }
  }

  // ----- the number of live references --------------------------------------------------------

  ghost function Holders(s: State): set<Thread> { set t | t in s.threads && Holds(s.threads[t]) }

  /** Conservation: the live references are as many as the threads that own one, plus the published one. */
  lemma LiveCount(t: seq<State>, steps: seq<Step>, i: nat)
    requires Run(t, steps) && i < |t|
    ensures |t[i].live| == |Holders(t[i])| + if t[i].cell.Some? then 1 else 0
  {
    RunInv(t, steps, i);
    var s := t[i];
    OwnedCount(s, Holders(s));
    var published := if s.cell.Some? then {s.cell.value} else {};
    assert s.live == OwnedBy(s, Holders(s)) + published by {
      forall r | r in s.live ensures r in OwnedBy(s, Holders(s)) + published {
        if s.cell != Some(r) {
          assert HasOwner(s, r);
          var u :| u in s.threads && Holds(s.threads[u]) && s.threads[u].own == r;
          assert u in Holders(s);
        }
      }
    }
    assert OwnedBy(s, Holders(s)) !! published;
  }

  ghost function OwnedBy(s: State, ts: set<Thread>): set<Ref>
    requires ts <= Holders(s)
  {
    set t | t in ts :: s.threads[t].own
  }

  lemma {:induction false} OwnedCount(s: State, ts: set<Thread>)
    requires Inv(s) && ts <= Holders(s)
    ensures |OwnedBy(s, ts)| == |ts|
  {
    if ts != {} {
      var t :| t in ts;
      OwnedCount(s, ts - {t});
      assert OwnedBy(s, ts) == OwnedBy(s, ts - {t}) + {s.threads[t].own};
    }
  }

  // ----- every call ends ----------------------------------------------------------------------

  /** Steps a thread still has before it, at most. */
  function Rank(p: Place): nat
  {
    match p
    case Entered => 4
    case Missed => 3
    case Owning(_) => 2
    case Lost(_, _) => 1
    case Returned(_) => 0
  }

  /** Wait-free: a thread that has not returned can always step, each of its own steps brings it closer to
      returning, and no step of another thread moves it. */
  lemma WaitFree(s: State, t: Thread)
    requires Inv(s) && t in s.threads && !s.threads[t].Returned?
    ensures exists step :: Enabled(s, step) && step.t == t
    ensures forall step :: Enabled(s, step) ==>
              if step.t == t then Rank(Take(s, step).threads[t]) < Rank(s.threads[t])
              else t in Take(s, step).threads && Take(s, step).threads[t] == s.threads[t]
  {
    var made := Unused(s.live);
    match s.threads[t]
    case Entered => assert Enabled(s, Load(t));
    case Missed => assert Enabled(s, Lookup(t, made));
    case Owning(_) => assert Enabled(s, Exchange(t));
    case Lost(_, _) => assert Enabled(s, Drop(t));
  }

  ghost predicate Below(live: set<Ref>, n: nat) { forall r :: r in live ==> r < n }

  /** There is always a reference not in use. */
  lemma {:induction false} Unused(live: set<Ref>) returns (n: nat)
    ensures Below(live, n)
  {
    if live == {} {
      n := 0;
    } else {
      var x :| x in live;
      var m := Unused(live - {x});
      n := if m > x then m else x + 1;
      forall r | r in live ensures r < n {
        assert r == x || r in live - {x};
      }
    }
  }

  // ----- who looks the class up ---------------------------------------------------------------

  /** The call of thread `u` found the cell empty: it loaded before the first publication. */
  ghost predicate LoadedEarly(t: seq<State>, steps: seq<Step>, i: nat, u: Thread)
    requires |t| == |steps| + 1 && i <= |steps|
  {
    exists j :: 0 <= j < i && steps[j] == Load(u) && t[j].cell.None?
  }

  ghost predicate LookedUp(steps: seq<Step>, i: nat, u: Thread)
    requires i <= |steps|
  {
    exists j :: 0 <= j < i && steps[j].Lookup? && steps[j].t == u
  }

  lemma EarlyNext(t: seq<State>, steps: seq<Step>, i: nat, u: Thread)
    requires |t| == |steps| + 1 && i < |steps|
    ensures LoadedEarly(t, steps, i + 1, u) <==>
            LoadedEarly(t, steps, i, u) || (steps[i] == Load(u) && t[i].cell.None?)
    ensures LookedUp(steps, i + 1, u) <==> LookedUp(steps, i, u) || (steps[i].Lookup? && steps[i].t == u)
  {
    if j :| 0 <= j < i + 1 && steps[j] == Load(u) && t[j].cell.None? {
      assert j < i || j == i;
    }
    if j :| 0 <= j < i + 1 && steps[j].Lookup? && steps[j].t == u {
      assert j < i || j == i;
    }
  }

  /** Where a thread is tells whether it loaded early and whether it has looked up. */
  predicate History(s: State, u: Thread, early: bool, looked: bool) {
    if u !in s.threads || s.threads[u] == Entered then !early && !looked
    else match s.threads[u]
      case Missed => early && !looked
      case Owning(_) => early && looked
      case Lost(_, _) => early && looked
      case _ => early == looked
  }

  lemma {:induction false} HistoryHolds(t: seq<State>, steps: seq<Step>, i: nat, u: Thread)
    requires Run(t, steps) && i < |t|
    ensures History(t[i], u, LoadedEarly(t, steps, i, u), LookedUp(steps, i, u))
  {
    if i == 0 {
    } else {
      HistoryHolds(t, steps, i - 1, u);
      EarlyNext(t, steps, i - 1, u);
      assert Enabled(t[i - 1], steps[i - 1]);
    }
  }

  /** A call that has returned has looked the class up exactly when its load came before the first
      publication; and a load finds the cell empty exactly while nothing has been published. */
  lemma LooksUpIffEarly(t: seq<State>, steps: seq<Step>, i: nat, u: Thread, j: nat)
    requires Run(t, steps) && i < |t| && u in t[i].threads && t[i].threads[u].Returned? && j < |t|
    ensures LookedUp(steps, i, u) <==> LoadedEarly(t, steps, i, u)
    ensures t[j].cell.None? <==> forall k :: 0 <= k <= j ==> t[k].cell.None?
  {
    HistoryHolds(t, steps, i, u);
    forall k | 0 <= k <= j && t[k].cell.Some? ensures t[j].cell.Some? {
      PublishedForGood(t, steps, k, j);
    }
  }

  /** Some run ends in this state. */
  ghost predicate Reachable(s: State) {
    exists t: seq<State>, steps: seq<Step> :: Run(t, steps) && t[|steps|] == s
  }

  lemma ReachNext(s: State, step: Step)
    requires Reachable(s) && Enabled(s, step)
    ensures Reachable(Take(s, step))
  {
    var t: seq<State>, steps: seq<Step> :| Run(t, steps) && t[|steps|] == s;
    var t', steps' := t + [Take(s, step)], steps + [step];
    assert Run(t', steps') && t'[|steps'|] == Take(s, step);
  }

  /** `n` threads have each made a reference of their own and none has published it. */
  function AllOwning(n: nat): State {
    var threads := map t: nat | t < n :: Owning(t);
    State(None, threads.Keys, threads)
  }

  /** The effort may be duplicated any number of times: any number of threads can have looked the class up
      before one of them publishes. */
  lemma {:induction false} AnyNumberLookUp(n: nat)
    ensures Reachable(AllOwning(n))
  {
    if n == 0 {
      assert AllOwning(0) == INITIAL;
      assert Run([INITIAL], []) && [INITIAL][0] == INITIAL;
    } else {
      AnyNumberLookUp(n - 1);
      var s, u := AllOwning(n - 1), n - 1;
      ReachNext(s, Enter(u));
      var s1 := Take(s, Enter(u));
      ReachNext(s1, Load(u));
      var s2 := Take(s1, Load(u));
      ReachNext(s2, Lookup(u, u));
      assert Take(s2, Lookup(u, u)) == AllOwning(n);
    }
  }
}

module LazyMethod {
  import opened Text

  type Id = nat
  type Thread = nat

  datatype Place = Entered | Missed | Found(id: Id) | Returned(result: Id)

  datatype State = State(cell: Option<Id>, threads: map<Thread, Place>)

  datatype Step = Enter(t: Thread) | Load(t: Thread) | Lookup(t: Thread, id: Id) | Store(t: Thread)

  const INITIAL := State(None, map[])

  /** `answers` are the ids the lookup may give. */
  predicate Enabled(s: State, step: Step, answers: set<Id>) {
    match step
    case Enter(t) => t !in s.threads
    case Load(t) => t in s.threads && s.threads[t] == Entered
    case Lookup(t, id) => t in s.threads && s.threads[t] == Missed && id in answers
    case Store(t) => t in s.threads && s.threads[t].Found?
  }

  function Take(s: State, step: Step): State
    requires step.Store? ==> step.t in s.threads && s.threads[step.t].Found?
  {
    match step
    case Enter(t) => s.(threads := s.threads[t := Entered])
    case Load(t) => s.(threads := s.threads[t := if s.cell.Some? then Returned(s.cell.value) else Missed])
    case Lookup(t, id) => s.(threads := s.threads[t := Found(id)])
    case Store(t) =>
      var id := s.threads[t].id;
      State(Some(id), s.threads[t := Returned(id)])
  }

  ghost predicate Run(t: seq<State>, steps: seq<Step>, answers: set<Id>) {
    && |t| == |steps| + 1 && t[0] == INITIAL
    && forall i :: 0 <= i < |steps| ==> Enabled(t[i], steps[i], answers) && t[i + 1] == Take(t[i], steps[i])
  }

  /** Every id around comes from the lookup. */
  ghost predicate Inv(s: State, answers: set<Id>) {
    && (s.cell.Some? ==> s.cell.value in answers)
    && (forall t :: t in s.threads && s.threads[t].Found? ==> s.threads[t].id in answers)
    && (forall t :: t in s.threads && s.threads[t].Returned? ==> s.threads[t].result in answers)
  }

  lemma {:induction false} RunInv(t: seq<State>, steps: seq<Step>, answers: set<Id>, i: nat)
    requires Run(t, steps, answers) && i < |t|
    ensures Inv(t[i], answers)
  {
    if i == 0 {
    } else {
      RunInv(t, steps, answers, i - 1);
      assert Enabled(t[i - 1], steps[i - 1], answers);
    }
  }

  ghost predicate Agreement(s: State) {
    forall u, v :: u in s.threads && v in s.threads && s.threads[u].Returned? && s.threads[v].Returned? ==>
      s.threads[u].result == s.threads[v].result
  }

  ghost predicate AlwaysAgrees(answers: set<Id>) {
    forall t: seq<State>, steps: seq<Step> :: Run(t, steps, answers) ==> Agreement(t[|steps|])
  }

  /** Some run ends in this state. */
  ghost predicate Reachable(s: State, answers: set<Id>) {
    exists t: seq<State>, steps: seq<Step> :: Run(t, steps, answers) && t[|steps|] == s
  }

  lemma ReachNext(s: State, step: Step, answers: set<Id>)
    requires Reachable(s, answers) && Enabled(s, step, answers)
    ensures Reachable(Take(s, step), answers)
  {
    var t: seq<State>, steps: seq<Step> :| Run(t, steps, answers) && t[|steps|] == s;
    var t', steps' := t + [Take(s, step)], steps + [step];
    assert Run(t', steps', answers) && t'[|steps'|] == Take(s, step);
  }

  /** Two threads that both miss and get different answers return different ids. */
  lemma RaceDisagrees(a: Id, b: Id, answers: set<Id>)
    requires a in answers && b in answers && a != b
    ensures !AlwaysAgrees(answers)
  {
    var s0 := INITIAL;
    assert Run([s0], [], answers) && [s0][0] == s0;
    assert Reachable(s0, answers);
    ReachNext(s0, Enter(0), answers);
    var s1 := State(None, map[0 := Entered]);
    ReachNext(s1, Enter(1), answers);
    var s2 := State(None, map[0 := Entered][1 := Entered]);
    ReachNext(s2, Load(0), answers);
    var s3 := s2.(threads := s2.threads[0 := Missed]);
    ReachNext(s3, Load(1), answers);
    BothMissed(s3.(threads := s3.threads[1 := Missed]), a, b, answers);
  }

  lemma BothMissed(s: State, a: Id, b: Id, answers: set<Id>)
    requires Reachable(s, answers) && 0 in s.threads && 1 in s.threads && s.threads[0] == s.threads[1] == Missed
    requires a in answers && b in answers && a != b
    ensures !AlwaysAgrees(answers)
  {
    ReachNext(s, Lookup(0, a), answers);
    var s1 := Take(s, Lookup(0, a));
    ReachNext(s1, Lookup(1, b), answers);
    var s2 := Take(s1, Lookup(1, b));
    ReachNext(s2, Store(0), answers);
    var s3 := Take(s2, Store(0));
    ReachNext(s3, Store(1), answers);
    var s4 := Take(s3, Store(1));
    assert s4.threads[0] == Returned(a) && s4.threads[1] == Returned(b);
    assert !Agreement(s4);
    var t: seq<State>, steps: seq<Step> :| Run(t, steps, answers) && t[|steps|] == s4;
  }

  /** The plain store is safe exactly because lookups are deterministic: threads agree in every run if and
      only if the lookup has at most one answer. */
  lemma AgreesIffDeterministic(answers: set<Id>)
    ensures AlwaysAgrees(answers) <==> forall a, b :: a in answers && b in answers ==> a == b
  {
    if forall a, b :: a in answers && b in answers ==> a == b {
      forall t: seq<State>, steps: seq<Step> | Run(t, steps, answers) ensures Agreement(t[|steps|]) {
        RunInv(t, steps, answers, |steps|);
      }
    } else {
      var a, b :| a in answers && b in answers && a != b;
      RaceDisagrees(a, b, answers);
    }
  }

  // ----- who looks the method up --------------------------------------------------------------

  /** The call of thread `u` found the cell empty: it loaded before the first store. */
  ghost predicate LoadedEarly(t: seq<State>, steps: seq<Step>, i: nat, u: Thread)
    requires |t| == |steps| + 1 && i <= |steps|
  {
    exists j :: 0 <= j < i && steps[j] == Load(u) && t[j].cell.None?
  }

  ghost predicate LookedUp(steps: seq<Step>, i: nat, u: Thread)
    requires i <= |steps|
  {
    exists j :: 0 <= j < i && steps[j].Lookup? && steps[j].t == u
  }

  lemma EarlyNext(t: seq<State>, steps: seq<Step>, i: nat, u: Thread)
    requires |t| == |steps| + 1 && i < |steps|
    ensures LoadedEarly(t, steps, i + 1, u) <==>
            LoadedEarly(t, steps, i, u) || (steps[i] == Load(u) && t[i].cell.None?)
    ensures LookedUp(steps, i + 1, u) <==> LookedUp(steps, i, u) || (steps[i].Lookup? && steps[i].t == u)
  {
    if j :| 0 <= j < i + 1 && steps[j] == Load(u) && t[j].cell.None? {
      assert j < i || j == i;
    }
    if j :| 0 <= j < i + 1 && steps[j].Lookup? && steps[j].t == u {
      assert j < i || j == i;
    }
  }

  predicate History(s: State, u: Thread, early: bool, looked: bool) {
    if u !in s.threads || s.threads[u] == Entered then !early && !looked
    else match s.threads[u]
      case Missed => early && !looked
      case Found(_) => early && looked
      case _ => early == looked
  }

  lemma {:induction false} HistoryHolds(t: seq<State>, steps: seq<Step>, answers: set<Id>, i: nat, u: Thread)
    requires Run(t, steps, answers) && i < |t|
    ensures History(t[i], u, LoadedEarly(t, steps, i, u), LookedUp(steps, i, u))
  {
    if i == 0 {
    } else {
      HistoryHolds(t, steps, answers, i - 1, u);
      EarlyNext(t, steps, i - 1, u);
      assert Enabled(t[i - 1], steps[i - 1], answers);
    }
  }

  lemma {:induction false} StaysStored(t: seq<State>, steps: seq<Step>, answers: set<Id>, i: nat, j: nat)
    requires Run(t, steps, answers) && i <= j < |t| && t[i].cell.Some?
    ensures t[j].cell.Some?
  {
    if i == j {
    } else {
      StaysStored(t, steps, answers, i, j - 1);
      assert Enabled(t[j - 1], steps[j - 1], answers);
    }
  }

  /** A call that has returned has looked the method up exactly when its load came before the first store;
      and a load finds the cell empty exactly while nothing has been stored. */
  lemma LooksUpIffEarly(t: seq<State>, steps: seq<Step>, answers: set<Id>, i: nat, u: Thread, j: nat)
    requires Run(t, steps, answers) && i < |t| && u in t[i].threads && t[i].threads[u].Returned? && j < |t|
    ensures LookedUp(steps, i, u) <==> LoadedEarly(t, steps, i, u)
    ensures t[j].cell.None? <==> forall k :: 0 <= k <= j ==> t[k].cell.None?
  {
    HistoryHolds(t, steps, answers, i, u);
    forall k | 0 <= k <= j && t[k].cell.Some? ensures t[j].cell.Some? {
      StaysStored(t, steps, answers, k, j);
    }
  }

  /** `n` threads have each looked the method up and none has stored it. */
  function AllFound(n: nat, id: Id): (s: State)
    ensures s.cell == None && forall t: Thread :: t in s.threads <==> t < n
    ensures forall t :: t in s.threads ==> s.threads[t] == Found(id)
  {
    if n == 0 then INITIAL else State(None, AllFound(n - 1, id).threads[n - 1 := Found(id)])
  }

  /** Here too the effort may be duplicated any number of times. */
  lemma {:induction false} AnyNumberLookUp(n: nat, id: Id, answers: set<Id>)
    requires id in answers
    ensures Reachable(AllFound(n, id), answers)
  {
    if n == 0 {
      assert AllFound(0, id) == INITIAL;
      assert Run([INITIAL], [], answers) && [INITIAL][0] == INITIAL;
    } else {
      AnyNumberLookUp(n - 1, id, answers);
      var s, u := AllFound(n - 1, id), n - 1;
      ReachNext(s, Enter(u), answers);
      var s1 := Take(s, Enter(u));
      ReachNext(s1, Load(u), answers);
      var s2 := Take(s1, Load(u));
      ReachNext(s2, Lookup(u, id), answers);
      assert Take(s2, Lookup(u, id)) == AllFound(n, id);
    }
  }
}
