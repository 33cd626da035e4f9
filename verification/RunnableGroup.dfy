/**
  RunnableGroup.Start as a transition system: the caller, one goroutine per runnable that calls
  Start, one per runnable that calls Stop, a channel closed through a sync.Once, and a wait group.
 */
module RunnableGroup {
  import opened Text

  datatype MainPc = Spawning(next: nat) | Waiting | SpawningStops(next: nat) | WaitingGroup | Returned

  datatype StarterPc = NoStarter | InStart | AfterStart | StarterDone

  datatype StopperPc = NoStopper | BeforeStop | InStop | AfterStop | StopperDone

  datatype State = State(main: MainPc, starters: seq<StarterPc>, onceDone: bool, closes: nat,
                         stoppers: seq<StopperPc>, stops: seq<nat>, wg: int)

  function Initial(n: nat): State {
    State(Spawning(0), seq(n, _ => NoStarter), false, 0, seq(n, _ => NoStopper), seq(n, _ => 0), 0)
  }

  datatype Actor = Main | Starter(i: nat) | Stopper(i: nat)

  function StepMain(s: State): Option<State> {
    match s.main
    case Spawning(k) =>
      if k < |s.starters| then Some(s.(main := Spawning(k + 1), starters := s.starters[k := InStart]))
      else Some(s.(main := Waiting))
    case Waiting => if s.closes > 0 then Some(s.(main := SpawningStops(0), wg := s.wg + |s.starters|)) else None
    case SpawningStops(k) =>
      if k < |s.stoppers| then Some(s.(main := SpawningStops(k + 1), stoppers := s.stoppers[k := BeforeStop]))
      else Some(s.(main := WaitingGroup))
    case WaitingGroup => if s.wg == 0 then Some(s.(main := Returned)) else None
    case Returned => None
  }

  /** A runnable's Start returns; then the channel is closed, by the first to get there. */
  function StepStarter(s: State, i: nat): Option<State>
    requires i < |s.starters|
  {
    match s.starters[i]
    case InStart => Some(s.(starters := s.starters[i := AfterStart]))
    case AfterStart =>
      var closed := if s.onceDone then s else s.(onceDone := true, closes := s.closes + 1);
      Some(closed.(starters := s.starters[i := StarterDone]))
    case _ => None
  }

  /** A runnable's Stop is called, returns, and is counted off. */
  function StepStopper(s: State, i: nat): Option<State>
    requires i < |s.stoppers| && |s.stops| == |s.stoppers|
  {
    match s.stoppers[i]
    case BeforeStop => Some(s.(stoppers := s.stoppers[i := InStop], stops := s.stops[i := s.stops[i] + 1]))
    case InStop => Some(s.(stoppers := s.stoppers[i := AfterStop]))
    case AfterStop => Some(s.(stoppers := s.stoppers[i := StopperDone], wg := s.wg - 1))
    case _ => None
  }

  function Step(s: State, actor: Actor): Option<State> {
    match actor
    case Main => StepMain(s)
    case Starter(i) => if i < |s.starters| then StepStarter(s, i) else None
    case Stopper(i) => if i < |s.stoppers| && |s.stops| == |s.stoppers| then StepStopper(s, i) else None
  }

  function Run(s: State, schedule: seq<Actor>): Option<State>
    decreases |schedule|
  {
    if schedule == [] then Some(s)
    else match Step(s, schedule[0])
      case Some(next) => Run(next, schedule[1..])
      case None => None
  }

  ghost predicate Reachable(n: nat, s: State) {
    exists schedule :: Run(Initial(n), schedule) == Some(s)
  }

  // ---------------------------------------------------------------- what every step keeps

  predicate StartHasReturned(pc: StarterPc) {
    pc.AfterStart? || pc.StarterDone?
  }

  predicate SomeStartReturned(s: State) {
    exists i | 0 <= i < |s.starters| :: StartHasReturned(s.starters[i])
  }

  function StopsCalled(pc: StopperPc): nat {
    if pc.NoStopper? || pc.BeforeStop? then 0 else 1
  }

  predicate StopsBegun(s: State) {
    s.main.SpawningStops? || s.main.WaitingGroup? || s.main.Returned?
  }

  /** How many goroutines the caller has spawned so far. */
  function StartersSpawned(s: State): nat {
    if s.main.Spawning? then s.main.next else |s.starters|
  }

  function StoppersSpawned(s: State): nat {
    match s.main
    case SpawningStops(k) => k
    case WaitingGroup => |s.stoppers|
    case Returned => |s.stoppers|
    case _ => 0
  }

  function Finished(stoppers: seq<StopperPc>): set<nat> {
    set i: nat | i < |stoppers| && stoppers[i].StopperDone?
  }

  predicate Sizes(n: nat, s: State) {
    |s.starters| == n && |s.stoppers| == n && |s.stops| == n
  }

  predicate Spawned(s: State) {
    && StartersSpawned(s) <= |s.starters| && StoppersSpawned(s) <= |s.stoppers|
    && (forall i | 0 <= i < |s.starters| :: s.starters[i].NoStarter? <==> StartersSpawned(s) <= i)
    && (forall i | 0 <= i < |s.stoppers| :: s.stoppers[i].NoStopper? <==> StoppersSpawned(s) <= i)
  }

  predicate Closing(s: State) {
    && s.closes == (if s.onceDone then 1 else 0)
    && (s.onceDone <==> exists i | 0 <= i < |s.starters| :: s.starters[i].StarterDone?)
    && (StopsBegun(s) ==> s.onceDone)
  }

  predicate Counting(s: State) {
    && |s.stops| == |s.stoppers|
    && (forall i | 0 <= i < |s.stops| :: s.stops[i] == StopsCalled(s.stoppers[i]))
    && s.wg == (if StopsBegun(s) then |s.stoppers| - |Finished(s.stoppers)| else 0)
    && (s.main.Returned? ==> s.wg == 0)
  }

  predicate Invariant(n: nat, s: State) {
    Sizes(n, s) && Spawned(s) && Closing(s) && Counting(s)
  }

  lemma StepKeepsSpawned(n: nat, s: State, actor: Actor)
    requires Sizes(n, s) && Spawned(s) && Step(s, actor).Some?
    ensures Sizes(n, Step(s, actor).value) && Spawned(Step(s, actor).value)
  {
  }

  lemma StepKeepsClosing(n: nat, s: State, actor: Actor)
    requires Sizes(n, s) && Spawned(s) && Closing(s) && Step(s, actor).Some?
    ensures Closing(Step(s, actor).value)
  {
    var later := Step(s, actor).value;
    if s.onceDone {
      var i :| 0 <= i < |s.starters| && s.starters[i].StarterDone?;
      assert later.starters[i].StarterDone?;
    } else if actor.Starter? && s.starters[actor.i].AfterStart? {
      assert later.starters[actor.i].StarterDone?;
    }
  }

  lemma FinishedAfter(stoppers: seq<StopperPc>, i: nat, pc: StopperPc)
    requires i < |stoppers| && !stoppers[i].StopperDone?
    ensures |Finished(stoppers[i := pc])| == |Finished(stoppers)| + if pc.StopperDone? then 1 else 0
  {
    assert Finished(stoppers[i := pc]) == if pc.StopperDone? then Finished(stoppers) + {i} else Finished(stoppers);
  }

  lemma NoneFinished(stoppers: seq<StopperPc>)
    requires forall i | 0 <= i < |stoppers| :: stoppers[i].NoStopper?
    ensures Finished(stoppers) == {}
  {
  }

  lemma MainKeepsCounting(n: nat, s: State)
    requires Sizes(n, s) && Spawned(s) && Counting(s) && StepMain(s).Some?
    ensures Counting(StepMain(s).value)
  {
    if s.main.SpawningStops? && s.main.next < n { FinishedAfter(s.stoppers, s.main.next, BeforeStop); }
    if s.main.Waiting? { NoneFinished(s.stoppers); }
  }

  lemma StopperKeepsCounting(n: nat, s: State, i: nat)
    requires Sizes(n, s) && Spawned(s) && Counting(s) && i < n && StepStopper(s, i).Some?
    ensures Counting(StepStopper(s, i).value)
  {
    assert !s.stoppers[i].NoStopper? && StopsBegun(s);
    assert i !in Finished(s.stoppers);
    SmallerSet(Finished(s.stoppers), n);
    FinishedAfter(s.stoppers, i, StepStopper(s, i).value.stoppers[i]);
  }

  lemma StepKeepsCounting(n: nat, s: State, actor: Actor)
    requires Sizes(n, s) && Spawned(s) && Counting(s) && Step(s, actor).Some?
    ensures Counting(Step(s, actor).value)
  {
    match actor
    case Main => MainKeepsCounting(n, s);
    case Starter(i) =>
    case Stopper(i) => StopperKeepsCounting(n, s, i);
  }

  lemma InitialInvariant(n: nat)
    ensures Invariant(n, Initial(n))
  {
    NoneFinished(Initial(n).stoppers);
  }

  lemma {:induction false} RunKeepsInvariant(n: nat, s: State, schedule: seq<Actor>)
    requires Invariant(n, s) && Run(s, schedule).Some?
    ensures Invariant(n, Run(s, schedule).value)
    decreases |schedule|
  {
    if schedule != [] {
      StepKeepsSpawned(n, s, schedule[0]);
      StepKeepsClosing(n, s, schedule[0]);
      StepKeepsCounting(n, s, schedule[0]);
      RunKeepsInvariant(n, Step(s, schedule[0]).value, schedule[1..]);
    }
  }

  lemma ReachableInvariant(n: nat, s: State)
    requires Reachable(n, s)
    ensures Invariant(n, s)
  {
    var schedule :| Run(Initial(n), schedule) == Some(s);
    InitialInvariant(n);
    RunKeepsInvariant(n, Initial(n), schedule);
  }

  // ---------------------------------------------------------------- safety

  lemma {:induction false} SmallerSet(a: set<nat>, n: nat)
    requires forall i | i in a :: i < n
    ensures |a| <= n && (|a| == n ==> forall i: nat | i < n :: i in a)
  {
    if n > 0 {
      SmallerSet(a - {n - 1}, n - 1);
      if n - 1 in a { assert a == (a - {n - 1}) + {n - 1}; } else { assert a == a - {n - 1}; }
    }
  }

  /**
    In every reachable state the channel was closed at most once, no runnable was stopped twice,
    and none was stopped before some runnable's Start had returned. Once the group's Start has
    returned, every runnable was stopped once, and its Stop has returned.
   */
  lemma GroupIsSafe(n: nat, s: State)
    requires Reachable(n, s)
    ensures s.closes <= 1 && |s.stops| == n
    ensures forall i | 0 <= i < n :: s.stops[i] <= 1
    ensures forall i | 0 <= i < n && s.stops[i] > 0 :: SomeStartReturned(s)
    ensures s.main.Returned? ==> |s.stoppers| == n && forall i | 0 <= i < n :: s.stops[i] == 1 && s.stoppers[i].StopperDone?
    ensures s.main.Returned? ==> n > 0
  {
    ReachableInvariant(n, s);
    if s.onceDone {
      var i :| 0 <= i < |s.starters| && s.starters[i].StarterDone?;
      assert StartHasReturned(s.starters[i]);
    }
    forall i | 0 <= i < n && s.stops[i] > 0 ensures s.onceDone {
      assert !s.stoppers[i].NoStopper?;
    }
    if s.main.Returned? {
      SmallerSet(Finished(s.stoppers), n);
      forall i | 0 <= i < n ensures s.stops[i] == 1 && s.stoppers[i].StopperDone? {
        assert i in Finished(s.stoppers);
      }
    }
  }

  // ---------------------------------------------------------------- progress

  /** Steps that depend on no runnable: all but a return from Start or from Stop. */
  ghost predicate CanMove(s: State) {
    || Step(s, Main).Some?
    || (exists i | 0 <= i < |s.starters| :: s.starters[i].AfterStart?)
    || (exists i | 0 <= i < |s.stoppers| :: s.stoppers[i].BeforeStop? || s.stoppers[i].AfterStop?)
  }

  /** A group that has runnables never hangs by itself: when it cannot move, it waits for the first Start or for some Stop to return, or is done. */
  lemma GroupIsNeverStuck(n: nat, s: State)
    requires n > 0 && Reachable(n, s) && !CanMove(s)
    ensures || s.main.Returned?
            || (s.main.Waiting? && |s.starters| > 0 && forall i | 0 <= i < |s.starters| :: s.starters[i].InStart?)
            || (s.main.WaitingGroup? && exists i | 0 <= i < |s.stoppers| :: s.stoppers[i].InStop?)
  {
    ReachableInvariant(n, s);
    if s.main.WaitingGroup? && forall i | 0 <= i < |s.stoppers| :: !s.stoppers[i].InStop? {
      AllFinished(s.stoppers);
    }
  }

  /** No actor can take any step, now or ever, and the group has not returned. */
  ghost predicate StuckForGood(s: State) {
    !s.main.Returned? && forall actor :: Step(s, actor).None?
  }

  /** Such a state can be reached exactly in the empty group: its Start waits on a channel that nobody closes. */
  lemma StuckExactlyWhenEmpty(n: nat)
    ensures (exists s :: Reachable(n, s) && StuckForGood(s)) <==> n == 0
  {
    if n == 0 {
      EmptyGroupIsStuck();
    } else {
      forall s | Reachable(n, s) ensures !StuckForGood(s) { SomeStepIsLeft(n, s); }
    }
  }

  lemma EmptyGroupIsStuck()
    ensures exists s :: Reachable(0, s) && StuckForGood(s)
  {
    var start := Initial(0);
    var s := start.(main := Waiting);
    assert [Main][1..] == [] && Step(start, Main) == Some(s);
    assert Run(s, []) == Some(s) && Run(start, [Main]) == Some(s);
    assert Reachable(0, s) && StuckForGood(s);
  }

  lemma SomeStepIsLeft(n: nat, s: State)
    requires n > 0 && Reachable(n, s)
    ensures !StuckForGood(s)
  {
    ReachableInvariant(n, s);
    if !s.main.Returned? && !CanMove(s) {
      GroupIsNeverStuck(n, s);
      if s.main.Waiting? {
        assert Step(s, Starter(0)).Some?;
      } else {
        var i :| 0 <= i < |s.stoppers| && s.stoppers[i].InStop?;
        assert Step(s, Stopper(i)).Some?;
      }
    } else if CanMove(s) && Step(s, Main).None? {
      if i :| 0 <= i < |s.starters| && s.starters[i].AfterStart? {
        assert Step(s, Starter(i)).Some?;
      } else {
        var i :| 0 <= i < |s.stoppers| && (s.stoppers[i].BeforeStop? || s.stoppers[i].AfterStop?);
        assert Step(s, Stopper(i)).Some?;
      }
    }
  }

  lemma {:induction false} AllFinished(stoppers: seq<StopperPc>)
    requires forall i | 0 <= i < |stoppers| :: stoppers[i].StopperDone?
    ensures |Finished(stoppers)| == |stoppers|
    decreases |stoppers|
  {
    if stoppers != [] {
      var last := |stoppers| - 1;
      AllFinished(stoppers[..last]);
      assert Finished(stoppers) == Finished(stoppers[..last]) + {last};
    }
  }

  function MainStage(n: nat, main: MainPc): nat {
    match main
    case Spawning(k) => k
    case Waiting => n + 1
    case SpawningStops(k) => n + 2 + k
    case WaitingGroup => 2 * n + 3
    case Returned => 2 * n + 4
  }

  function StarterStage(pc: StarterPc): nat {
    match pc case NoStarter => 0 case InStart => 0 case AfterStart => 1 case StarterDone => 2
  }

  function StopperStage(pc: StopperPc): nat {
    match pc case NoStopper => 0 case BeforeStop => 0 case InStop => 1 case AfterStop => 2 case StopperDone => 3
  }

  function Total<T(!new)>(items: seq<T>, stage: T -> nat): nat {
    if items == [] then 0 else stage(items[0]) + Total(items[1..], stage)
  }

  function Progress(s: State): nat {
    MainStage(|s.starters|, s.main) + Total(s.starters, StarterStage) + Total(s.stoppers, StopperStage)
  }

  lemma {:induction false} TotalAfter<T(!new)>(items: seq<T>, stage: T -> nat, i: nat, item: T)
    requires i < |items|
    ensures Total(items[i := item], stage) == Total(items, stage) - stage(items[i]) + stage(item)
    decreases |items|
  {
    if i == 0 {
      assert items[0 := item][1..] == items[1..];
    } else {
      TotalAfter(items[1..], stage, i - 1, item);
      assert items[i := item][1..] == items[1..][i - 1 := item];
    }
  }

  lemma {:induction false} TotalBound<T(!new)>(items: seq<T>, stage: T -> nat, most: nat)
    requires forall x :: stage(x) <= most
    ensures Total(items, stage) <= most * |items|
    decreases |items|
  {
    if items != [] { TotalBound(items[1..], stage, most); }
  }

  lemma MainAdvances(n: nat, s: State)
    requires Sizes(n, s) && Spawned(s) && StepMain(s).Some?
    ensures Progress(StepMain(s).value) == Progress(s) + 1
  {
    if s.main.Spawning? && s.main.next < n { TotalAfter(s.starters, StarterStage, s.main.next, InStart); }
    if s.main.SpawningStops? && s.main.next < n { TotalAfter(s.stoppers, StopperStage, s.main.next, BeforeStop); }
  }

  lemma StarterAdvances(s: State, i: nat)
    requires i < |s.starters| && StepStarter(s, i).Some?
    ensures Progress(StepStarter(s, i).value) == Progress(s) + 1
  {
    TotalAfter(s.starters, StarterStage, i, StepStarter(s, i).value.starters[i]);
  }

  lemma StopperAdvances(s: State, i: nat)
    requires i < |s.stoppers| == |s.stops| && StepStopper(s, i).Some?
    ensures Progress(StepStopper(s, i).value) == Progress(s) + 1
  {
    TotalAfter(s.stoppers, StopperStage, i, StepStopper(s, i).value.stoppers[i]);
  }

  lemma StepAdvances(n: nat, s: State, actor: Actor)
    requires Invariant(n, s) && Step(s, actor).Some?
    ensures Progress(Step(s, actor).value) == Progress(s) + 1
  {
    match actor
    case Main => MainAdvances(n, s);
    case Starter(i) => StarterAdvances(s, i);
    case Stopper(i) => StopperAdvances(s, i);
  }

  lemma {:induction false} RunAdvances(n: nat, s: State, schedule: seq<Actor>)
    requires Invariant(n, s) && Run(s, schedule).Some?
    ensures Invariant(n, Run(s, schedule).value) && Progress(Run(s, schedule).value) == Progress(s) + |schedule|
    decreases |schedule|
  {
    if schedule != [] {
      StepAdvances(n, s, schedule[0]);
      RunKeepsInvariant(n, s, schedule[..1]);
      assert schedule[..1][1..] == [];
      RunAdvances(n, Step(s, schedule[0]).value, schedule[1..]);
    }
  }

  lemma {:induction false} NothingDone<T(!new)>(items: seq<T>, stage: T -> nat)
    requires forall x | x in items :: stage(x) == 0
    ensures Total(items, stage) == 0
    decreases |items|
  {
    if items != [] { NothingDone(items[1..], stage); }
  }

  /** No run goes on for ever: 7n + 4 steps is the most a group of n can take. */
  lemma RunsAreBounded(n: nat, schedule: seq<Actor>)
    requires Run(Initial(n), schedule).Some?
    ensures |schedule| <= 7 * n + 4
  {
    InitialInvariant(n);
    RunAdvances(n, Initial(n), schedule);
    var s := Run(Initial(n), schedule).value;
    NothingDone(Initial(n).starters, StarterStage);
    NothingDone(Initial(n).stoppers, StopperStage);
    TotalBound(s.starters, StarterStage, 2);
    TotalBound(s.stoppers, StopperStage, 3);
  }
}
