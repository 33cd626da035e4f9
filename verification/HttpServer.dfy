/**
  HTTPServer under concurrent Start and Stop calls, as a transition system: any number of calls,
  made at any time, each taking its steps one at a time in any order.
 */
module HttpServer {
  import opened Text

  /** Where a call is: first the steps of Start (with init inlined), then those of Stop. */
  datatype Pc =
    | InitLock | InitCheck | InitListen | InitCreate | InitUnlock(ok: bool) | LoadInstance | Serving(instance: nat) | StartReturned
    | StopLock | StopCheck | StopMark | StopInstance | Shutting(instance: nat) | StopUnlock | StopReturned

  /** Instances are numbered in the order of their creation; shut holds those on which Shutdown was called. */
  datatype State = State(lock: Option<nat>, stopped: bool, instance: Option<nat>, created: nat, shut: set<nat>, calls: map<nat, Pc>)

  const INITIAL: State := State(None, false, None, 0, {}, map[])

  /** A call begins, or goes on by one step; ok says how listening turned out where that matters. */
  datatype Move = CallStart | CallStop | Go(ok: bool)

  function At(s: State, t: nat, pc: Pc): State {
    s.(calls := s.calls[t := pc])
  }

  function Lock(s: State, t: nat, pc: Pc): Option<State> {
    if s.lock == None then Some(At(s, t, pc).(lock := Some(t))) else None
  }

  /** One step of call t, if it can take one now. */
  function Step(s: State, t: nat, move: Move): Option<State> {
    match move
    case CallStart => if t in s.calls then None else Some(At(s, t, InitLock))
    case CallStop => if t in s.calls then None else Some(At(s, t, StopLock))
    case Go(ok) =>
      if t !in s.calls then None
      else match s.calls[t]
        case InitLock => Lock(s, t, InitCheck)
        case InitCheck => Some(At(s, t, if s.stopped then InitUnlock(false) else InitListen))
        case InitListen => Some(At(s, t, if ok then InitCreate else InitUnlock(false)))
        case InitCreate => Some(At(s, t, InitUnlock(true)).(instance := Some(s.created), created := s.created + 1))
        case InitUnlock(true) => Some(At(s, t, LoadInstance).(lock := None))
        case InitUnlock(false) => Some(At(s, t, StartReturned).(lock := None))
        case LoadInstance => if s.instance.Some? then Some(At(s, t, Serving(s.instance.value))) else None
        case Serving(_) => Some(At(s, t, StartReturned))
        case StopLock => Lock(s, t, StopCheck)
        case StopCheck => Some(At(s, t, if s.stopped then StopUnlock else StopMark))
        case StopMark => Some(At(s, t, StopInstance).(stopped := true))
        case StopInstance =>
          if s.instance.Some? then Some(At(s, t, Shutting(s.instance.value)).(shut := s.shut + {s.instance.value}))
          else Some(At(s, t, StopUnlock))
        case Shutting(_) => Some(At(s, t, StopUnlock))
        case StopUnlock => Some(At(s, t, StopReturned).(lock := None))
        case StartReturned => None
        case StopReturned => None
  }

  type Schedule = seq<(nat, Move)>

  /** The state after a schedule; None when one of its steps could not be taken. */
  function Run(s: State, schedule: Schedule): Option<State>
    decreases |schedule|
  {
    if schedule == [] then Some(s)
    else match Step(s, schedule[0].0, schedule[0].1)
      case Some(next) => Run(next, schedule[1..])
      case None => None
  }

  ghost predicate Reachable(s: State) {
    exists schedule :: Run(INITIAL, schedule) == Some(s)
  }

  // ---------------------------------------------------------------- what every step keeps

  predicate Critical(pc: Pc) {
    pc.InitCheck? || pc.InitListen? || pc.InitCreate? || pc.InitUnlock?
    || pc.StopCheck? || pc.StopMark? || pc.StopInstance? || pc.Shutting? || pc.StopUnlock?
  }

  /** What is known of the fields by a call that has come this far. */
  predicate Knows(s: State, pc: Pc) {
    match pc
    case InitListen => !s.stopped
    case InitCreate => !s.stopped
    case InitUnlock(ok) => ok ==> s.created > 0
    case LoadInstance => s.created > 0
    case Serving(i) => i < s.created
    case StopMark => !s.stopped
    case StopInstance => s.stopped && s.shut == {}
    case Shutting(_) => s.stopped && s.shut == Latest(s)
    case StopUnlock => s.stopped && s.shut == Latest(s)
    case StopReturned => s.stopped && !Stopping(s)
    case _ => true
  }

  function Latest(s: State): set<nat> {
    if s.created == 0 then {} else {s.created - 1}
  }

  predicate Stopping(s: State) {
    s.lock.Some? && s.lock.value in s.calls && s.calls[s.lock.value].StopInstance?
  }

  predicate Exclusive(s: State) {
    && (forall t | t in s.calls :: Critical(s.calls[t]) <==> s.lock == Some(t))
    && (s.lock.Some? ==> s.lock.value in s.calls)
  }

  predicate Fields(s: State) {
    && s.instance == (if s.created == 0 then None else Some(s.created - 1))
    && s.shut == (if s.stopped && !Stopping(s) then Latest(s) else {})
  }

  predicate Knowledge(s: State) {
    forall t | t in s.calls :: Knows(s, s.calls[t])
  }

  predicate Invariant(s: State) {
    Exclusive(s) && Fields(s) && Knowledge(s)
  }

  lemma StepKeepsExclusion(s: State, t: nat, move: Move)
    requires Exclusive(s) && Step(s, t, move).Some?
    ensures Exclusive(Step(s, t, move).value)
  {
  }

  lemma StepKeepsFields(s: State, t: nat, move: Move)
    requires Exclusive(s) && Fields(s) && Step(s, t, move).Some?
    requires t in s.calls ==> Knows(s, s.calls[t])
    ensures Fields(Step(s, t, move).value)
  {
  }

  /** What the moving call knows afterwards. */
  lemma MoverKnows(s: State, t: nat, move: Move)
    requires Exclusive(s) && Fields(s) && Step(s, t, move).Some?
    requires t in s.calls ==> Knows(s, s.calls[t])
    ensures var later := Step(s, t, move).value; Knows(later, later.calls[t])
  {
  }

  /** What the other calls know stays true: the fields they rely on change only under the lock. */
  lemma OthersKnow(s: State, t: nat, move: Move, u: nat)
    requires Exclusive(s) && Fields(s) && Step(s, t, move).Some?
    requires t in s.calls ==> Knows(s, s.calls[t])
    requires u in s.calls && u != t && Knows(s, s.calls[u])
    ensures Knows(Step(s, t, move).value, s.calls[u])
  {
  }

  lemma StepKeepsInvariant(s: State, t: nat, move: Move)
    requires Invariant(s) && Step(s, t, move).Some?
    ensures Invariant(Step(s, t, move).value)
  {
    StepKeepsExclusion(s, t, move);
    StepKeepsFields(s, t, move);
    MoverKnows(s, t, move);
    var later := Step(s, t, move).value;
    forall u | u in later.calls ensures Knows(later, later.calls[u]) {
      if u != t { OthersKnow(s, t, move, u); CallsKept(s, t, move, u); }
    }
  }

  lemma CallsKept(s: State, t: nat, move: Move, u: nat)
    requires Step(s, t, move).Some? && u != t
    ensures var later := Step(s, t, move).value;
            (u in later.calls <==> u in s.calls) && (u in s.calls ==> later.calls[u] == s.calls[u])
  {
  }

  lemma {:induction false} RunKeepsInvariant(s: State, schedule: Schedule)
    requires Invariant(s) && Run(s, schedule).Some?
    ensures Invariant(Run(s, schedule).value)
    decreases |schedule|
  {
    if schedule != [] {
      StepKeepsInvariant(s, schedule[0].0, schedule[0].1);
      RunKeepsInvariant(Step(s, schedule[0].0, schedule[0].1).value, schedule[1..]);
    }
  }

  // ---------------------------------------------------------------- after Stop has returned

  predicate SomeStopReturned(s: State) {
    exists t | t in s.calls :: s.calls[t].StopReturned?
  }

  predicate AllShut(s: State) {
    forall i | 0 <= i < s.created :: i in s.shut
  }

  /** Once a Stop has returned, the latest instance is shut down and no other: all of them are, exactly when there was at most one. */
  lemma StopShutsTheLatest(s: State)
    requires Reachable(s) && SomeStopReturned(s)
    ensures forall i | 0 <= i < s.created :: i in s.shut <==> i == s.created - 1
    ensures AllShut(s) <==> s.created <= 1
    ensures s.created <= 1 ==> forall t | t in s.calls && s.calls[t].Serving? :: s.calls[t].instance in s.shut
  {
    var schedule :| Run(INITIAL, schedule) == Some(s);
    RunKeepsInvariant(INITIAL, schedule);
    assert s.shut == Latest(s);
    if s.created > 1 { assert 0 !in s.shut; }
  }

  lemma {:induction false} NothingChangesOnceStopped(s: State, schedule: Schedule)
    requires Invariant(s) && SomeStopReturned(s) && Run(s, schedule).Some?
    ensures var later := Run(s, schedule).value;
            later.created == s.created && later.shut == s.shut && later.instance == s.instance
    decreases |schedule|
  {
    if schedule != [] {
      StepKeepsInvariant(s, schedule[0].0, schedule[0].1);
      StepOnceStopped(s, schedule[0].0, schedule[0].1);
      NothingChangesOnceStopped(Step(s, schedule[0].0, schedule[0].1).value, schedule[1..]);
    }
  }

  lemma StepOnceStopped(s: State, t: nat, move: Move)
    requires Invariant(s) && SomeStopReturned(s) && Step(s, t, move).Some?
    ensures var later := Step(s, t, move).value;
            later.created == s.created && later.shut == s.shut && later.instance == s.instance && SomeStopReturned(later)
  {
    var u :| u in s.calls && s.calls[u].StopReturned?;
    var later := Step(s, t, move).value;
    assert u in later.calls && later.calls[u].StopReturned?;
  }

  /** Whatever is called and however it is interleaved, no instance is created after some Stop has returned. */
  lemma NoneCreatedAfterStop(s: State, schedule: Schedule)
    requires Reachable(s) && SomeStopReturned(s) && Run(s, schedule).Some?
    ensures Run(s, schedule).value.created == s.created && Run(s, schedule).value.shut == s.shut
  {
    var before :| Run(INITIAL, before) == Some(s);
    RunKeepsInvariant(INITIAL, before);
    NothingChangesOnceStopped(s, schedule);
  }

  // ---------------------------------------------------------------- a single Start

  predicate IsStart(pc: Pc) {
    pc.InitLock? || pc.InitCheck? || pc.InitListen? || pc.InitCreate? || pc.InitUnlock?
    || pc.LoadInstance? || pc.Serving? || pc.StartReturned?
  }

  /** A Start call that has not yet had its chance to create an instance. */
  predicate IsBefore(pc: Pc) {
    pc.InitLock? || pc.InitCheck? || pc.InitListen? || pc.InitCreate?
  }

  function Having(calls: map<nat, Pc>, p: Pc -> bool): set<nat> {
    set t | t in calls && p(calls[t])
  }

  function Starts(s: State): set<nat> {
    Having(s.calls, IsStart)
  }

  function Before(s: State): set<nat> {
    Having(s.calls, IsBefore)
  }

  lemma HavingAfter(calls: map<nat, Pc>, t: nat, pc: Pc, p: Pc -> bool)
    ensures |Having(calls[t := pc], p)|
            == |Having(calls, p)| + (if p(pc) then 1 else 0) - (if t in calls && p(calls[t]) then 1 else 0)
  {
    HavingButOne(calls, t, p);
    HavingButOne(calls[t := pc], t, p);
    assert Having(calls[t := pc], p) - {t} == Having(calls, p) - {t};
  }

  lemma HavingButOne(calls: map<nat, Pc>, t: nat, p: Pc -> bool)
    ensures |Having(calls, p)| == |Having(calls, p) - {t}| + if t in calls && p(calls[t]) then 1 else 0
  {
    if t in Having(calls, p) {
      assert Having(calls, p) == (Having(calls, p) - {t}) + {t};
    } else {
      assert Having(calls, p) == Having(calls, p) - {t};
    }
  }

  lemma OneCallMoves(s: State, t: nat, move: Move)
    requires Step(s, t, move).Some?
    ensures var later := Step(s, t, move).value; t in later.calls && later.calls == s.calls[t := later.calls[t]]
  {
  }

  lemma StepBudget(s: State, t: nat, move: Move)
    requires Step(s, t, move).Some?
    requires s.created + |Before(s)| <= |Starts(s)|
    ensures var later := Step(s, t, move).value; later.created + |Before(later)| <= |Starts(later)|
  {
    var later := Step(s, t, move).value;
    OneCallMoves(s, t, move);
    HavingAfter(s.calls, t, later.calls[t], IsStart);
    HavingAfter(s.calls, t, later.calls[t], IsBefore);
  }

  lemma {:induction false} RunBudget(s: State, schedule: Schedule)
    requires Run(s, schedule).Some?
    requires s.created + |Before(s)| <= |Starts(s)|
    ensures var later := Run(s, schedule).value; later.created + |Before(later)| <= |Starts(later)|
    decreases |schedule|
  {
    if schedule != [] {
      StepBudget(s, schedule[0].0, schedule[0].1);
      RunBudget(Step(s, schedule[0].0, schedule[0].1).value, schedule[1..]);
    }
  }

  /** With one Start call, as in a group of runnables, a returned Stop leaves nothing running. */
  lemma OneStartIsStopped(s: State)
    requires Reachable(s) && SomeStopReturned(s) && |Starts(s)| <= 1
    ensures AllShut(s)
    ensures forall t | t in s.calls && s.calls[t].Serving? :: s.calls[t].instance in s.shut
  {
    var schedule :| Run(INITIAL, schedule) == Some(s);
    assert Before(INITIAL) == {};
    RunBudget(INITIAL, schedule);
    StopShutsTheLatest(s);
  }

  // ---------------------------------------------------------------- a second Start

  lemma {:induction false} RunOfConcat(s: State, a: Schedule, b: Schedule)
    requires Run(s, a).Some?
    ensures Run(s, a + b) == Run(Run(s, a).value, b)
    decreases |a|
  {
    if a == [] {
      assert a + b == b;
    } else {
      RunOfConcat(Step(s, a[0].0, a[0].1).value, a[1..], b);
      assert (a + b)[1..] == a[1..] + b;
    }
  }

  /** A Start call made and taken to the point where it serves, and a Stop call to its return, with nothing in between. */
  function StartAlone(t: nat): Schedule {
    [(t, CallStart)] + Going(t, 6)
  }

  function StopAlone(t: nat): Schedule {
    [(t, CallStop)] + Going(t, 6)
  }

  function Going(t: nat, n: nat): Schedule {
    if n == 0 then [] else [(t, Go(true))] + Going(t, n - 1)
  }

  lemma OneMore(s: State, t: nat, n: nat)
    requires Step(s, t, Go(true)).Some? && n > 0
    ensures Run(s, Going(t, n)) == Run(Step(s, t, Go(true)).value, Going(t, n - 1))
  {
    assert Going(t, n)[1..] == Going(t, n - 1);
  }

  lemma SixMore(s1: State, s2: State, s3: State, s4: State, s5: State, s6: State, s7: State, t: nat)
    requires Step(s1, t, Go(true)) == Some(s2) && Step(s2, t, Go(true)) == Some(s3)
    requires Step(s3, t, Go(true)) == Some(s4) && Step(s4, t, Go(true)) == Some(s5)
    requires Step(s5, t, Go(true)) == Some(s6) && Step(s6, t, Go(true)) == Some(s7)
    ensures Run(s1, Going(t, 6)) == Some(s7)
  {
    OneMore(s1, t, 6);
    OneMore(s2, t, 5);
    OneMore(s3, t, 4);
    OneMore(s4, t, 3);
    OneMore(s5, t, 2);
    OneMore(s6, t, 1);
  }

  /** A Start call made while nothing else is under way gets its instance. */
  lemma StartSucceeds(s: State, t: nat)
    requires s.lock == None && !s.stopped && t !in s.calls
    ensures Run(s, StartAlone(t))
            == Some(State(None, false, Some(s.created), s.created + 1, s.shut, s.calls[t := Serving(s.created)]))
  {
    var s1 := Step(s, t, CallStart).value;
    var s2 := Step(s1, t, Go(true)).value;
    var s3 := Step(s2, t, Go(true)).value;
    var s4 := Step(s3, t, Go(true)).value;
    var s5 := Step(s4, t, Go(true)).value;
    var s6 := Step(s5, t, Go(true)).value;
    var s7 := Step(s6, t, Go(true)).value;
    assert s7 == State(None, false, Some(s.created), s.created + 1, s.shut, s.calls[t := Serving(s.created)]);
    SixMore(s1, s2, s3, s4, s5, s6, s7, t);
    assert StartAlone(t)[1..] == Going(t, 6);
  }

  lemma Overtaken(s: State, t: nat, earlier: Pc, pc: Pc)
    ensures At(At(s, t, earlier), t, pc) == At(s, t, pc)
  {
    assert s.calls[t := earlier][t := pc] == s.calls[t := pc];
  }

  lemma StopSucceeds(s: State, t: nat)
    requires s.lock == None && !s.stopped && t !in s.calls && s.instance.Some?
    ensures Run(s, StopAlone(t)) == Some(At(s, t, StopReturned).(stopped := true, shut := s.shut + {s.instance.value}))
  {
    var held := s.(lock := Some(t));
    var marked := held.(stopped := true);
    var shut := marked.(shut := s.shut + {s.instance.value});
    Overtaken(held, t, StopLock, StopCheck);
    Overtaken(held, t, StopCheck, StopMark);
    Overtaken(marked, t, StopMark, StopInstance);
    Overtaken(shut, t, StopInstance, Shutting(s.instance.value));
    Overtaken(shut, t, Shutting(s.instance.value), StopUnlock);
    Overtaken(shut, t, StopUnlock, StopReturned);
    SixMore(At(s, t, StopLock), At(held, t, StopCheck), At(held, t, StopMark), At(marked, t, StopInstance),
            At(shut, t, Shutting(s.instance.value)), At(shut, t, StopUnlock), At(shut, t, StopReturned).(lock := None), t);
    assert StopAlone(t)[1..] == Going(t, 6);
  }

  lemma ThreeRuns(s: State, s1: State, s2: State, s3: State, a: Schedule, b: Schedule, c: Schedule)
    requires Run(s, a) == Some(s1) && Run(s1, b) == Some(s2) && Run(s2, c) == Some(s3)
    ensures Run(s, a + b + c) == Some(s3)
  {
    RunOfConcat(s, a, b);
    RunOfConcat(s, a + b, c);
  }

  /** Two Start calls that both succeed, then Stop: it returns with the first instance still running. */
  lemma TwoStartsThenStop(s: State, t: nat, u: nat, v: nat)
    requires s.lock == None && !s.stopped && t !in s.calls && u !in s.calls && v !in s.calls && t != u && u != v && v != t
    ensures exists schedule, later :: Run(s, schedule) == Some(later)
              && v in later.calls && later.calls[v].StopReturned?
              && later.created == s.created + 2 && later.shut == s.shut + {s.created + 1}
              && t in later.calls && later.calls[t] == Serving(s.created)
  {
    StartSucceeds(s, t);
    var s1 := Run(s, StartAlone(t)).value;
    StartSucceeds(s1, u);
    var s2 := Run(s1, StartAlone(u)).value;
    StopSucceeds(s2, v);
    var s3 := Run(s2, StopAlone(v)).value;
    ThreeRuns(s, s1, s2, s3, StartAlone(t), StartAlone(u), StopAlone(v));
  }

  lemma SecondStartEscapesStop()
    ensures exists s :: Reachable(s) && SomeStopReturned(s) && s.created == 2 && s.shut == {1} && !AllShut(s)
              && 0 in s.calls && s.calls[0] == Serving(0)
  {
    TwoStartsThenStop(INITIAL, 0, 1, 2);
    var schedule, s :| Run(INITIAL, schedule) == Some(s) && 2 in s.calls && s.calls[2].StopReturned?
      && s.created == 2 && s.shut == {1} && 0 in s.calls && s.calls[0] == Serving(0);
    assert Reachable(s) && SomeStopReturned(s) && 0 !in s.shut;
  }
}
