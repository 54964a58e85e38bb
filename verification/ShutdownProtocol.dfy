/**
  Starting, stopping and sweeping trial containers around one reentrant lock. Trials run on
  threads of their own; sweeps run on the main thread, where a signal handler may start another
  sweep in the middle of one. Killing and removing a container are taken to succeed.
 */
module ShutdownProtocol {
  import opened Common

  type Name = string

  /** Where a trial's thread is; the phases marked with a star hold the lock. */
  datatype Phase =
    | Fresh        // `start` has not taken the lock
    | Locked       // * lock taken, stop event not looked at
    | Cleared      // * stop event seen unset
    | Registered   // * name added to the active set
    | Launched     // * `docker.start` returned or raised
    | Live         // `start` has released the lock
    | Leaving      // container killed or found exited
    | Discarding   // * lock taken to unregister
    | Discarded    // * name removed
    | Gone
    | Refused

  predicate Holds(p: Phase) {
    p in {Locked, Cleared, Registered, Launched, Discarding, Discarded}
  }

  datatype Thread = Main | Trial(name: Name)

  /** A sweep in progress; `todo` is the copied list of names once it has been made. */
  datatype Sweep = Wanting | Holding(stopSeen: bool, todo: Option<set<Name>>)

  /** `sweeps` is the main thread's stack, the running sweep last. */
  datatype State = State(
    stop: bool,
    active: set<Name>,
    running: set<Name>,
    owner: Option<Thread>,
    depth: nat,
    phase: map<Name, Phase>,
    sweeps: seq<Sweep>,
    swept: bool
  )

  function HoldCount(sweeps: seq<Sweep>): nat {
    if sweeps == [] then 0
    else HoldCount(sweeps[..|sweeps| - 1]) + if sweeps[|sweeps| - 1].Holding? then 1 else 0
  }

  ghost predicate Init(s: State) {
    && !s.stop && s.active == {} && s.running == {} && s.owner.None? && s.depth == 0 && s.sweeps == [] && !s.swept
    && forall n :: n in s.phase ==> s.phase[n] == Fresh
  }

  // ----- Steps -----------------------------------------------------------------------------------

  /** The stop event is set, by a signal or any other thread; it is never cleared. */
  ghost predicate RequestStop(s: State, t: State) {
    t == s.(stop := true)
  }

  /** A container may exit by itself at any time. */
  ghost predicate Exit(s: State, t: State, n: Name) {
    n in s.running && t == s.(running := s.running - {n})
  }

  ghost predicate TrialAcquire(s: State, t: State, n: Name) {
    && n in s.phase && s.phase[n] in {Fresh, Leaving} && s.owner.None?
    && var next := if s.phase[n] == Fresh then Locked else Discarding;
      t == s.(owner := Some(Trial(n)), depth := 1, phase := s.phase[n := next])
  }

  function Checked(s: State, n: Name): State {
    if s.stop then s.(owner := None, depth := 0, phase := s.phase[n := Refused])
    else s.(phase := s.phase[n := Cleared])
  }

  /** With the stop event set, `start` gives the lock back and returns false. */
  ghost predicate TrialCheck(s: State, t: State, n: Name) {
    && n in s.phase && s.phase[n] == Locked
    && t == Checked(s, n)
  }

  ghost predicate TrialRegister(s: State, t: State, n: Name) {
    && n in s.phase && s.phase[n] == Cleared
    && t == s.(active := s.active + {n}, phase := s.phase[n := Registered])
  }

  /** `docker.start`; when it raises, the container may run or not. */
  ghost predicate TrialLaunch(s: State, t: State, n: Name, up: bool) {
    && n in s.phase && s.phase[n] == Registered
    && t == s.(running := if up then s.running + {n} else s.running, phase := s.phase[n := Launched])
  }

  ghost predicate TrialRelease(s: State, t: State, n: Name) {
    && n in s.phase && s.phase[n] in {Launched, Discarded}
    && t == s.(owner := None, depth := 0, phase := s.phase[n := if s.phase[n] == Launched then Live else Gone])
  }

  /** `stop` kills the container, `start` removes one that exited immediately; neither holds the lock. */
  ghost predicate TrialEnd(s: State, t: State, n: Name) {
    && n in s.phase && s.phase[n] == Live
    && t == s.(running := s.running - {n}, phase := s.phase[n := Leaving])
  }

  ghost predicate TrialDiscard(s: State, t: State, n: Name) {
    && n in s.phase && s.phase[n] == Discarding
    && t == s.(active := s.active - {n}, phase := s.phase[n := Discarded])
  }

  /** The main thread enters a sweep, perhaps from a signal handler inside another one. */
  ghost predicate SweepEnter(s: State, t: State) {
    t == s.(sweeps := s.sweeps + [Wanting])
  }

  ghost predicate Top(s: State, w: Sweep) {
    s.sweeps != [] && s.sweeps[|s.sweeps| - 1] == w
  }

  function Replaced(s: State, w: Sweep): seq<Sweep>
    requires s.sweeps != []
  {
    s.sweeps[..|s.sweeps| - 1] + [w]
  }

  /** The lock is reentrant: the main thread gets it again when it already has it. */
  ghost predicate SweepAcquire(s: State, t: State) {
    && Top(s, Wanting) && (s.owner.None? || s.owner == Some(Main))
    && t == s.(owner := Some(Main), depth := s.depth + 1, sweeps := Replaced(s, Holding(s.stop, None)))
  }

  /** The sweep over the run's label removes what it can. */
  ghost predicate SweepLabelled(s: State, t: State, victims: set<Name>) {
    && s.sweeps != [] && s.sweeps[|s.sweeps| - 1].Holding?
    && t == s.(running := s.running - victims)
  }

  ghost predicate SweepList(s: State, t: State) {
    && s.sweeps != [] && s.sweeps[|s.sweeps| - 1].Holding? && s.sweeps[|s.sweeps| - 1].todo.None?
    && t == s.(sweeps := Replaced(s, s.sweeps[|s.sweeps| - 1].(todo := Some(s.active))))
  }

  ghost predicate SweepKill(s: State, t: State, n: Name) {
    && s.sweeps != [] && s.sweeps[|s.sweeps| - 1].Holding? && s.sweeps[|s.sweeps| - 1].todo.Some?
    && var w := s.sweeps[|s.sweeps| - 1];
    && n in w.todo.value
    && t == s.(running := s.running - {n}, active := s.active - {n},
               sweeps := Replaced(s, w.(todo := Some(w.todo.value - {n}))))
  }

  /** Leaving the `with` block, either at its end or because an exception passes through it. */
  ghost predicate SweepLeave(s: State, t: State, raised: bool) {
    && s.sweeps != [] && s.sweeps[|s.sweeps| - 1].Holding?
    && var w := s.sweeps[|s.sweeps| - 1];
    && (!raised ==> w.todo == Some({})) && s.depth > 0
    && t == s.(owner := if s.depth == 1 then None else s.owner, depth := s.depth - 1,
               sweeps := s.sweeps[..|s.sweeps| - 1], swept := s.swept || (!raised && w.stopSeen))
  }

  /** An exception reaches a sweep that still waits for the lock. */
  ghost predicate SweepGiveUp(s: State, t: State) {
    Top(s, Wanting) && t == s.(sweeps := s.sweeps[..|s.sweeps| - 1])
  }

  datatype Action =
    | AStop | AExit(n: Name) | AAcquire(n: Name) | ACheck(n: Name) | ARegister(n: Name) | ALaunch(n: Name, up: bool)
    | ARelease(n: Name) | AEnd(n: Name) | ADiscard(n: Name)
    | AEnter | AGrab | ALabelled(victims: set<Name>) | AList | AKill(n: Name) | ALeave(raised: bool) | AGiveUp

  ghost predicate Step(s: State, t: State, a: Action) {
    match a
    case AStop => RequestStop(s, t)
    case AExit(n) => Exit(s, t, n)
    case AAcquire(n) => TrialAcquire(s, t, n)
    case ACheck(n) => TrialCheck(s, t, n)
    case ARegister(n) => TrialRegister(s, t, n)
    case ALaunch(n, up) => TrialLaunch(s, t, n, up)
    case ARelease(n) => TrialRelease(s, t, n)
    case AEnd(n) => TrialEnd(s, t, n)
    case ADiscard(n) => TrialDiscard(s, t, n)
    case AEnter => SweepEnter(s, t)
    case AGrab => SweepAcquire(s, t)
    case ALabelled(victims) => SweepLabelled(s, t, victims)
    case AList => SweepList(s, t)
    case AKill(n) => SweepKill(s, t, n)
    case ALeave(raised) => SweepLeave(s, t, raised)
    case AGiveUp => SweepGiveUp(s, t)
  }

  // ----- What every step keeps -----------------------------------------------------------------------

  /** The lock belongs to whoever is inside it. */
  ghost predicate LockOk(s: State) {
    && (forall n :: n in s.phase ==> (Holds(s.phase[n]) <==> s.owner == Some(Trial(n))))
    && (s.owner == Some(Main) <==> HoldCount(s.sweeps) > 0)
    && (s.owner == Some(Main) ==> s.depth == HoldCount(s.sweeps)) && (s.owner.None? ==> s.depth == 0)
    && (s.owner.Some? && s.owner.value.Trial? ==> s.owner.value.name in s.phase)
  }

  /** No container runs without being registered. */
  ghost predicate TrackedOk(s: State) {
    && s.running <= s.active
    && (forall n :: n in s.phase && s.phase[n] == Registered ==> n in s.active)
    && (forall n :: n in s.phase && s.phase[n] in {Leaving, Discarding} ==> n !in s.running)
  }

  /** A sweep's list covers everything registered, and it saw a stop only if there was one. */
  ghost predicate SweepOk(s: State, w: Sweep) {
    w.Holding? ==> (w.stopSeen ==> s.stop) && (w.todo.Some? ==> s.active <= w.todo.value)
  }

  ghost predicate SweepsOk(s: State) {
    forall i :: 0 <= i < |s.sweeps| ==> SweepOk(s, s.sweeps[i])
  }

  /** After a completed sweep nothing is registered and no start is past its check. */
  ghost predicate SweptOk(s: State) {
    s.swept ==> s.stop && s.active == {} && forall n :: n in s.phase ==> s.phase[n] !in {Cleared, Registered}
  }

  ghost predicate Inv(s: State) {
    LockOk(s) && TrackedOk(s) && SweepsOk(s) && SweptOk(s)
  }

  lemma InitInv(s: State)
    requires Init(s)
    ensures Inv(s)
  {
  }

  predicate OnTrial(a: Action) {
    a.AAcquire? || a.ACheck? || a.ARegister? || a.ALaunch? || a.ARelease? || a.AEnd? || a.ADiscard?
  }

  lemma HoldCountReplaced(s: State, w: Sweep)
    requires s.sweeps != []
    ensures HoldCount(Replaced(s, w)) == HoldCount(s.sweeps[..|s.sweeps| - 1]) + if w.Holding? then 1 else 0
  {
    assert Replaced(s, w)[..|s.sweeps| - 1] == s.sweeps[..|s.sweeps| - 1];
  }

  lemma HoldCountPushed(s: State)
    ensures HoldCount(s.sweeps + [Wanting]) == HoldCount(s.sweeps)
  {
    assert (s.sweeps + [Wanting])[..|s.sweeps|] == s.sweeps;
  }

  lemma {:induction false} NoneHolding(sweeps: seq<Sweep>)
    requires HoldCount(sweeps) == 0
    ensures forall i :: 0 <= i < |sweeps| ==> sweeps[i].Wanting?
    decreases |sweeps|
  {
    if sweeps != [] {
      var front := sweeps[..|sweeps| - 1];
      NoneHolding(front);
      assert forall i :: 0 <= i < |front| ==> front[i] == sweeps[i];
    }
  }

  lemma TrialStepLock(s: State, t: State, a: Action)
    requires Inv(s) && Step(s, t, a) && OnTrial(a)
    ensures LockOk(t)
  {
  }

  lemma SweepHoldsLock(s: State, t: State, a: Action)
    requires Inv(s) && Step(s, t, a) && (a.AGrab? || a.AList? || a.AKill?)
    ensures LockOk(t)
  {
    HoldCountReplaced(s, if a.AGrab? then Holding(s.stop, None) else t.sweeps[|s.sweeps| - 1]);
  }

  lemma OtherStepLock(s: State, t: State, a: Action)
    requires Inv(s) && Step(s, t, a) && !OnTrial(a) && !a.AGrab? && !a.AList? && !a.AKill?
    ensures LockOk(t)
  {
    if a.AEnter? {
      HoldCountPushed(s);
    }
  }

  lemma StepTracked(s: State, t: State, a: Action)
    requires Inv(s) && Step(s, t, a)
    ensures TrackedOk(t)
  {
  }

  lemma StepSweeps(s: State, t: State, a: Action)
    requires Inv(s) && Step(s, t, a)
    ensures SweepsOk(t)
  {
    if a.ARegister? {
      NoneHolding(s.sweeps);
    }
  }

  lemma StepSwept(s: State, t: State, a: Action)
    requires Inv(s) && Step(s, t, a)
    ensures SweptOk(t)
  {
  }

  lemma StepInv(s: State, t: State, a: Action)
    requires Inv(s) && Step(s, t, a)
    ensures Inv(t)
  {
    if OnTrial(a) {
      TrialStepLock(s, t, a);
    } else if a.AGrab? || a.AList? || a.AKill? {
      SweepHoldsLock(s, t, a);
    } else {
      OtherStepLock(s, t, a);
    }
    StepTracked(s, t, a);
    StepSweeps(s, t, a);
    StepSwept(s, t, a);
  }

  // ----- Whole runs -----------------------------------------------------------------------------------

  ghost predicate IsRun(states: seq<State>, actions: seq<Action>) {
    && |states| == |actions| + 1 && Init(states[0])
    && forall i :: 0 <= i < |actions| ==> Step(states[i], states[i + 1], actions[i])
  }

  lemma {:induction false} RunInv(states: seq<State>, actions: seq<Action>, k: nat)
    requires IsRun(states, actions) && k < |states|
    ensures Inv(states[k])
    decreases k
  {
    if k > 0 {
      RunInv(states, actions, k - 1);
      StepInv(states[k - 1], states[k], actions[k - 1]);
    }
  }

  lemma {:induction false} SweptStays(states: seq<State>, actions: seq<Action>, i: nat, k: nat)
    requires IsRun(states, actions) && i <= k < |states| && states[i].swept
    ensures states[k].swept
    decreases k
  {
    if i < k {
      SweptStays(states, actions, i, k - 1);
      assert Step(states[k - 1], states[k - 1 + 1], actions[k - 1]);
    }
  }

  /**
    The main result: when a sweep that took the lock after the stop event was set has run to its
    end, no trial container runs, in that state and in every later one, so none starts again.
   */
  lemma NothingRunsAfterSweep(states: seq<State>, actions: seq<Action>, i: nat, k: nat)
    requires IsRun(states, actions) && i < |actions| && i < k < |states|
    requires var sweeps := states[i].sweeps;
      actions[i] == ALeave(false) && sweeps != [] && sweeps[|sweeps| - 1].Holding? && sweeps[|sweeps| - 1].stopSeen
    ensures states[k].running == {} && states[k].active == {}
  {
    assert Step(states[i], states[i + 1], actions[i]);
    SweptStays(states, actions, i + 1, k);
    RunInv(states, actions, k);
  }

  /** At any time, sweep or not, a running container is registered, so that a sweep finds it. */
  lemma RunningIsTracked(states: seq<State>, actions: seq<Action>, k: nat)
    requires IsRun(states, actions) && k < |states|
    ensures states[k].running <= states[k].active
  {
    RunInv(states, actions, k);
  }

  /** A step of the given thread inside the lock. */
  predicate MovesInside(thread: Thread, a: Action) {
    match thread
    case Main => a.AGrab? || a.AList? || a.AKill? || a == ALeave(false)
    case Trial(n) => a in {ACheck(n), ARegister(n), ALaunch(n, true), ARelease(n), ADiscard(n)}
  }

  /**
    Whoever holds the lock can take a step inside it, so it never holds itself up; for the main
    thread this needs the lock to be reentrant, as a handler may sweep inside a sweep.
   */
  lemma HolderCanMove(s: State)
    requires Inv(s) && s.owner.Some?
    ensures exists a, t :: Step(s, t, a) && MovesInside(s.owner.value, a)
  {
    if s.owner == Some(Main) {
      MainCanMove(s);
    } else {
      TrialCanMove(s, s.owner.value.name);
    }
  }

  lemma TrialCanMove(s: State, n: Name)
    requires n in s.phase && Holds(s.phase[n])
    ensures exists a, t :: Step(s, t, a) && MovesInside(Trial(n), a)
  {
    match s.phase[n] {
      case Locked =>
        assert Step(s, Checked(s, n), ACheck(n));
      case Cleared =>
        assert Step(s, s.(active := s.active + {n}, phase := s.phase[n := Registered]), ARegister(n));
      case Registered =>
        assert Step(s, s.(running := s.running + {n}, phase := s.phase[n := Launched]), ALaunch(n, true));
      case Launched =>
        assert Step(s, s.(owner := None, depth := 0, phase := s.phase[n := Live]), ARelease(n));
      case Discarding =>
        assert Step(s, s.(active := s.active - {n}, phase := s.phase[n := Discarded]), ADiscard(n));
      case Discarded =>
        assert Step(s, s.(owner := None, depth := 0, phase := s.phase[n := Gone]), ARelease(n));
    }
  }

  lemma MainCanMove(s: State)
    requires Inv(s) && s.owner == Some(Main)
    ensures exists a, t :: Step(s, t, a) && MovesInside(Main, a)
  {
    var w := s.sweeps[|s.sweeps| - 1];
    if w.Wanting? {
      var t := s.(owner := Some(Main), depth := s.depth + 1, sweeps := Replaced(s, Holding(s.stop, None)));
      assert Step(s, t, AGrab);
    } else if w.todo.None? {
      assert Step(s, s.(sweeps := Replaced(s, w.(todo := Some(s.active)))), AList);
    } else if w.todo.value == {} {
      var t := s.(owner := if s.depth == 1 then None else s.owner, depth := s.depth - 1,
                  sweeps := s.sweeps[..|s.sweeps| - 1], swept := s.swept || w.stopSeen);
      assert Step(s, t, ALeave(false));
    } else {
      var n :| n in w.todo.value;
      var t := s.(running := s.running - {n}, active := s.active - {n},
                  sweeps := Replaced(s, w.(todo := Some(w.todo.value - {n}))));
      assert Step(s, t, AKill(n));
    }
  }
}
