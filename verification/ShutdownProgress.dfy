/**
  What the shutdown protocol still lets happen: without a stop every start can reach a running
  container, it is refused exactly for a stop, and a sweep can always run to its end.
 */
module ShutdownProgress {
  import opened Common
  import opened ShutdownProtocol

  /** Steps from one state to another, as many as there are actions. */
  ghost predicate IsPath(states: seq<State>, actions: seq<Action>) {
    && |states| == |actions| + 1
    && forall i :: 0 <= i < |actions| ==> Step(states[i], states[i + 1], actions[i])
  }

  lemma PathExtends(states: seq<State>, actions: seq<Action>, t: State, a: Action)
    requires IsPath(states, actions) && Step(states[|actions|], t, a)
    ensures IsPath(states + [t], actions + [a])
  {
    var more, acts := states + [t], actions + [a];
    forall i | 0 <= i < |acts| ensures Step(more[i], more[i + 1], acts[i]) {
      assert i < |actions| ==> Step(states[i], states[i + 1], actions[i]);
    }
  }

  // ----- Starting ---------------------------------------------------------------------------------

  /** A start that looks at the stop event goes on exactly when it is not set, and is refused otherwise. */
  lemma CheckDecides(s: State, t: State, n: Name)
    requires Step(s, t, ACheck(n))
    ensures !s.stop ==> t.phase[n] == Cleared && t.owner == s.owner
    ensures s.stop ==> t.phase[n] == Refused && t.owner.None?
    ensures t.running == s.running && t.active == s.active
  {
  }

  /** Nobody is refused before the stop event is set. */
  ghost predicate RefusedForStop(s: State) {
    forall n :: n in s.phase && s.phase[n] == Refused ==> s.stop
  }

  lemma StepRefused(s: State, t: State, a: Action)
    requires RefusedForStop(s) && Step(s, t, a)
    ensures RefusedForStop(t)
  {
  }

  /** In every run, a start is refused only once the stop event is set. */
  lemma {:induction false} RefusedOnlyForStop(states: seq<State>, actions: seq<Action>, k: nat, n: Name)
    requires IsRun(states, actions) && k < |states|
    requires n in states[k].phase && states[k].phase[n] == Refused
    ensures states[k].stop
  {
    for i := 0 to k
      invariant RefusedForStop(states[i])
    {
      StepRefused(states[i], states[i + 1], actions[i]);
    }
  }

  /**
    While no stop is set, a start that finds the lock free, or already has it, can go on step by
    step to a live trial whose container is registered and running, and give the lock back.
   */
  lemma StartReachesLive(s: State, n: Name) returns (states: seq<State>, actions: seq<Action>)
    requires !s.stop && n in s.phase && (s.phase[n] == Locked || (s.phase[n] == Fresh && s.owner.None?))
    ensures IsPath(states, actions) && states[0] == s
    ensures var t := states[|actions|];
      t == s.(active := s.active + {n}, running := s.running + {n}, owner := None, depth := 0,
              phase := s.phase[n := Live])
  {
    states, actions := [s], [];
    var locked := s;
    if s.phase[n] == Fresh {
      locked := s.(owner := Some(Trial(n)), depth := 1, phase := s.phase[n := Locked]);
      PathExtends(states, actions, locked, AAcquire(n));
      states, actions := states + [locked], actions + [AAcquire(n)];
    }
    var cleared := locked.(phase := s.phase[n := Cleared]);
    assert cleared.phase == locked.phase[n := Cleared];
    PathExtends(states, actions, cleared, ACheck(n));
    states, actions := states + [cleared], actions + [ACheck(n)];
    states, actions := ClearedReachesLive(states, actions, n);
    assert s.phase[n := Live] == cleared.phase[n := Live];
  }

  lemma ClearedReachesLive(before: seq<State>, done: seq<Action>, n: Name)
    returns (states: seq<State>, actions: seq<Action>)
    requires IsPath(before, done) && n in before[|done|].phase && before[|done|].phase[n] == Cleared
    ensures IsPath(states, actions) && states[0] == before[0]
    ensures var s := before[|done|];
      states[|actions|] == s.(active := s.active + {n}, running := s.running + {n}, owner := None, depth := 0,
                              phase := s.phase[n := Live])
  {
    var s := before[|done|];
    var registered := s.(active := s.active + {n}, phase := s.phase[n := Registered]);
    PathExtends(before, done, registered, ARegister(n));
    states, actions := before + [registered], done + [ARegister(n)];
    var launched := registered.(running := s.running + {n}, phase := registered.phase[n := Launched]);
    PathExtends(states, actions, launched, ALaunch(n, true));
    states, actions := states + [launched], actions + [ALaunch(n, true)];
    var live := launched.(owner := None, depth := 0, phase := launched.phase[n := Live]);
    PathExtends(states, actions, live, ARelease(n));
    states, actions := states + [live], actions + [ARelease(n)];
    assert live.phase == s.phase[n := Live];
  }

  // ----- Sweeping ---------------------------------------------------------------------------------

  /** The sweep's loop can take down everything on its list. */
  lemma {:induction false} KillAll(before: seq<State>, done: seq<Action>)
    returns (states: seq<State>, actions: seq<Action>)
    requires IsPath(before, done)
    requires var s := before[|done|];
      s.sweeps != [] && s.sweeps[|s.sweeps| - 1].Holding? && s.sweeps[|s.sweeps| - 1].todo.Some?
    ensures IsPath(states, actions) && states[0] == before[0]
    ensures var s := before[|done|];
      var w := s.sweeps[|s.sweeps| - 1];
      states[|actions|] == s.(running := s.running - w.todo.value, active := s.active - w.todo.value,
                              sweeps := Replaced(s, w.(todo := Some({}))))
    decreases var s := before[|done|]; s.sweeps[|s.sweeps| - 1].todo.value
  {
    var s := before[|done|];
    var w := s.sweeps[|s.sweeps| - 1];
    if w.todo.value == {} {
      states, actions := before, done;
      assert Replaced(s, w.(todo := Some({}))) == s.sweeps;
    } else {
      var n := PickName(w.todo.value);
      var rest := w.todo.value - {n};
      var t := s.(running := s.running - {n}, active := s.active - {n},
                  sweeps := Replaced(s, w.(todo := Some(rest))));
      PathExtends(before, done, t, AKill(n));
      states, actions := KillAll(before + [t], done + [AKill(n)]);
      assert t.sweeps[..|t.sweeps| - 1] == s.sweeps[..|s.sweeps| - 1];
      assert s.running - {n} - rest == s.running - w.todo.value && s.active - {n} - rest == s.active - w.todo.value;
    }
  }

  lemma PickName(names: set<Name>) returns (n: Name)
    requires names != {}
    ensures n in names
  {
    n :| n in names;
  }

  /** Entering, taking the lock and copying the list. */
  lemma SweepBegins(s: State) returns (states: seq<State>, actions: seq<Action>)
    requires s.owner.None? && s.depth == 0
    ensures IsPath(states, actions) && states[0] == s
    ensures states[|actions|] == s.(owner := Some(Main), depth := 1,
                                    sweeps := s.sweeps + [Holding(s.stop, Some(s.active))])
  {
    var entered := s.(sweeps := s.sweeps + [Wanting]);
    PathExtends([s], [], entered, AEnter);
    states, actions := [s] + [entered], [] + [AEnter];
    var held := s.(owner := Some(Main), depth := 1, sweeps := s.sweeps + [Holding(s.stop, None)]);
    assert held.sweeps == Replaced(entered, Holding(s.stop, None));
    PathExtends(states, actions, held, AGrab);
    states, actions := states + [held], actions + [AGrab];
    var listed := held.(sweeps := s.sweeps + [Holding(s.stop, Some(s.active))]);
    assert listed.sweeps == Replaced(held, Holding(s.stop, Some(s.active)));
    PathExtends(states, actions, listed, AList);
    states, actions := states + [listed], actions + [AList];
  }

  /**
    From any reachable state in which nobody holds the lock a sweep can enter, run to its end and
    give the lock back, leaving nothing registered or running.
   */
  lemma SweepReachesEnd(s: State) returns (states: seq<State>, actions: seq<Action>)
    requires Inv(s) && s.owner.None?
    ensures IsPath(states, actions) && states[0] == s
    ensures states[|actions|] == s.(running := {}, active := {}, swept := s.swept || s.stop)
  {
    states, actions := SweepBegins(s);
    states, actions := KillAll(states, actions);
    var left := s.(running := {}, active := {}, swept := s.swept || s.stop);
    SweepLeaves(s, states[|actions|], left);
    PathExtends(states, actions, left, ALeave(false));
    states, actions := states + [left], actions + [ALeave(false)];
  }

  lemma SweepLeaves(s: State, killed: State, left: State)
    requires s.owner.None? && s.depth == 0 && s.running <= s.active
    requires var listed := s.(owner := Some(Main), depth := 1,
                              sweeps := s.sweeps + [Holding(s.stop, Some(s.active))]);
      killed == listed.(running := s.running - s.active, active := s.active - s.active,
                        sweeps := Replaced(listed, Holding(s.stop, Some({}))))
    requires left == s.(running := {}, active := {}, swept := s.swept || s.stop)
    ensures Step(killed, left, ALeave(false))
  {
    assert killed.sweeps == s.sweeps + [Holding(s.stop, Some({}))];
    assert killed.sweeps[..|killed.sweeps| - 1] == s.sweeps;
    assert s.running - s.active == {} && s.active - s.active == {};
  }
}
