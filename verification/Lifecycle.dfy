/**
 * Starting and stopping the poller.  JavaScript runs one event at a time, so the lifecycle is a state
 * machine over event-loop steps: `Poller` has the code's variables, `Apply` says what each step does.
 */
module Lifecycle {
  import opened Prelude

  /**
   * `timer` and `inFlight` are the code's variables; `timers` and `running` are what really ticks and runs.
   * `owner` is the cycle the stop call that began the shutdown waits for; `aborted` records that its wait
   * was cut short; `begun` counts ledger transactions.
   */
  datatype State = State(
    started: bool, shuttingDown: bool, timer: Option<nat>, inFlight: Option<nat>,
    timers: set<nat>, running: set<nat>, failing: set<nat>, inLedger: set<nat>,
    owner: Option<nat>, aborted: bool, begun: nat, nextId: nat)

  const INITIAL := State(false, false, None, None, {}, {}, {}, {}, None, false, 0, 0)

  datatype Action =
    | Start
    | Tick(timer: nat)
    | BeginLedger(cycle: nat)
    | EndLedger(cycle: nat)
    | Finish(cycle: nat)
    | Stop(alreadyAborted: bool)
    | OwnerResumes
    | OwnerAborts

  predicate Enabled(s: State, a: Action) {
    match a
    case Start => true
    case Tick(t) => t in s.timers
    case BeginLedger(c) => c in s.running && c !in s.inLedger && c !in s.failing
    case EndLedger(c) => c in s.running && c in s.inLedger
    case Finish(c) => c in s.running && c !in s.inLedger
    case Stop(_) => true
    case OwnerResumes => s.owner.Some? && s.owner.value !in s.running
    case OwnerAborts => s.owner.Some?
  }

  function Ticked(s: State): State {
    if s.shuttingDown || s.inFlight.Some? then s
    else s.(running := s.running + {s.nextId}, inFlight := Some(s.nextId), nextId := s.nextId + 1)
  }

  function Apply(s: State, a: Action): State {
    match a
    case Start =>
      if s.started then s
      else
        var t := Ticked(s.(shuttingDown := false, started := true));
        t.(timers := t.timers + {t.nextId}, timer := Some(t.nextId), nextId := t.nextId + 1)
    case Tick(_) => Ticked(s)
    case BeginLedger(c) =>
      if s.shuttingDown then s.(failing := s.failing + {c})
      else s.(inLedger := s.inLedger + {c}, begun := s.begun + 1)
    case EndLedger(c) => s.(inLedger := s.inLedger - {c})
    case Finish(c) => s.(running := s.running - {c}, failing := s.failing - {c}, inFlight := None)
    case Stop(alreadyAborted) =>
      if !s.started && s.timer.None? && s.inFlight.None? then s
      else if s.shuttingDown then s
      else
        var t := s.(shuttingDown := true, timer := None,
                    timers := if s.timer.Some? then s.timers - {s.timer.value} else s.timers);
        if t.inFlight.None? then t.(started := false)
        else if alreadyAborted then t.(aborted := true)
        else t.(owner := t.inFlight)
    case OwnerResumes => s.(owner := None, started := false)
    case OwnerAborts => s.(owner := None, aborted := true)
  }

  // ----- What every step keeps -----

  function Singleton(o: Option<nat>): set<nat> {
    if o.Some? then {o.value} else {}
  }

  /** One cycle and one timer at most, both known to the code; a shutdown is owned, aborted or over. */
  predicate Inv(s: State) {
    && s.running == Singleton(s.inFlight) && s.timers == Singleton(s.timer)
    && s.inLedger <= s.running && s.failing <= s.running
    && (s.timer.Some? <==> s.started && !s.shuttingDown)
    && (s.running != {} ==> s.started)
    && (s.owner.Some? ==> s.started && s.shuttingDown && !s.aborted && s.running <= {s.owner.value})
    && (s.aborted ==> s.started && s.shuttingDown)
    && (s.started && s.shuttingDown ==> s.owner.Some? || s.aborted)
  }

  lemma {:induction false} StepKeeps(s: State, a: Action)
    requires Inv(s) && Enabled(s, a)
    ensures Inv(Apply(s, a))
  {
    match a
    case Start =>
    case Stop(aborted) =>
    case Finish(c) =>
    case _ =>
  }

  /** The state after some steps. */
  function After(s: State, actions: seq<Action>): State {
    if actions == [] then s else Apply(After(s, actions[..|actions| - 1]), actions[|actions| - 1])
  }

  predicate Possible(s: State, actions: seq<Action>) {
    actions == []
    || (Possible(s, actions[..|actions| - 1]) && Enabled(After(s, actions[..|actions| - 1]), actions[|actions| - 1]))
  }

  /** Under any schedule at most one poll cycle runs and at most one timer ticks. */
  lemma {:induction false} AtMostOneCycle(actions: seq<Action>)
    requires Possible(INITIAL, actions)
    ensures Inv(After(INITIAL, actions)) && |After(INITIAL, actions).running| <= 1 && |After(INITIAL, actions).timers| <= 1
  {
    if actions != [] {
      AtMostOneCycle(actions[..|actions| - 1]);
      StepKeeps(After(INITIAL, actions[..|actions| - 1]), actions[|actions| - 1]);
    }
  }

  /** Some step of the schedule starts the poller anew. */
  predicate Restarts(s: State, actions: seq<Action>) {
    actions != []
    && (Restarts(s, actions[..|actions| - 1])
        || (actions[|actions| - 1].Start? && !After(s, actions[..|actions| - 1]).started))
  }

  /** From a shutdown on, no cycle and no ledger transaction begins before the poller is started anew. */
  lemma {:induction false} QuietUntilRestart(s: State, actions: seq<Action>)
    requires Inv(s) && s.shuttingDown && Possible(s, actions) && !Restarts(s, actions)
    ensures Inv(After(s, actions)) && After(s, actions).shuttingDown
    ensures After(s, actions).begun == s.begun && After(s, actions).running <= s.running
  {
    if actions != [] {
      var init := actions[..|actions| - 1];
      QuietUntilRestart(s, init);
      StepKeeps(After(s, init), actions[|actions| - 1]);
    }
  }

  lemma {:induction false} RestartsExactly(s: State, actions: seq<Action>)
    ensures Restarts(s, actions) <==> exists i :: 0 <= i < |actions| && actions[i].Start? && !After(s, actions[..i]).started
  {
    if actions != [] {
      var n := |actions| - 1;
      RestartsExactly(s, actions[..n]);
      forall i | 0 <= i < n ensures actions[..n][..i] == actions[..i] {
      }
      if i :| 0 <= i < n && actions[..n][i].Start? && !After(s, actions[..n][..i]).started {
        assert actions[i].Start? && !After(s, actions[..i]).started;
      }
      if i :| 0 <= i < n && actions[i].Start? && !After(s, actions[..i]).started {
        assert actions[..n][i].Start? && !After(s, actions[..n][..i]).started;
      }
    }
  }

  /**
   * A stop that resolves, by the cycle's end or because none was in flight, leaves no cycle in flight, and none
   * appears before a restart.
   */
  lemma {:induction false} ResolvedStopIsQuiet(s: State, a: Action, later: seq<Action>)
    requires Inv(s) && Enabled(s, a)
    requires a.OwnerResumes? || (a.Stop? && s.started && !s.shuttingDown && s.inFlight.None?)
    requires Possible(Apply(s, a), later) && !Restarts(Apply(s, a), later)
    ensures !Apply(s, a).started && Apply(s, a).running == {}
    ensures After(Apply(s, a), later).running == {} && After(Apply(s, a), later).begun == s.begun
  {
    StepKeeps(s, a);
    QuietUntilRestart(Apply(s, a), later);
  }

  /** After an aborted stop nothing starts again, whatever is called: no cycle, no ledger transaction, no timer. */
  lemma {:induction false} AbortedForever(s: State, actions: seq<Action>)
    requires Inv(s) && s.aborted && Possible(s, actions)
    ensures Inv(After(s, actions)) && After(s, actions).aborted
    ensures After(s, actions).begun == s.begun && After(s, actions).running <= s.running && After(s, actions).timers == {}
  {
    if actions != [] {
      var init := actions[..|actions| - 1];
      AbortedForever(s, init);
      StepKeeps(After(s, init), actions[|actions| - 1]);
    }
  }

  // ----- The poller is not stuck -----

  lemma {:induction false} ThenStep(s: State, before: seq<Action>, a: Action)
    requires Possible(s, before) && Enabled(After(s, before), a)
    ensures Possible(s, before + [a]) && After(s, before + [a]) == Apply(After(s, before), a)
  {
    assert (before + [a])[..|before|] == before;
  }

  /** The cycle in flight can end. */
  lemma {:induction false} CycleEnds(s: State) returns (steps: seq<Action>)
    requires Inv(s)
    ensures Possible(s, steps) && Inv(After(s, steps)) && After(s, steps).inFlight.None?
    ensures var t := After(s, steps);
            t == s.(running := t.running, inLedger := t.inLedger, failing := t.failing, inFlight := t.inFlight)
  {
    steps := [];
    if s.inFlight.Some? {
      var c := s.inFlight.value;
      if c in s.inLedger {
        ThenStep(s, steps, EndLedger(c));
        StepKeeps(s, EndLedger(c));
        steps := steps + [EndLedger(c)];
      }
      StepKeeps(After(s, steps), Finish(c));
      ThenStep(s, steps, Finish(c));
      steps := steps + [Finish(c)];
    }
  }

  /** From any state of any schedule, unless a stop was aborted, the poller can be brought to rest. */
  lemma {:induction false} CanStop(s: State) returns (steps: seq<Action>)
    requires Inv(s) && !s.aborted
    ensures Possible(s, steps) && Inv(After(s, steps))
    ensures var t := After(s, steps); !t.started && t.running == {} && t.timers == {} && !t.aborted && t.begun == s.begun
  {
    steps := CycleEnds(s);
    var t := After(s, steps);
    if t.started {
      var a := if t.owner.Some? then OwnerResumes else Stop(false);
      StepKeeps(t, a);
      ThenStep(s, steps, a);
      steps := steps + [a];
    }
  }

  /** And from rest it can be started, and will then get to ledger transactions. */
  lemma {:induction false} CanRun(s: State) returns (steps: seq<Action>)
    requires Inv(s) && !s.started
    ensures Possible(s, steps) && Inv(After(s, steps)) && After(s, steps).begun == s.begun + 1
  {
    var t := Apply(s, Start);
    StepKeeps(s, Start);
    ThenStep(s, [], Start);
    assert [] + [Start] == [Start];
    var c := t.inFlight.value;
    StepKeeps(t, BeginLedger(c));
    ThenStep(s, [Start], BeginLedger(c));
    steps := [Start] + [BeginLedger(c)];
  }

  /** So can the next tick of a running poller, once the cycle in flight has ended. */
  lemma {:induction false} CanTick(s: State) returns (steps: seq<Action>)
    requires Inv(s) && s.started && !s.shuttingDown
    ensures Possible(s, steps) && Inv(After(s, steps)) && After(s, steps).begun == s.begun + 1
  {
    steps := CycleEnds(s);
    var t := After(s, steps);
    var tick := Tick(t.timer.value);
    StepKeeps(t, tick);
    ThenStep(s, steps, tick);
    steps := steps + [tick];
    var u := Apply(t, tick);
    var c := u.inFlight.value;
    StepKeeps(u, BeginLedger(c));
    ThenStep(s, steps, BeginLedger(c));
    steps := steps + [BeginLedger(c)];
  }

  /** A stop that waits can be aborted. */
  lemma {:induction false} CanAbort(s: State, early: bool) returns (steps: seq<Action>)
    requires Inv(s) && s.started && !s.shuttingDown && s.inFlight.Some?
    ensures Possible(s, steps) && After(s, steps).aborted
  {
    ThenStep(s, [], Stop(early));
    steps := [] + [Stop(early)];
    if !early {
      ThenStep(s, steps, OwnerAborts);
      steps := steps + [OwnerAborts];
    }
  }

  // ----- The code -----

  class Poller {
    var pollTimer: Option<nat>
    var pollInFlight: Option<nat>
    var shuttingDown: bool
    var indexerStarted: bool
    ghost var rest: State

    /** The variables, together with what the event loop holds. */
    ghost function View(): State
      reads this
    {
      rest.(timer := pollTimer, inFlight := pollInFlight, shuttingDown := shuttingDown, started := indexerStarted)
    }

    constructor ()
      ensures View() == INITIAL
    {
      pollTimer, pollInFlight, shuttingDown, indexerStarted := None, None, false, false;
      rest := INITIAL;
    }

    /** The interval callback; `id` names the cycle it may begin. */
    method RunTick(id: nat) returns (next: nat)
      requires id == View().nextId
      modifies this
      ensures View() == Ticked(old(View())) && next == View().nextId
    {
      if shuttingDown {
        return id;
      }
      if pollInFlight.Some? {
        return id;
      }
      rest := rest.(running := rest.running + {id}, nextId := id + 1);
      pollInFlight := Some(id);
      return id + 1;
    }

    method StartIndexer(id: nat) returns (ok: bool)
      requires id == View().nextId
      modifies this
      ensures View() == Apply(old(View()), Start)
      ensures ok <==> !old(indexerStarted)
    {
      if indexerStarted {
        return false;
      }
      shuttingDown := false;
      indexerStarted := true;
      var timerId := RunTick(id);
      pollTimer := Some(timerId);
      rest := rest.(timers := rest.timers + {timerId}, nextId := timerId + 1);
      return true;
    }

    /** The `finally` handler of a cycle. */
    method CycleSettled(ghost cycle: nat)
      modifies this
      ensures View() == Apply(old(View()), Finish(cycle))
    {
      pollInFlight := None;
      rest := rest.(running := rest.running - {cycle}, failing := rest.failing - {cycle});
    }

    /** The check before a ledger transaction; false stands for the interruption error. */
    method MayBeginLedger(ghost cycle: nat) returns (go: bool)
      modifies this
      ensures View() == Apply(old(View()), BeginLedger(cycle))
      ensures go <==> !old(shuttingDown)
    {
      if shuttingDown {
        rest := rest.(failing := rest.failing + {cycle});
        return false;
      }
      rest := rest.(inLedger := rest.inLedger + {cycle}, begun := rest.begun + 1);
      return true;
    }

    /** The part of a stop call before it waits; `waits` tells whether it does, and `rejected` that it threw. */
    method StopIndexer(alreadyAborted: bool) returns (waits: bool, rejected: bool)
      modifies this
      ensures View() == Apply(old(View()), Stop(alreadyAborted))
      ensures waits <==> old(pollInFlight).Some? && !alreadyAborted
      ensures rejected <==> old(pollInFlight).Some? && alreadyAborted
    {
      if !indexerStarted && pollTimer.None? && pollInFlight.None? {
        return false, false;
      }
      if shuttingDown {
        return pollInFlight.Some? && !alreadyAborted, pollInFlight.Some? && alreadyAborted;
      }
      shuttingDown := true;
      if pollTimer.Some? {
        rest := rest.(timers := rest.timers - {pollTimer.value});
        pollTimer := None;
      }
      if pollInFlight.Some? {
        if alreadyAborted {
          rest := rest.(aborted := true);
          return false, true;
        }
        rest := rest.(owner := pollInFlight);
        return true, false;
      }
      indexerStarted := false;
      return false, false;
    }

    /** The rest of the stop call that waited for the cycle. */
    method StopResumes()
      modifies this
      ensures View() == Apply(old(View()), OwnerResumes)
    {
      indexerStarted := false;
      rest := rest.(owner := None);
    }
  }
}
