/**
 * Certificate renewals as a transition system: reconnects and sweeps trigger renewals
 * of a node concurrently; a guard lets one in at a time and a cooldown spaces the
 * ones that succeed. Times are milliseconds of one clock.
 */
module Renewal {
  import opened Prelude

  const COOLDOWN := 1_800_000

  datatype Pc = Guarded | Renewing(started: int) | Ended

  datatype Task = Task(svid: Svid, pc: Pc)

  datatype Success = Success(svid: Svid, at: int)

  /** guard and last are the broker's maps; log holds every successful renewal so far. */
  datatype State = State(now: int, guard: set<Svid>, last: map<Svid, int>, tasks: map<nat, Task>, log: seq<Success>)

  /** due says whether the allow-list shows an expiry inside the window. */
  datatype Step =
    | Tick(elapsed: nat)
    | Trigger(t: nat, svid: Svid)
    | Decide(t: nat, due: bool)
    | Finish(t: nat, ok: bool)
    | Release(t: nat)

  function Init(): State {
    State(0, {}, map[], map[], [])
  }

  /** The last success is at least the cooldown ago. */
  predicate Rested(last: map<Svid, int>, svid: Svid, now: int) {
    svid in last ==> now - last[svid] >= COOLDOWN
  }

  predicate Enabled(s: State, step: Step) {
    match step
    case Tick(_) => true
    case Trigger(t, _) => t !in s.tasks
    case Decide(t, _) => t in s.tasks && s.tasks[t].pc.Guarded?
    case Finish(t, _) => t in s.tasks && s.tasks[t].pc.Renewing?
    case Release(t) => t in s.tasks && s.tasks[t].pc.Ended?
  }

  function Goto(s: State, t: nat, pc: Pc): State
    requires t in s.tasks
  {
    s.(tasks := s.tasks[t := s.tasks[t].(pc := pc)])
  }

  function Apply(s: State, step: Step): State
    requires Enabled(s, step)
  {
    match step
    case Tick(elapsed) => s.(now := s.now + elapsed)
    case Trigger(t, svid) =>
      if svid in s.guard then s
      else s.(guard := s.guard + {svid}, tasks := s.tasks[t := Task(svid, Guarded)])
    case Decide(t, due) => Goto(s, t, if due && Rested(s.last, s.tasks[t].svid, s.now) then Renewing(s.now) else Ended)
    case Finish(t, ok) =>
      var svid := s.tasks[t].svid;
      Goto(if ok then s.(last := s.last[svid := s.now], log := s.log + [Success(svid, s.now)]) else s, t, Ended)
    case Release(t) => s.(guard := s.guard - {s.tasks[t].svid}, tasks := s.tasks - {t})
  }

  ghost predicate IsRun(states: seq<State>, steps: seq<Step>) {
    && |states| == |steps| + 1
    && states[0] == Init()
    && forall i :: 0 <= i < |steps| ==> Enabled(states[i], steps[i]) && states[i + 1] == Apply(states[i], steps[i])
  }

  // ---------------------------------------------------------------- invariant

  /** The guard is held for exactly the nodes being looked at, by one task each. */
  ghost predicate Guarding(s: State) {
    && (forall t :: t in s.tasks ==> s.tasks[t].svid in s.guard)
    && (forall t, u :: t in s.tasks && u in s.tasks && s.tasks[t].svid == s.tasks[u].svid ==> t == u)
    && (forall v :: v in s.guard ==> exists t :: t in s.tasks && s.tasks[t].svid == v)
  }

  /** last is when the log says each node last succeeded. */
  ghost predicate Remembers(s: State) {
    && (forall i :: 0 <= i < |s.log| ==> s.log[i].svid in s.last && s.log[i].at <= s.last[s.log[i].svid] <= s.now)
    && (forall v :: v in s.last ==> Success(v, s.last[v]) in s.log)
  }

  ghost predicate Spaced(log: seq<Success>) {
    forall i, j :: 0 <= i < j < |log| && log[i].svid == log[j].svid ==> log[j].at - log[i].at >= COOLDOWN
  }

  ghost predicate Waited(s: State) {
    forall t :: t in s.tasks && s.tasks[t].pc.Renewing? ==>
      s.tasks[t].pc.started <= s.now && Rested(s.last, s.tasks[t].svid, s.tasks[t].pc.started)
  }

  ghost predicate Inv(s: State) {
    Guarding(s) && Remembers(s) && Spaced(s.log) && Waited(s)
  }

  lemma StepKeepsGuarding(s: State, step: Step)
    requires Guarding(s) && Enabled(s, step)
    ensures Guarding(Apply(s, step))
  {
    hide Rested;
    if step.Decide? || step.Finish? {
      MoveKeepsGuarding(s, Apply(s, step), step.t);
    } else if step.Release? {
      ReleaseKeepsGuarding(s, step.t);
    } else if step.Trigger? {
      TriggerKeepsGuarding(s, step.t, step.svid);
    }
  }

  lemma MoveKeepsGuarding(s: State, s': State, t: nat)
    requires Guarding(s) && t in s.tasks && s'.guard == s.guard
    requires s'.tasks.Keys == s.tasks.Keys && forall u :: u in s.tasks ==> s'.tasks[u].svid == s.tasks[u].svid
    ensures Guarding(s')
  {
    forall v | v in s'.guard ensures exists u :: u in s'.tasks && s'.tasks[u].svid == v {
      var u :| u in s.tasks && s.tasks[u].svid == v;
      assert u in s'.tasks;
    }
  }

  lemma ReleaseKeepsGuarding(s: State, t: nat)
    requires Guarding(s) && Enabled(s, Release(t))
    ensures Guarding(Apply(s, Release(t)))
  {
    var s' := Apply(s, Release(t));
    forall v | v in s'.guard ensures exists u :: u in s'.tasks && s'.tasks[u].svid == v {
      var u :| u in s.tasks && s.tasks[u].svid == v;
      assert u in s'.tasks;
    }
  }

  lemma TriggerKeepsGuarding(s: State, t: nat, svid: Svid)
    requires Guarding(s) && Enabled(s, Trigger(t, svid))
    ensures Guarding(Apply(s, Trigger(t, svid)))
  {
    var s' := Apply(s, Trigger(t, svid));
    forall v | v in s'.guard ensures exists u :: u in s'.tasks && s'.tasks[u].svid == v {
      if v in s.guard {
        var u :| u in s.tasks && s.tasks[u].svid == v;
        assert u in s'.tasks;
      } else {
        assert t in s'.tasks;
      }
    }
  }

  lemma StepKeepsMemory(s: State, step: Step)
    requires Inv(s) && Enabled(s, step)
    ensures var s' := Apply(s, step); Remembers(s') && Spaced(s'.log) && Waited(s')
  {
    if step.Finish? && step.ok {
      SuccessIsRemembered(s, step.t);
      SuccessIsSpaced(s, step.t);
    } else {
      hide Spaced;
    }
  }

  lemma SuccessIsRemembered(s: State, t: nat)
    requires Inv(s) && Enabled(s, Finish(t, true))
    ensures Remembers(Apply(s, Finish(t, true)))
  {
    hide Spaced, Guarding, Waited;
    var svid, s' := s.tasks[t].svid, Apply(s, Finish(t, true));
    assert s'.log[|s.log|] == Success(svid, s.now);
    forall v | v in s'.last ensures Success(v, s'.last[v]) in s'.log {
      if v != svid {
        assert Success(v, s.last[v]) in s.log;
      }
    }
  }

  lemma SuccessIsSpaced(s: State, t: nat)
    requires Inv(s) && Enabled(s, Finish(t, true))
    ensures var s' := Apply(s, Finish(t, true)); Spaced(s'.log) && Waited(s')
  {
    var started := s.tasks[t].pc.started;
    assert Rested(s.last, s.tasks[t].svid, started);
  }

  lemma {:induction false} RunKeepsInv(states: seq<State>, steps: seq<Step>, n: nat)
    requires IsRun(states, steps) && n < |states|
    ensures Inv(states[n])
  {
    if n > 0 {
      RunKeepsInv(states, steps, n - 1);
      hide Guarding, Remembers, Spaced, Waited, Apply;
      StepKeepsGuarding(states[n - 1], steps[n - 1]);
      StepKeepsMemory(states[n - 1], steps[n - 1]);
    }
  }

  // --------------------------------------------------------------------- runs

  /** A node has at most one renewal in flight, whatever the triggers do. */
  lemma OneRenewalPerNode(states: seq<State>, steps: seq<Step>, n: nat, t: nat, u: nat)
    requires IsRun(states, steps) && n < |states| && t in states[n].tasks && u in states[n].tasks
    requires states[n].tasks[t].svid == states[n].tasks[u].svid
    ensures t == u
  {
    RunKeepsInv(states, steps, n);
  }

  /** Successes of one node are at least the cooldown apart. */
  lemma SuccessesAreSpaced(states: seq<State>, steps: seq<Step>, n: nat, i: nat, j: nat)
    requires IsRun(states, steps) && n < |states| && i < j < |states[n].log|
    requires states[n].log[i].svid == states[n].log[j].svid
    ensures states[n].log[j].at - states[n].log[i].at >= 1_800_000
  {
    RunKeepsInv(states, steps, n);
  }

  /**
   * A failed renewal never suppresses a retry. A trigger is let in exactly when no
   * trigger of that node is in flight, and renews exactly when the expiry is due and
   * no renewal succeeded within the cooldown.
   */
  lemma TriggerEntersUnlessInFlight(states: seq<State>, steps: seq<Step>, n: nat, t: nat, svid: Svid)
    requires IsRun(states, steps) && n < |states| && Enabled(states[n], Trigger(t, svid))
    ensures t in Apply(states[n], Trigger(t, svid)).tasks <==>
            forall u :: u in states[n].tasks ==> states[n].tasks[u].svid != svid
  {
    RunKeepsInv(states, steps, n);
  }

  lemma RenewsUnlessSucceededLately(states: seq<State>, steps: seq<Step>, n: nat, t: nat, due: bool)
    requires IsRun(states, steps) && n < |states| && Enabled(states[n], Decide(t, due))
    ensures var s := states[n];
            Apply(s, Decide(t, due)).tasks[t].pc.Renewing? <==>
            due && forall i :: 0 <= i < |s.log| && s.log[i].svid == s.tasks[t].svid ==> s.now - s.log[i].at >= 1_800_000
  {
    RunKeepsInv(states, steps, n);
    var s, svid := states[n], states[n].tasks[t].svid;
    if svid in s.last {
      var i :| 0 <= i < |s.log| && s.log[i] == Success(svid, s.last[svid]);
    }
  }

  // ------------------------------------------------------------------ windows

  /** How many renewals of one node succeeded from the time from to the time to. */
  function Successes(log: seq<Success>, svid: Svid, from: int, to: int): nat {
    if log == [] then 0
    else
      var last := log[|log| - 1];
      Successes(log[..|log| - 1], svid, from, to) + (if last.svid == svid && from <= last.at <= to then 1 else 0)
  }

  lemma {:induction false} SuccessesFit(log: seq<Success>, svid: Svid, from: int, to: int)
    requires Spaced(log) && from <= to
    ensures Successes(log, svid, from, to) > 0 ==> COOLDOWN * (Successes(log, svid, from, to) - 1) <= to - from
    decreases |log|, to - from
  {
    if log != [] {
      var rest, last := log[..|log| - 1], log[|log| - 1];
      if last.svid == svid && from <= last.at <= to {
        NarrowerWindow(rest, svid, from, to, last.at - COOLDOWN);
        if last.at - COOLDOWN >= from {
          SuccessesFit(rest, svid, from, last.at - COOLDOWN);
        } else {
          EmptyWindow(rest, svid, from, last.at - COOLDOWN);
        }
      } else {
        SuccessesFit(rest, svid, from, to);
      }
    }
  }

  lemma {:induction false} NarrowerWindow(log: seq<Success>, svid: Svid, from: int, to: int, cut: int)
    requires cut <= to
    requires forall i :: 0 <= i < |log| && log[i].svid == svid ==> log[i].at <= cut
    ensures Successes(log, svid, from, to) == Successes(log, svid, from, cut)
  {
    if log != [] {
      NarrowerWindow(log[..|log| - 1], svid, from, to, cut);
    }
  }

  lemma {:induction false} EmptyWindow(log: seq<Success>, svid: Svid, from: int, to: int)
    requires to < from
    ensures Successes(log, svid, from, to) == 0
  {
    if log != [] {
      EmptyWindow(log[..|log| - 1], svid, from, to);
    }
  }

  /** Any window holds at most one success per whole cooldown in it, and one more. */
  lemma WindowHoldsFew(states: seq<State>, steps: seq<Step>, n: nat, svid: Svid, from: int, to: int)
    requires IsRun(states, steps) && n < |states| && from <= to
    ensures var log := states[n].log;
            |set i | 0 <= i < |log| && log[i].svid == svid && from <= log[i].at <= to| <= (to - from) / 1_800_000 + 1
  {
    RunKeepsInv(states, steps, n);
    SuccessesFit(states[n].log, svid, from, to);
    SuccessesCount(states[n].log, svid, from, to);
  }

  lemma {:induction false} SuccessesCount(log: seq<Success>, svid: Svid, from: int, to: int)
    ensures Successes(log, svid, from, to) == |set i | 0 <= i < |log| && log[i].svid == svid && from <= log[i].at <= to|
  {
    if log != [] {
      var rest, last := log[..|log| - 1], |log| - 1;
      SuccessesCount(rest, svid, from, to);
      var all := set i | 0 <= i < |log| && log[i].svid == svid && from <= log[i].at <= to;
      var before := set i | 0 <= i < |rest| && rest[i].svid == svid && from <= rest[i].at <= to;
      if log[last].svid == svid && from <= log[last].at <= to {
        assert all == before + {last};
      } else {
        assert all == before;
      }
    }
  }
}
