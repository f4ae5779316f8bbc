/** Safety of the interaction lease over whole runs. */
module InteractionRuns {
  import opened Prelude
  import opened InteractionModel
  import opened InteractionSafety

  // ---------------------------------------------------------------- lifecycle

  ghost predicate Unborn(s: State, id: Id) {
    id !in s.reserved
  }

  ghost predicate ActiveOn(s: State, id: Id, n: Node) {
    n in s.reservations && s.reservations[n].id == id
  }

  ghost predicate Gone(s: State, id: Id) {
    id in s.reserved && forall n :: n in s.reservations ==> s.reservations[n].id != id
  }

  /** Every id is in exactly one phase, and active on at most one node. */
  lemma PhasesArePartition(s: State, id: Id)
    requires Inv(s)
    ensures Unborn(s, id) ==> !Gone(s, id) && forall n :: !ActiveOn(s, id, n)
    ensures !Unborn(s, id) ==> Gone(s, id) || exists n :: ActiveOn(s, id, n)
    ensures forall n, m :: ActiveOn(s, id, n) && ActiveOn(s, id, m) ==> n == m
    ensures id in s.ended ==> Gone(s, id)
  {
    if !Unborn(s, id) && !Gone(s, id) {
      var n :| n in s.reservations && s.reservations[n].id == id;
      assert ActiveOn(s, id, n);
    }
  }

  /** One step: unborn to active, active to gone, and nothing else. */
  lemma StepMovesPhase(s: State, step: Step, id: Id)
    requires Inv(s) && Enabled(s, step)
    ensures var s' := Apply(s, step);
            && (Gone(s, id) ==> Gone(s', id))
            && (forall n :: ActiveOn(s, id, n) ==> ActiveOn(s', id, n) || Gone(s', id))
            && (Unborn(s, id) ==> Unborn(s', id) || exists n :: ActiveOn(s', id, n))
            && (id in s.births ==> id in s'.births && s'.births[id] == s.births[id])
  {
    hide Gate, Tasks, Terminals, Expiries, Calls, Opening, SettledReservations, SettledEnded, Lapse;
    var s' := Apply(s, step);
    if ByTask(step) {
      TaskMovesPhase(s, step, id);
    }
  }

  lemma TaskMovesPhase(s: State, step: Step, id: Id)
    requires Inv(s) && Enabled(s, step) && ByTask(step)
    ensures var s' := Apply(s, step);
            && (Gone(s, id) ==> Gone(s', id))
            && (forall n :: ActiveOn(s, id, n) ==> ActiveOn(s', id, n) || Gone(s', id))
            && (Unborn(s, id) ==> Unborn(s', id) || exists n :: ActiveOn(s', id, n))
            && (id in s.births ==> id in s'.births && s'.births[id] == s.births[id])
  {
    hide Gate, Tasks, Terminals, Expiries, Calls, Apply;
    var s', n := Apply(s, step), Place(s, step);
    StepIsLocal(s, step);
    StepKeepsInv(s, step);
    ReservationStaysOrIsFresh(s, step);
    if Unborn(s, id) && !Unborn(s', id) {
      assert ActiveOn(s', id, n);
    }
  }

  /** What a step leaves on its node: the old id, a new one, or nothing. */
  lemma ReservationStaysOrIsFresh(s: State, step: Step)
    requires Inv(s) && Enabled(s, step) && ByTask(step)
    ensures var s', n := Apply(s, step), Place(s, step);
            && (n in s'.reservations ==>
                  || (n in s.reservations && s'.reservations[n].id == s.reservations[n].id)
                  || (n !in s.reservations && s'.reservations[n].id !in s.reserved))
            && (forall id :: id in s'.reserved && id !in s.reserved ==>
                n in s'.reservations && s'.reservations[n].id == id)
  {
    hide Gate, Reservations, Terminals, Expiries, Calls, OpeningPc, Purge, SettledEnded, LeaseEnd;
    if !step.Enter? {
      assert Working(s, s.tasks[step.t]);
    }
  }

  lemma {:induction false} GoneForever(states: seq<State>, steps: seq<Step>, id: Id, i: nat, j: nat)
    requires IsRun(states, steps) && i <= j < |states| && Gone(states[i], id)
    ensures Gone(states[j], id)
    decreases j
  {
    hide Inv, Apply, Gone, Unborn, ActiveOn;
    if i < j {
      GoneForever(states, steps, id, i, j - 1);
      RunKeepsInv(states, steps, j - 1);
      StepMovesPhase(states[j - 1], steps[j - 1], id);
    }
  }

  /**
   * Over every run an id goes from unborn to active on one node to gone and never
   * back, and stays bound to the owner, node and session it was minted for.
   */
  lemma {:induction false} LifecycleIsOneWay(states: seq<State>, steps: seq<Step>, id: Id, n: Node, i: nat, j: nat)
    requires IsRun(states, steps) && i <= j < |states| && ActiveOn(states[i], id, n)
    ensures ActiveOn(states[j], id, n) || Gone(states[j], id)
    ensures id in states[i].births && id in states[j].births && states[j].births[id] == states[i].births[id]
    ensures states[i].births[id].node == n
    decreases j
  {
    hide Apply, Gate, Tasks, Terminals, Expiries, Calls;
    RunKeepsInv(states, steps, i);
    if i < j {
      LifecycleIsOneWay(states, steps, id, n, i, j - 1);
      RunKeepsInv(states, steps, j - 1);
      StepMovesPhase(states[j - 1], steps[j - 1], id);
    }
  }

  /** Once an id has left the map no backend call ever carries it again. */
  lemma {:induction false} NoCallOnceGone(states: seq<State>, steps: seq<Step>, id: Id, i: nat, j: nat)
    requires IsRun(states, steps) && i <= j < |states| && Gone(states[i], id)
    ensures |states[i].trace| <= |states[j].trace|
    ensures forall k :: |states[i].trace| <= k < |states[j].trace| ==> states[j].trace[k].id != Some(id)
    decreases j
  {
    hide Inv, Apply;
    if i < j {
      NoCallOnceGone(states, steps, id, i, j - 1);
      GoneForever(states, steps, id, i, j - 1);
      RunKeepsInv(states, steps, j - 1);
      GoneIdIsNotCalled(states[j - 1], steps[j - 1], id);
    }
  }

  lemma GoneIdIsNotCalled(s: State, step: Step, id: Id)
    requires Inv(s) && Enabled(s, step) && Gone(s, id)
    ensures var trace := Apply(s, step).trace;
            |s.trace| <= |trace| && forall k :: 0 <= k < |trace| ==>
              (if k < |s.trace| then trace[k] == s.trace[k] else trace[k].id != Some(id))
  {
    hide Apply, Gate, Tasks, Terminals, Expiries, Calls;
    CallIsHeld(s, step);
  }

  /** Every interact call of every run comes from the owner, node and session the id was begun with. */
  lemma EveryCallIsTheBeginners(states: seq<State>, steps: seq<Step>, n: nat, k: nat)
    requires IsRun(states, steps) && n < |states| && k < |states[n].trace|
    requires states[n].trace[k].id.Some?
    ensures var s, c := states[n], states[n].trace[k];
            && c.gated
            && c.id.value in s.births && s.births[c.id.value] == Birth(c.owner, c.node, c.session)
  {
    RunKeepsInv(states, steps, n);
  }

  // ---------------------------------------------------------------- exclusion

  /** At most one operation per node is inside the gate. */
  lemma OneTaskPerNode(states: seq<State>, steps: seq<Step>, n: nat, t: nat, u: nat)
    requires IsRun(states, steps) && n < |states|
    requires t in states[n].tasks && u in states[n].tasks && states[n].tasks[t].node == states[n].tasks[u].node
    ensures t == u
  {
    RunKeepsInv(states, steps, n);
  }

  /** A node's reservation changes only by a step of the task inside that node's gate. */
  lemma ReservationChangesUnderGate(s: State, step: Step, n: Node)
    requires Inv(s) && Enabled(s, step)
    requires !(n in s.reservations <==> n in Apply(s, step).reservations) ||
             (n in s.reservations && s.reservations[n] != Apply(s, step).reservations[n])
    ensures ByTask(step) && Actor(step) in s.tasks && s.tasks[Actor(step)].node == n && n in s.busy
  {
    hide Reservations, Terminals, Expiries, Calls, Opening, SettledReservations, SettledEnded, Lapse, LeaseEnd;
    if ByTask(step) && !step.Enter? {
      StepIsLocal(s, step);
      hide Apply;
      assert s.tasks[Actor(step)].node == Place(s, step);
    }
  }

  /**
   * While one interaction stays in the map, every gated backend call to its node is
   * one of its own: interact, with its id, by its owner.
   */
  lemma {:induction false} HoldExcludesOthers(states: seq<State>, steps: seq<Step>, id: Id, n: Node, i: nat, j: nat)
    requires IsRun(states, steps) && i <= j < |states|
    requires forall k :: i <= k < j ==> ActiveOn(states[k], id, n)
    ensures |states[i].trace| <= |states[j].trace|
    ensures forall k ::
              |states[i].trace| <= k < |states[j].trace| && states[j].trace[k].gated && states[j].trace[k].node == n ==>
              && states[j].trace[k].id == Some(id)
              && id in states[j].births && states[j].trace[k].owner == states[j].births[id].owner
    decreases j
  {
    hide Inv, Apply;
    if i < j {
      HoldExcludesOthers(states, steps, id, n, i, j - 1);
      RunKeepsInv(states, steps, j - 1);
      HeldNodeIsCalledByHolder(states[j - 1], steps[j - 1], id, n);
    }
  }

  lemma HeldNodeIsCalledByHolder(s: State, step: Step, id: Id, n: Node)
    requires Inv(s) && Enabled(s, step) && ActiveOn(s, id, n)
    ensures var s' := Apply(s, step);
            && |s.trace| <= |s'.trace|
            && id in s'.births && id in s.births && s'.births[id] == s.births[id]
            && forall k :: 0 <= k < |s'.trace| ==>
                 (if k < |s.trace| then s'.trace[k] == s.trace[k]
                  else s'.trace[k].gated && s'.trace[k].node == n ==>
                         s'.trace[k].id == Some(id) && s'.trace[k].owner == s'.births[id].owner)
  {
    hide Apply, Gate, Tasks, Terminals, Expiries, Calls;
    CallIsHeld(s, step);
    StepMovesPhase(s, step, id);
  }

  /** What a task may be doing once it has met this hold: it gave up, or works under the hold's id as its owner. */
  ghost predicate DefersTo(s: State, t: nat, n: Node, r: Reservation) {
    && t in s.tasks && s.tasks[t].node == n
    && match s.tasks[t].pc
       case Leaving => true
       case Inside => false
       case Ordinary => false
       case Opened(c) => c.id == r.id && s.tasks[t].owner == r.owner
       case Reserved(c) => c.id == r.id && s.tasks[t].owner == r.owner
       case Replied(c, _) => c.id == r.id && s.tasks[t].owner == r.owner
       case Rejecting(c) => c.id == r.id && s.tasks[t].owner == r.owner
       case Cancelled(c, _) => c.id == r.id && s.tasks[t].owner == r.owner
  }

  /** The check every gated operation makes meets an unexpired reservation. */
  ghost predicate MeetsHold(s: State, step: Step) {
    && Enabled(s, step) && (step.HeldCheck? || step.Open?)
    && Place(s, step) in s.reservations && s.now <= s.reservations[Place(s, step)].expires
  }

  lemma HoldTurnsOthersAway(s: State, step: Step)
    requires MeetsHold(s, step)
    ensures DefersTo(Apply(s, step), step.t, Place(s, step), s.reservations[Place(s, step)])
  {
    hide Purge;
  }

  lemma DeferringStays(s: State, step: Step, t: nat, n: Node, r: Reservation)
    requires Inv(s) && Enabled(s, step) && DefersTo(s, t, n, r)
    ensures var s' := Apply(s, step);
            && (t in s'.tasks ==> DefersTo(s', t, n, r))
            && |s.trace| <= |s'.trace|
            && forall k :: 0 <= k < |s'.trace| ==>
                 (if k < |s.trace| then s'.trace[k] == s.trace[k]
                  else s'.trace[k].gated && s'.trace[k].node == n ==>
                    s'.trace[k].id == Some(r.id) && s'.trace[k].owner == r.owner)
  {
    if ByTask(step) && Actor(step) == t {
      OwnStepDefers(s, step, n, r);
    } else {
      hide DefersTo;
      OthersStepKeepsTask(s, step, t);
      SameTaskDefers(s, Apply(s, step), t, n, r);
    }
  }

  lemma SameTaskDefers(s: State, s': State, t: nat, n: Node, r: Reservation)
    requires DefersTo(s, t, n, r) && t in s'.tasks && s'.tasks[t] == s.tasks[t]
    ensures DefersTo(s', t, n, r) && s.tasks[t].node == n
  {
  }

  /** A step of another task, or of none, leaves this task alone and calls no gated operation on its node. */
  lemma OthersStepKeepsTask(s: State, step: Step, t: nat)
    requires Gate(s) && Tasks(s) && Enabled(s, step) && t in s.tasks && (ByTask(step) ==> Actor(step) != t)
    ensures var s' := Apply(s, step);
            && t in s'.tasks && s'.tasks[t] == s.tasks[t]
            && |s.trace| <= |s'.trace|
            && forall k :: 0 <= k < |s'.trace| ==>
                 (if k < |s.trace| then s'.trace[k] == s.trace[k]
                  else s'.trace[k].gated ==> s'.trace[k].node != s.tasks[t].node)
  {
    hide Apply, Gate, Tasks;
    NewCallIsTheActors(s, step);
    if ByTask(step) {
      StepIsLocal(s, step);
      GateSeparates(s, step, t);
    } else {
      EnvironmentKeepsTasks(s, step);
    }
  }

  lemma GateSeparates(s: State, step: Step, t: nat)
    requires Gate(s) && Enabled(s, step) && ByTask(step) && t in s.tasks && Actor(step) != t
    ensures Place(s, step) != s.tasks[t].node
  {
  }

  lemma EnvironmentKeepsTasks(s: State, step: Step)
    requires Enabled(s, step) && !ByTask(step)
    ensures Apply(s, step).tasks == s.tasks
  {
  }

  lemma NewCallIsTheActors(s: State, step: Step)
    requires Enabled(s, step)
    ensures var s' := Apply(s, step);
            && |s.trace| <= |s'.trace|
            && forall k :: 0 <= k < |s'.trace| ==>
                 (if k < |s.trace| then s'.trace[k] == s.trace[k]
                  else s'.trace[k].gated ==> ByTask(step) && s'.trace[k].node == Place(s, step))
  {
    hide Purge, SettledEnded, SettledReservations, Lapse, LeaseEnd, OpeningPc;
  }

  lemma OwnStepDefers(s: State, step: Step, n: Node, r: Reservation)
    requires Enabled(s, step) && ByTask(step) && DefersTo(s, Actor(step), n, r)
    ensures var s' := Apply(s, step);
            && (Actor(step) in s'.tasks ==> DefersTo(s', Actor(step), n, r))
            && |s.trace| <= |s'.trace|
            && forall k :: 0 <= k < |s'.trace| ==>
                 (if k < |s.trace| then s'.trace[k] == s.trace[k]
                  else s'.trace[k].id == Some(r.id) && s'.trace[k].owner == r.owner)
  {
    hide Purge, SettledEnded, SettledReservations, Lapse, LeaseEnd, OpeningPc;
  }

  /**
   * Whoever passes the gate of a node held by an unexpired reservation makes, until it
   * leaves, no backend call there except interact calls with the reserved id, and
   * those only as the reserving owner.
   */
  lemma {:induction false} HeldGateAdmitsOnlyTheHolder(states: seq<State>, steps: seq<Step>, i: nat, j: nat)
    requires IsRun(states, steps) && i < j < |states| && MeetsHold(states[i], steps[i])
    requires forall k :: i < k < j ==> steps[i].t in states[k].tasks
    ensures var n := Place(states[i], steps[i]);
            var r := states[i].reservations[n];
            && (steps[i].t in states[j].tasks ==> DefersTo(states[j], steps[i].t, n, r))
            && |states[i].trace| <= |states[j].trace|
            && forall k ::
                 |states[i].trace| <= k < |states[j].trace| && states[j].trace[k].gated &&
                 states[j].trace[k].node == n ==>
                 states[j].trace[k].id == Some(r.id) && states[j].trace[k].owner == r.owner
    decreases j
  {
    hide Inv, Apply, DefersTo;
    if j == i + 1 {
      HoldTurnsOthersAway(states[i], steps[i]);
      CheckIsSilent(states[i], steps[i]);
    } else {
      HeldGateAdmitsOnlyTheHolder(states, steps, i, j - 1);
      RunKeepsInv(states, steps, j - 1);
      var n := Place(states[i], steps[i]);
      DeferringStays(states[j - 1], steps[j - 1], steps[i].t, n, states[i].reservations[n]);
    }
  }

  lemma CheckIsSilent(s: State, step: Step)
    requires Enabled(s, step) && (step.HeldCheck? || step.Open?)
    ensures Apply(s, step).trace == s.trace
  {
  }

  // ------------------------------------------------------------------- expiry

  /**
   * In every reachable state a reservation expires at most 75 seconds after the step
   * that last wrote it, so a node found held was written to at most 75 seconds ago.
   */
  lemma ReservationsLapse(states: seq<State>, steps: seq<Step>, i: nat, n: Node)
    requires IsRun(states, steps) && i < |states| && n in states[i].reservations
    ensures n in states[i].wrote && states[i].wrote[n] <= states[i].now
    ensures states[i].reservations[n].expires <= states[i].wrote[n] + 75_000
  {
    RunKeepsInv(states, steps, i);
  }

  lemma HeldMeansRecentlyWritten(states: seq<State>, steps: seq<Step>, i: nat)
    requires IsRun(states, steps) && i < |steps| && steps[i].HeldCheck?
    requires states[i + 1].tasks[steps[i].t].pc == Leaving
    ensures var n := states[i].tasks[steps[i].t].node;
            n in states[i].wrote && states[i].now <= states[i].wrote[n] + 75_000
  {
    assert Enabled(states[i], steps[i]) && states[i + 1] == Apply(states[i], steps[i]);
    ReservationsLapse(states, steps, i, states[i].tasks[steps[i].t].node);
  }

  // -------------------------------------------------------- terminal receipts

  lemma TerminalReceiptsStayFew(states: seq<State>, steps: seq<Step>, n: nat)
    requires IsRun(states, steps) && n < |states|
    ensures |states[n].ended| <= 64
    ensures forall id :: id in states[n].ended ==> Gone(states[n], id)
  {
    RunKeepsInv(states, steps, n);
  }

  /** The request opens onto a terminal receipt of its own owner, node and id, still retained. */
  ghost predicate MeetsReceipt(s: State, step: Step) {
    && Enabled(s, step) && step.Open?
    && var Task(owner, node, spec, _) := s.tasks[step.t];
       && spec.value.operation != Begin && spec.value.id in s.ended
       && s.ended[spec.value.id].owner == owner && s.ended[spec.value.id].node == node
       && s.now - s.ended[spec.value.id].at <= 180_000
  }

  lemma ReceiptTurnsAway(s: State, step: Step)
    requires MeetsReceipt(s, step)
    ensures var s', task := Apply(s, step), s.tasks[step.t];
            && s'.tasks == s.tasks[step.t := task.(pc := Leaving)] && s'.trace == s.trace
            && task.spec.value.id in s'.ended && s'.ended[task.spec.value.id] == s.ended[task.spec.value.id]
  {
  }

  /** A task that has given up only leaves the gate. */
  lemma LeavingIsSilent(s: State, step: Step)
    requires Enabled(s, step) && ByTask(step) && Actor(step) in s.tasks && s.tasks[Actor(step)].pc.Leaving?
    ensures step == Leave(Actor(step)) && Apply(s, step).trace == s.trace && Actor(step) !in Apply(s, step).tasks
  {
  }

  /** Until a task that has given up is gone, its node gets no gated backend call. */
  lemma LeavingKeepsNodeQuiet(s: State, step: Step, t: nat)
    requires Inv(s) && Enabled(s, step) && t in s.tasks && s.tasks[t].pc.Leaving?
    ensures var s' := Apply(s, step);
            && (t in s'.tasks ==> s'.tasks[t] == s.tasks[t])
            && |s.trace| <= |s'.trace|
            && forall k :: 0 <= k < |s'.trace| ==>
                 (if k < |s.trace| then s'.trace[k] == s.trace[k] else s'.trace[k].gated ==>
                  s'.trace[k].node != s.tasks[t].node)
  {
    hide Apply, Gate, Reservations, Tasks, Terminals, Expiries, Calls;
    if ByTask(step) && Actor(step) == t {
      LeavingIsSilent(s, step);
    } else {
      OthersStepKeepsTask(s, step, t);
    }
  }

  /**
   * While a terminal receipt is retained it answers its owner's later calls: from the
   * opening section until the task is gone, no gated call reaches the node.
   */
  lemma {:induction false} RetainedReceiptAnswers(states: seq<State>, steps: seq<Step>, i: nat, j: nat)
    requires IsRun(states, steps) && i < j < |states| && MeetsReceipt(states[i], steps[i])
    requires forall k :: i < k < j ==> steps[i].t in states[k].tasks
    ensures var t := steps[i].t;
            var task := states[i].tasks[t];
            && (t in states[j].tasks ==> states[j].tasks[t] == task.(pc := Leaving))
            && |states[i].trace| <= |states[j].trace|
            && forall k :: |states[i].trace| <= k < |states[j].trace| && states[j].trace[k].gated ==>
                 states[j].trace[k].node != task.node
    decreases j
  {
    hide Inv, Apply;
    if j == i + 1 {
      ReceiptTurnsAway(states[i], steps[i]);
    } else {
      RetainedReceiptAnswers(states, steps, i, j - 1);
      RunKeepsInv(states, steps, j - 1);
      LeavingKeepsNodeQuiet(states[j - 1], steps[j - 1], steps[i].t);
    }
  }
}
