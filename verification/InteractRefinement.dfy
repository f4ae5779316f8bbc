/** The sequential interact is one schedule of the transition system's steps. */
module InteractRefinement {
  import opened Prelude
  import opened InteractionModel
  import opened DesktopService
  import opened InteractionSafety
  import opened Schedule
  import FrameCache

  function AsCalls(owner: Owner, node: Node, calls: seq<NodeCall>): seq<Call> {
    seq(|calls|, i requires 0 <= i < |calls| => Call(true, owner, node, Some(calls[i].id), calls[i].session))
  }

  /** What Proceed leaves behind, in the machine's terms. */
  ghost predicate Proceeded(s: State, s': State, t: nat, current: Reservation, operation: Operation, world: World,
                            victim: Id)
    requires At(s, t)
  {
    var Task(owner, node, _, _) := s.tasks[t];
    && s'.reservations == ReservationsAfter(s.reservations, node, current, world)
    && s'.ended == EndedAfter(s.ended, owner, node, current, world, victim)
    && s'.trace == s.trace + AsCalls(owner, node, CallsAfter(current, operation, world))
    && s'.tasks == s.tasks[t := s.tasks[t].(pc := Leaving)]
  }

  lemma ProceedFollows(s: State, t: nat, current: Reservation, operation: Operation, world: World, victim: Id)
    returns (steps: seq<Step>)
    requires At(s, t) && s.tasks[t].pc == Reserved(current) && s.now <= world.settleAt
    requires |s.ended| >= TERMINAL_MAX ==> victim in s.ended
    ensures Perform(Next, s, steps).Some? &&
            Proceeded(s, Perform(Next, s, steps).value, t, current, operation, world, victim)
  {
    hide Proceeded, Perform, Apply, OutcomeOf;
    var outcome := OutcomeOf(world);
    var dispatch := Step.Dispatch(t, outcome);
    var s1 := Apply(s, dispatch);
    if !outcome.Answered? {
      steps := [dispatch];
      PerformOne(Next, s, dispatch);
      DispatchEnds(s, t, current, operation, world, victim);
      return;
    }
    DispatchAnswers(s, t, current, world);
    if outcome.reject {
      var cancel, drop := SendCancel(t, world.cancelReleased), Drop(t);
      RejectionProceeds(s, t, current, operation, world, victim);
      PerformTwo(Next, s1, cancel, drop);
      steps := [dispatch] + [cancel, drop];
      PerformFirst(Next, s, dispatch, [cancel, drop]);
    } else {
      var tick, settle := Tick(world.settleAt - s.now), Settle(t, victim);
      SettlementProceeds(s, t, current, operation, world, victim);
      PerformTwo(Next, s1, tick, settle);
      steps := [dispatch] + [tick, settle];
      PerformFirst(Next, s, dispatch, [tick, settle]);
    }
  }

  lemma DispatchEnds(s: State, t: nat, current: Reservation, operation: Operation, world: World, victim: Id)
    requires At(s, t) && s.tasks[t].pc == Reserved(current) && !OutcomeOf(world).Answered?
    ensures Proceeded(s, Apply(s, Step.Dispatch(t, OutcomeOf(world))), t, current, operation, world, victim)
  {
    hide SettledReservations, SettledEnded, OutcomeOf;
  }

  lemma DispatchAnswers(s: State, t: nat, current: Reservation, world: World)
    requires At(s, t) && s.tasks[t].pc == Reserved(current) && OutcomeOf(world).Answered?
    ensures var outcome, s1 := OutcomeOf(world), Apply(s, Step.Dispatch(t, OutcomeOf(world)));
            s1 == s.(trace := s.trace + [InteractCall(s.tasks[t], current)],
                     tasks := s.tasks[t := s.tasks[t].(pc := if outcome.reject then Rejecting(current)
                                                       else Replied(current, outcome.reply))])
  {
    hide OutcomeOf;
  }

  lemma RejectionProceeds(s: State, t: nat, current: Reservation, operation: Operation, world: World, victim: Id)
    requires At(s, t) && s.tasks[t].pc == Reserved(current) && OutcomeOf(world).Answered? && OutcomeOf(world).reject
    ensures var s1, cancel, drop := Apply(s, Step.Dispatch(t, OutcomeOf(world))), SendCancel(t, world.cancelReleased),
              Drop(t);
            && Enabled(s1, cancel) && Enabled(Apply(s1, cancel), drop)
            && Proceeded(s, Apply(Apply(s1, cancel), drop), t, current, operation, world, victim)
  {
    hide OutcomeOf, SettledReservations, SettledEnded, LeaseEnd;
    DispatchAnswers(s, t, current, world);
    var call := InteractCall(s.tasks[t], current);
    assert s.trace + [call] + [call] == s.trace + [call, call];
    assert AsCalls(s.tasks[t].owner, s.tasks[t].node, CallsAfter(current, operation, world)) == [call, call];
  }

  lemma SettlementProceeds(s: State, t: nat, current: Reservation, operation: Operation, world: World, victim: Id)
    requires At(s, t) && s.tasks[t].pc == Reserved(current) && OutcomeOf(world).Answered? && !OutcomeOf(world).reject
    requires s.now <= world.settleAt && (|s.ended| >= TERMINAL_MAX ==> victim in s.ended)
    ensures var s1, tick, settle := Apply(s, Step.Dispatch(t, OutcomeOf(world))), Tick(world.settleAt - s.now),
              Settle(t, victim);
            && Enabled(s1, tick) && Enabled(Apply(s1, tick), settle)
            && Proceeded(s, Apply(Apply(s1, tick), settle), t, current, operation, world, victim)
  {
    hide OutcomeOf, SettledReservations, SettledEnded, LeaseEnd;
    DispatchAnswers(s, t, current, world);
    assert AsCalls(s.tasks[t].owner, s.tasks[t].node, CallsAfter(current, operation, world)) ==
           [InteractCall(s.tasks[t], current)];
  }

  /** What Interact promises, of the machine's state: its own contract, with the task leaving and its calls traced. */
  ghost predicate Interacted(s: State, s': State, t: nat, request: InteractRequest, frames: FrameCache.Frames,
                             world: World, victim: Id)
    requires At(s, t)
  {
    var Task(owner, node, _, _) := s.tasks[t];
    var pc := Decision(s.reservations, s.ended, owner, node, request, frames, world);
    && LeavesNode(s.reservations, s.ended, s'.reservations, s'.ended, owner, node, request, pc, world, victim)
    && s'.trace == s.trace + AsCalls(owner, node, CallsMade(pc, request.spec.operation, world))
    && s'.tasks == s.tasks[t := s.tasks[t].(pc := Leaving)]
  }

  /** From inside the gate the machine can do exactly what Interact does, whatever the world answered. */
  lemma InteractFollows(s: State, t: nat, request: InteractRequest, frames: FrameCache.Frames, world: World, victim: Id)
    returns (steps: seq<Step>)
    requires At(s, t) && s.tasks[t].pc.Inside? && s.tasks[t].spec == Some(request.spec)
    requires s.now <= world.openAt <= world.reserveAt <= world.settleAt && world.minted !in s.births
    requires |Purge(s.ended, world.openAt)| >= TERMINAL_MAX ==> victim in Purge(s.ended, world.openAt)
    ensures Perform(Next, s, steps).Some? &&
            Interacted(s, Perform(Next, s, steps).value, t, request, frames, world, victim)
  {
    hide Apply, Perform, Interacted, Proceeded, OpeningPc, FrameArgument;
    if !world.authorized {
      steps := [Refuse(t)];
      PerformOne(Next, s, Refuse(t));
      RefusalInteracts(s, t, request, frames, world, victim);
      return;
    }
    var frame := ToOption(FrameArgument(frames, s.tasks[t].owner, s.tasks[t].node, request, world.frameAt));
    var tick, open := Tick(world.openAt - s.now), Open(t, frame, world.minted);
    OpeningDecides(s, t, request, frames, world);
    PerformTwo(Next, s, tick, open);
    steps := [tick, open];
    var s2 := Apply(Apply(s, tick), open);
    if s2.tasks[t].pc.Opened? {
      var wait, reserve := Tick(world.reserveAt - world.openAt), Reserve(t, world.reserveAt);
      ReservingReserves(s2, t, request, world);
      PerformTwo(Next, s2, wait, reserve);
      PerformThen(Next, s, steps, [wait, reserve]);
      steps := steps + [wait, reserve];
      var s4 := Apply(Apply(s2, wait), reserve);
      var rest := ProceedFollows(s4, t, Mine(s2.tasks[t].pc, request, world), request.spec.operation, world, victim);
      PerformThen(Next, s, steps, rest);
      steps := steps + rest;
      ProceedingInteracts(s, s4, Perform(Next, s4, rest).value, t, request, frames, world, victim);
    } else {
      GivingUpInteracts(s, s2, t, request, frames, world, victim);
    }
  }

  lemma RefusalInteracts(s: State, t: nat, request: InteractRequest, frames: FrameCache.Frames, world: World,
                         victim: Id)
    requires At(s, t) && s.tasks[t].pc.Inside? && !world.authorized
    ensures Interacted(s, Apply(s, Refuse(t)), t, request, frames, world, victim)
  {
    NoCalls(s.tasks[t].owner, s.tasks[t].node);
  }

  /** What the opening section leaves of the state: the decision, and what it did to the maps. */
  ghost predicate Decided(s: State, s2: State, t: nat, request: InteractRequest, frames: FrameCache.Frames,
                          world: World)
    requires At(s, t)
  {
    var Task(owner, node, _, _) := s.tasks[t];
    var pc := Decision(s.reservations, s.ended, owner, node, request, frames, world);
    && s2.now == world.openAt && s2.trace == s.trace
    && s2.reservations == Lapse(s.reservations, node, world.openAt) && s2.ended == Purge(s.ended, world.openAt)
    && s2.tasks == s.tasks[t := s.tasks[t].(pc := pc)]
  }

  lemma OpeningDecides(s: State, t: nat, request: InteractRequest, frames: FrameCache.Frames, world: World)
    requires At(s, t) && s.tasks[t].pc.Inside? && s.tasks[t].spec == Some(request.spec) && world.authorized
    requires s.now <= world.openAt && world.minted !in s.births
    ensures var frame := ToOption(FrameArgument(frames, s.tasks[t].owner, s.tasks[t].node, request, world.frameAt));
            var tick, open := Tick(world.openAt - s.now), Open(t, frame, world.minted);
            && Enabled(s, tick) && Enabled(Apply(s, tick), open)
            && Decided(s, Apply(Apply(s, tick), open), t, request, frames, world)
  {
    hide Lapse, Purge, FrameArgument, OpeningPc;
  }

  lemma ReservingReserves(s: State, t: nat, request: InteractRequest, world: World)
    requires At(s, t) && s.tasks[t].pc.Opened? && s.tasks[t].spec == Some(request.spec) &&
             s.now == world.openAt <= world.reserveAt
    ensures var wait, reserve := Tick(world.reserveAt - world.openAt), Reserve(t, world.reserveAt);
            && Enabled(s, wait) && Enabled(Apply(s, wait), reserve)
            && var s', mine := Apply(Apply(s, wait), reserve), Mine(s.tasks[t].pc, request, world);
               && s'.now == world.reserveAt && s'.trace == s.trace && s'.ended == s.ended
               && s'.reservations == s.reservations[s.tasks[t].node := mine]
               && s'.tasks == s.tasks[t := s.tasks[t].(pc := Reserved(mine))]
  {
    hide LeaseEnd;
  }

  lemma ProceedingInteracts(s: State, s4: State, s5: State, t: nat, request: InteractRequest, frames: FrameCache.Frames,
                            world: World, victim: Id)
    requires At(s, t) && At(s4, t) && world.authorized
    requires var Task(owner, node, _, _) := s.tasks[t];
             var pc := Decision(s.reservations, s.ended, owner, node, request, frames, world);
             && pc.Opened?
             && var mine := Mine(pc, request, world);
                && s4.trace == s.trace && s4.ended == Purge(s.ended, world.openAt)
                && s4.reservations == Lapse(s.reservations, node, world.openAt)[node := mine]
                && s4.tasks == s.tasks[t := s.tasks[t].(pc := Reserved(mine))]
                && Proceeded(s4, s5, t, mine, request.spec.operation, world, victim)
    ensures Interacted(s, s5, t, request, frames, world, victim)
  {
    hide Lapse, Purge, Decision, ReservationsAfter, EndedAfter, CallsAfter, AsCalls, LeaseEnd;
    var pc := Decision(s.reservations, s.ended, s.tasks[t].owner, s.tasks[t].node, request, frames, world);
    CallsIgnoreExpiry(pc.current, Mine(pc, request, world), request.spec.operation, world);
  }

  lemma GivingUpInteracts(s: State, s2: State, t: nat, request: InteractRequest, frames: FrameCache.Frames,
                          world: World, victim: Id)
    requires At(s, t) && world.authorized && Decided(s, s2, t, request, frames, world) && !s2.tasks[t].pc.Opened?
    ensures Interacted(s, s2, t, request, frames, world, victim)
  {
    hide Lapse, Purge, FrameArgument;
    NoCalls(s.tasks[t].owner, s.tasks[t].node);
  }

  lemma NoCalls(owner: Owner, node: Node)
    ensures AsCalls(owner, node, []) == []
  {
  }

  lemma OneStepExtendsRun(states: seq<State>, steps: seq<Step>, step: Step)
    requires IsRun(states, steps) && Enabled(states[|steps|], step)
    ensures |states| == |steps| + 1 && IsRun(states + [Apply(states[|steps|], step)], steps + [step])
  {
    hide Enabled, Apply;
  }

  /** Steps performed from the end of a run make a longer run. */
  lemma {:induction false} PerformExtendsRun(states: seq<State>, steps: seq<Step>, more: seq<Step>)
    returns (states': seq<State>)
    requires IsRun(states, steps) && Perform(Next, states[|steps|], more).Some?
    ensures IsRun(states', steps + more) && states <= states'
    ensures states'[|steps + more|] == Perform(Next, states[|steps|], more).value
    decreases |more|
  {
    if more == [] {
      assert steps + more == steps;
      states' := states;
    } else {
      hide Enabled, Apply, IsRun;
      OneStepExtendsRun(states, steps, more[0]);
      var longer := states + [Apply(states[|steps|], more[0])];
      states' := PerformExtendsRun(longer, steps + [more[0]], more[1..]);
      assert steps + [more[0]] + more[1..] == steps + more;
    }
  }

  /**
   * So what Interact leaves in a reachable state is reachable: every run up to its
   * start goes on to one that ends in it, and all that is proved of runs holds there.
   */
  lemma InteractStaysReachable(states: seq<State>, steps: seq<Step>, t: nat, request: InteractRequest,
                               frames: FrameCache.Frames, world: World, victim: Id)
    returns (states': seq<State>, steps': seq<Step>)
    requires IsRun(states, steps)
    requires var s := states[|steps|];
             && At(s, t) && s.tasks[t].pc.Inside? && s.tasks[t].spec == Some(request.spec)
             && s.now <= world.openAt <= world.reserveAt <= world.settleAt && world.minted !in s.births
             && (|Purge(s.ended, world.openAt)| >= TERMINAL_MAX ==> victim in Purge(s.ended, world.openAt))
    ensures IsRun(states', steps') && states <= states' && steps <= steps'
    ensures Interacted(states[|steps|], states'[|steps'|], t, request, frames, world, victim)
    ensures Inv(states'[|steps'|])
  {
    hide Interacted, Inv, IsRun, Purge, Perform;
    RunIsLong(states, steps);
    var more := InteractFollows(states[|steps|], t, request, frames, world, victim);
    states' := PerformExtendsRun(states, steps, more);
    steps' := steps + more;
    RunIsLong(states', steps');
    RunKeepsInv(states', steps', |steps'|);
  }

  lemma RunIsLong(states: seq<State>, steps: seq<Step>)
    requires IsRun(states, steps)
    ensures |states| == |steps| + 1
  {
  }
}
