/** What every reachable state of the interaction machine satisfies, and what every step keeps. */
module InteractionSafety {
  import opened Prelude
  import opened InteractionModel

  // --------------------------------------------------------------- invariants

  /** The busy map is exactly the nodes of the tasks inside, one task per node. */
  ghost predicate Gate(s: State) {
    && (forall t :: t in s.tasks ==> s.tasks[t].node in s.busy)
    && (forall n :: n in s.busy ==> exists t :: t in s.tasks && s.tasks[t].node == n)
    && (forall t, u :: t in s.tasks && u in s.tasks && s.tasks[t].node == s.tasks[u].node ==> t == u)
  }

  ghost predicate Bound(s: State, id: Id, owner: Owner, node: Node, session: nat) {
    id in s.births && s.births[id] == Birth(owner, node, session)
  }

  /** A reservation is what its id was minted for. */
  ghost predicate Reservations(s: State) {
    && (forall n :: n in s.reservations ==>
          && s.reservations[n].id in s.reserved
          && Bound(s, s.reservations[n].id, s.reservations[n].owner, n, s.reservations[n].session))
    && (forall id :: id in s.reserved ==> id in s.births)
  }

  /** A task past the first section works under its node's own reservation. */
  ghost predicate Working(s: State, task: Task) {
    match task.pc
    case Opened(c) =>
      && task.spec.Some? && Bound(s, c.id, task.owner, task.node, c.session) && c.owner == task.owner
      && if c.id in s.reserved then task.node in s.reservations && s.reservations[task.node] == c
         else task.node !in s.reservations
    case Reserved(c) => Holds(s, task, c)
    case Replied(c, _) => Holds(s, task, c)
    case Rejecting(c) => Holds(s, task, c)
    case Cancelled(c, _) => Holds(s, task, c)
    case Ordinary => task.node !in s.reservations
    case _ => true
  }

  ghost predicate Holds(s: State, task: Task, c: Reservation) {
    && task.spec.Some? && c.owner == task.owner
    && task.node in s.reservations && s.reservations[task.node] == c
  }

  ghost predicate Tasks(s: State) {
    && (forall t :: t in s.tasks ==> Working(s, s.tasks[t]))
    && (forall t :: t in s.tasks && s.tasks[t].spec.Some? ==> ValidLease(s.tasks[t].spec.value.leaseMs))
  }

  /** Terminal receipts are few, belong to whoever held the id, and never to an active one. */
  ghost predicate Terminals(s: State) {
    && |s.ended| <= TERMINAL_MAX
    && forall id :: id in s.ended ==>
         && id in s.reserved && id in s.births
         && s.births[id].owner == s.ended[id].owner && s.births[id].node == s.ended[id].node
         && forall n :: n in s.reservations ==> s.reservations[n].id != id
  }

  ghost predicate Expiries(s: State) {
    forall n :: n in s.reservations ==>
      n in s.wrote && s.wrote[n] <= s.now && s.reservations[n].expires <= s.wrote[n] + DEFAULT_LEASE + LEASE_MARGIN
  }

  ghost predicate Calls(s: State) {
    forall k :: 0 <= k < |s.trace| && s.trace[k].id.Some? ==>
      s.trace[k].gated && s.trace[k].id.value in s.reserved &&
      Bound(s, s.trace[k].id.value, s.trace[k].owner, s.trace[k].node, s.trace[k].session)
  }

  ghost predicate Inv(s: State) {
    Gate(s) && Reservations(s) && Tasks(s) && Terminals(s) && Expiries(s) && Calls(s)
  }

  // -------------------------------------------------------------- preservation

  predicate ByTask(step: Step) {
    !step.Tick? && !step.StatusCall?
  }

  function Actor(step: Step): nat
    requires ByTask(step)
  {
    step.t
  }

  function Place(s: State, step: Step): Node
    requires Enabled(s, step) && ByTask(step)
  {
    if step.Enter? then step.node else s.tasks[step.t].node
  }

  /** Only task t, on node n, acted: everything about other tasks and nodes is as before. */
  ghost predicate Local(s: State, s': State, t: nat, n: Node) {
    && (forall u :: u != t ==> (u in s'.tasks <==> u in s.tasks))
    && (forall u :: u != t && u in s.tasks ==> s'.tasks[u] == s.tasks[u])
    && (forall m :: m != n ==> (m in s'.reservations <==> m in s.reservations))
    && (forall m :: m != n && m in s.reservations ==> s'.reservations[m] == s.reservations[m])
    && (forall m :: m != n && m in s.wrote ==> m in s'.wrote && s'.wrote[m] == s.wrote[m])
    && (forall id :: id in s.births ==> id in s'.births && s'.births[id] == s.births[id])
    && (forall id :: id in s.reserved ==> id in s'.reserved)
    && (forall id :: id in s'.reserved && id !in s.reserved ==> id in s'.births && s'.births[id].node == n)
    && s'.now == s.now
    && (t in s.tasks ==> s.tasks[t].node == n)
    && (t in s'.tasks ==> s'.tasks[t].node == n)
  }

  ghost predicate ReservationHere(s: State, n: Node) {
    n in s.reservations ==>
      var r := s.reservations[n];
      && r.id in s.reserved && Bound(s, r.id, r.owner, n, r.session) && r.id !in s.ended
      && n in s.wrote && s.wrote[n] <= s.now && r.expires <= s.wrote[n] + DEFAULT_LEASE + LEASE_MARGIN
  }

  ghost predicate TaskHere(s: State, t: nat) {
    t in s.tasks ==>
      Working(s, s.tasks[t]) && (s.tasks[t].spec.Some? ==> ValidLease(s.tasks[t].spec.value.leaseMs))
  }

  lemma StepIsLocal(s: State, step: Step)
    requires Tasks(s) && Enabled(s, step) && ByTask(step)
    ensures Local(s, Apply(s, step), Actor(step), Place(s, step))
  {
    hide Local, SettledEnded, SettledReservations, Opening, Tasks, Lapse, LeaseEnd;
    if step.Open? {
      OpenIsLocal(s, step.t, step.frame, step.minted);
    } else if step.Reserve? {
      ReserveIsLocal(s, step);
    } else if step.Settle? {
      SettleIsLocal(s, step);
    } else if step.HeldCheck? || step.Drop? {
      DropIsLocal(s, step);
    } else if step.Enter? || step.Leave? {
      GateIsLocal(s, step);
    } else {
      MoveIsLocal(s, step);
    }
  }

  lemma GateIsLocal(s: State, step: Step)
    requires Enabled(s, step) && (step.Enter? || step.Leave?)
    ensures Local(s, Apply(s, step), step.t, Place(s, step))
  {
  }

  lemma MoveIsLocal(s: State, step: Step)
    requires Enabled(s, step) && (step.Refuse? || step.OrdinaryCall? || step.Dispatch? || step.SendCancel?)
    ensures Local(s, Apply(s, step), step.t, s.tasks[step.t].node)
  {
    hide Local;
    var s' := Apply(s, step);
    QuietIsLocal(s, s', step.t, s'.tasks[step.t].pc);
  }

  /** A task that only moves on and perhaps calls the node. */
  lemma QuietIsLocal(s: State, s': State, t: nat, pc: Pc)
    requires t in s.tasks && s'.tasks == s.tasks[t := s.tasks[t].(pc := pc)]
    requires s'.now == s.now && s'.reservations == s.reservations && s'.wrote == s.wrote
    requires s'.births == s.births && s'.reserved == s.reserved
    ensures Local(s, s', t, s.tasks[t].node)
  {
  }

  lemma OpenIsLocal(s: State, t: nat, frame: Option<nat>, minted: Id)
    requires Enabled(s, Open(t, frame, minted))
    ensures Local(s, Opening(s, t, frame, minted), t, s.tasks[t].node)
  {
    hide Purge, OpeningPc;
  }

  lemma DropIsLocal(s: State, step: Step)
    requires Enabled(s, step) && (step.HeldCheck? || step.Drop?)
    ensures Local(s, Apply(s, step), step.t, s.tasks[step.t].node)
  {
  }

  lemma ReserveIsLocal(s: State, step: Step)
    requires Tasks(s) && Enabled(s, step) && step.Reserve?
    ensures Local(s, Apply(s, step), step.t, s.tasks[step.t].node)
  {
    hide LeaseEnd;
    assert Working(s, s.tasks[step.t]);
  }

  lemma SettleIsLocal(s: State, step: Step)
    requires Enabled(s, step) && step.Settle?
    ensures Local(s, Apply(s, step), step.t, s.tasks[step.t].node)
  {
    hide SettledEnded, Local;
    var s', n := Apply(s, step), s.tasks[step.t].node;
    SettlingTouchesOneNode(s.reservations, n, s.tasks[step.t].pc.current, s.tasks[step.t].pc.reply, s.now);
    hide SettledReservations;
    assert s'.reserved == s.reserved && s'.births == s.births && s'.now == s.now;
    hide Apply;
    LocalFromParts(s, s', step.t, n);
  }

  lemma SettlingTouchesOneNode(reservations: map<Node, Reservation>, n: Node, current: Reservation, reply: Reply,
                               now: int)
    ensures var after := SettledReservations(reservations, n, current, reply, now);
            forall m :: m != n ==>
              (m in after <==> m in reservations) &&
              (m in reservations ==> after[m] == reservations[m])
  {
  }

  lemma LocalFromParts(s: State, s': State, t: nat, n: Node)
    requires t in s.tasks && s.tasks[t].node == n
    requires s'.tasks.Keys == s.tasks.Keys && s'.tasks == s.tasks[t := s'.tasks[t]] && s'.tasks[t].node == n
    requires forall m :: m != n ==>
              (m in s'.reservations <==> m in s.reservations) &&
              (m in s.reservations ==> s'.reservations[m] == s.reservations[m])
    requires s'.wrote == s.wrote || s'.wrote == s.wrote[n := s.now]
    requires s'.births == s.births && s'.reserved == s.reserved && s'.now == s.now
    ensures Local(s, s', t, n)
  {
  }

  lemma StepKeepsReservationHere(s: State, step: Step)
    requires Inv(s) && Enabled(s, step) && ByTask(step)
    ensures ReservationHere(Apply(s, step), Place(s, step))
  {
    hide Apply, ReservationHere;
    InvHere(s, Place(s, step));
    hide Inv;
    if step.Reserve? {
      ReserveKeepsReservationHere(s, step);
    } else if step.Settle? {
      SettleKeepsReservationHere(s, step);
    } else {
      OthersOnlyDrop(s, step);
      DroppingKeepsReservationHere(s, Apply(s, step), Place(s, step));
    }
  }

  lemma InvHere(s: State, n: Node)
    requires Inv(s)
    ensures ReservationHere(s, n)
  {
  }

  lemma ReserveKeepsReservationHere(s: State, step: Step)
    requires Inv(s) && Enabled(s, step) && step.Reserve?
    ensures ReservationHere(Apply(s, step), s.tasks[step.t].node)
  {
    hide Gate, Calls, Expiries;
    assert Working(s, s.tasks[step.t]);
  }

  lemma SettleKeepsReservationHere(s: State, step: Step)
    requires Inv(s) && Enabled(s, step) && step.Settle?
    ensures ReservationHere(Apply(s, step), s.tasks[step.t].node)
  {
    hide Gate, Calls;
    assert Working(s, s.tasks[step.t]);
  }

  /** Nothing about the node's reservation is new, and no receipt is. */
  ghost predicate OnlyDrops(s: State, s': State, n: Node) {
    && (n in s'.reservations ==> n in s.reservations && s'.reservations[n] == s.reservations[n])
    && s'.ended.Keys <= s.ended.Keys && s'.reserved == s.reserved && s'.wrote == s.wrote && s'.now == s.now
    && forall id :: id in s.births ==> id in s'.births && s'.births[id] == s.births[id]
  }

  lemma OthersOnlyDrop(s: State, step: Step)
    requires Enabled(s, step) && ByTask(step) && !step.Reserve? && !step.Settle?
    ensures OnlyDrops(s, Apply(s, step), Place(s, step))
  {
    hide OpeningPc, SettledEnded, SettledReservations, LeaseEnd;
  }

  lemma DroppingKeepsReservationHere(s: State, s': State, n: Node)
    requires ReservationHere(s, n) && OnlyDrops(s, s', n)
    ensures ReservationHere(s', n)
  {
  }

  lemma StepKeepsTaskHere(s: State, step: Step)
    requires Inv(s) && Enabled(s, step) && ByTask(step)
    ensures TaskHere(Apply(s, step), Actor(step))
  {
    hide TaskHere, Gate, Calls, Terminals, Expiries, Opening, SettledEnded, SettledReservations, LeaseEnd, Lapse;
    if step.Open? {
      OpenKeepsTaskHere(s, step.t, step.frame, step.minted);
    } else if step.Reserve? || step.HeldCheck? {
      WriteKeepsTaskHere(s, step);
    } else {
      MoveKeepsTaskHere(s, step);
    }
  }

  lemma WriteKeepsTaskHere(s: State, step: Step)
    requires Reservations(s) && Tasks(s) && Enabled(s, step) && (step.Reserve? || step.HeldCheck?)
    ensures TaskHere(Apply(s, step), step.t)
  {
    hide LeaseEnd, Tasks;
    TaskWorks(s, step.t);
  }

  lemma MoveKeepsTaskHere(s: State, step: Step)
    requires Tasks(s) && Enabled(s, step) && ByTask(step) && !step.Open? && !step.Reserve? && !step.HeldCheck?
    ensures TaskHere(Apply(s, step), step.t)
  {
    hide SettledEnded, SettledReservations, LeaseEnd, Tasks;
    if !step.Enter? && !step.Leave? {
      TaskWorks(s, step.t);
      if step.Dispatch? || step.SendCancel? || step.OrdinaryCall? {
        CallKeepsTaskHere(s, step);
      }
    }
  }

  lemma CallKeepsTaskHere(s: State, step: Step)
    requires Enabled(s, step) && (step.Dispatch? || step.SendCancel? || step.OrdinaryCall?)
    requires Working(s, s.tasks[step.t]) && TaskHere(s, step.t)
    ensures TaskHere(Apply(s, step), step.t)
  {
    hide OpeningPc, SettledEnded, SettledReservations, LeaseEnd, Lapse, Purge;
  }

  lemma TaskWorks(s: State, t: nat)
    requires Tasks(s) && t in s.tasks
    ensures Working(s, s.tasks[t]) && TaskHere(s, t)
  {
  }

  lemma OpenKeepsTaskHere(s: State, t: nat, frame: Option<nat>, minted: Id)
    requires Reservations(s) && Tasks(s) && Enabled(s, Open(t, frame, minted))
    ensures TaskHere(Opening(s, t, frame, minted), t)
  {
    hide Purge, Answers, Tasks;
    TaskWorks(s, t);
  }

  lemma LocalKeepsReservations(s: State, s': State, t: nat, n: Node)
    requires Reservations(s) && Local(s, s', t, n) && ReservationHere(s', n)
    ensures Reservations(s')
  {
  }

  lemma LocalKeepsTasks(s: State, s': State, t: nat, n: Node)
    requires Gate(s) && Reservations(s) && Tasks(s) && Local(s, s', t, n) && TaskHere(s', t)
    requires t in s.tasks || n !in s.busy
    ensures Tasks(s')
  {
    hide Tasks, Working;
    forall u | u in s'.tasks ensures Working(s', s'.tasks[u]) && TaskHere(s', u) {
      if u != t {
        TaskWorks(s, u);
        assert s.tasks[u].node != n;
        OtherKeepsWorking(s, s', t, n, s.tasks[u]);
      }
    }
    TasksFromHere(s');
  }

  lemma OtherKeepsWorking(s: State, s': State, t: nat, n: Node, task: Task)
    requires Local(s, s', t, n) && task.node != n && Working(s, task)
    ensures Working(s', task)
  {
  }

  lemma TasksFromHere(s: State)
    requires forall u :: u in s.tasks ==> Working(s, s.tasks[u]) && TaskHere(s, u)
    ensures Tasks(s)
  {
    hide Working;
  }

  lemma LocalKeepsExpiries(s: State, s': State, t: nat, n: Node)
    requires Expiries(s) && Local(s, s', t, n) && ReservationHere(s', n)
    ensures Expiries(s')
  {
  }

  lemma StepKeepsGate(s: State, step: Step)
    requires Gate(s) && Enabled(s, step) && ByTask(step)
    ensures Gate(Apply(s, step))
  {
    hide Gate, OpeningPc, SettledEnded, SettledReservations, Lapse, LeaseEnd, Purge;
    var s' := Apply(s, step);
    if step.Enter? {
      EnterKeepsGate(s, s', step.t, step.node);
    } else if step.Leave? {
      LeaveKeepsGate(s, s', step.t);
    } else {
      OthersKeepPlace(s, step);
      hide Apply;
      MoveKeepsGate(s, s', step.t);
    }
  }

  lemma OthersKeepPlace(s: State, step: Step)
    requires Enabled(s, step) && ByTask(step) && !step.Enter? && !step.Leave?
    ensures var s' := Apply(s, step);
            && s'.busy == s.busy && step.t in s.tasks && step.t in s'.tasks
            && s'.tasks == s.tasks[step.t := s.tasks[step.t].(pc := s'.tasks[step.t].pc)]
  {
    hide OpeningPc, SettledEnded, SettledReservations, Lapse, LeaseEnd, Purge;
    if step.OrdinaryCall? {
      assert s.tasks == s.tasks[step.t := s.tasks[step.t]];
    }
  }

  lemma EnterKeepsGate(s: State, s': State, t: nat, n: Node)
    requires Gate(s) && t !in s.tasks && n !in s.busy
    requires t in s'.tasks && s'.tasks == s.tasks[t := s'.tasks[t]] && s'.tasks[t].node == n && s'.busy == s.busy + {n}
    ensures Gate(s')
  {
    forall m | m in s'.busy ensures exists u :: u in s'.tasks && s'.tasks[u].node == m {
      if m == n {
        assert s'.tasks[t].node == m;
      } else {
        var u :| u in s.tasks && s.tasks[u].node == m;
        assert u in s'.tasks && s'.tasks[u].node == m;
      }
    }
  }

  lemma LeaveKeepsGate(s: State, s': State, t: nat)
    requires Gate(s) && t in s.tasks
    requires s'.tasks == s.tasks - {t} && s'.busy == s.busy - {s.tasks[t].node}
    ensures Gate(s')
  {
    forall n | n in s'.busy ensures exists u :: u in s'.tasks && s'.tasks[u].node == n {
      var u :| u in s.tasks && s.tasks[u].node == n;
      assert u in s'.tasks && s'.tasks[u].node == n;
    }
  }

  /** A task that moves on without entering or leaving keeps its place. */
  lemma MoveKeepsGate(s: State, s': State, t: nat)
    requires Gate(s) && t in s.tasks && s'.busy == s.busy && s'.tasks.Keys == s.tasks.Keys
    requires forall u :: u in s.tasks ==> s'.tasks[u].node == s.tasks[u].node
    ensures Gate(s')
  {
    forall n | n in s'.busy ensures exists u :: u in s'.tasks && s'.tasks[u].node == n {
      var u :| u in s.tasks && s.tasks[u].node == n;
      assert u in s'.tasks && s'.tasks[u].node == n;
    }
  }

  lemma StepKeepsTerminals(s: State, step: Step)
    requires Inv(s) && Enabled(s, step) && ByTask(step)
    ensures Terminals(Apply(s, step))
  {
    hide Apply, Gate, Calls, Expiries, Tasks;
    StepIsLocal(s, step);
    StepKeepsReservationHere(s, step);
    var s', n := Apply(s, step), Place(s, step);
    EndedStaysSmall(s, step);
    forall id | id in s'.ended
      ensures id in s'.reserved && id in s'.births
      ensures s'.births[id].owner == s'.ended[id].owner && s'.births[id].node == s'.ended[id].node
      ensures forall m :: m in s'.reservations ==> s'.reservations[m].id != id
    {
      EndedIsOldOrOwn(s, step, id);
    }
  }

  /** A step adds at most its own id to the terminal receipts, and only as it gives the id up. */
  lemma EndedIsOldOrOwn(s: State, step: Step, id: Id)
    requires Tasks(s) && Enabled(s, step) && ByTask(step)
    requires id in Apply(s, step).ended
    ensures var s', n := Apply(s, step), Place(s, step);
            || (id in s.ended && s'.ended[id] == s.ended[id])
            || (&& step.Settle? && n !in s'.reservations
                && n in s.reservations && s.reservations[n].id == id
                && s'.ended[id].owner == s.reservations[n].owner && s'.ended[id].node == n)
  {
    if step.Settle? {
      SettlingEndsOwn(s, step, id);
    } else {
      hide Tasks, SettledEnded, SettledReservations, Lapse, OpeningPc, LeaseEnd;
    }
  }

  lemma SettlingEndsOwn(s: State, step: Step, id: Id)
    requires Tasks(s) && Enabled(s, step) && step.Settle? && id in Apply(s, step).ended
    ensures var s', n := Apply(s, step), s.tasks[step.t].node;
            || (id in s.ended && s'.ended[id] == s.ended[id])
            || (&& n !in s'.reservations && n in s.reservations && s.reservations[n].id == id
                && s'.ended[id].owner == s.reservations[n].owner && s'.ended[id].node == n)
  {
    assert Working(s, s.tasks[step.t]);
    hide Tasks;
  }

  lemma EndedStaysSmall(s: State, step: Step)
    requires Terminals(s) && Enabled(s, step)
    ensures |Apply(s, step).ended| <= TERMINAL_MAX
  {
    hide OpeningPc, SettledReservations, SettledEnded, LeaseEnd, Lapse, Purge;
    if step.Open? {
      PurgeIsNoLarger(s.ended, s.now);
    } else if step.Settle? {
      var Task(owner, node, _, pc) := s.tasks[step.t];
      SettledEndedIsSmall(s.ended, pc.current.id, owner, node, pc.reply, s.now, step.victim);
    }
  }

  lemma SettledEndedIsSmall(ended: map<Id, Terminal>, id: Id, owner: Owner, node: Node, reply: Reply, now: int,
                            victim: Id)
    requires |ended| <= TERMINAL_MAX && (|ended| >= TERMINAL_MAX ==> victim in ended)
    ensures |SettledEnded(ended, id, owner, node, reply, now, victim)| <= TERMINAL_MAX
  {
    var kept := if |ended| >= TERMINAL_MAX then ended - {victim} else ended;
    assert |kept| == |kept.Keys| && |ended| == |ended.Keys|;
    assert |ended| >= TERMINAL_MAX ==> kept.Keys == ended.Keys - {victim};
    var after := kept[id := Terminal(owner, node, now, reply)];
    assert after.Keys == kept.Keys + {id} && |after| == |after.Keys|;
  }

  lemma StepKeepsCalls(s: State, step: Step)
    requires Inv(s) && Enabled(s, step) && ByTask(step)
    ensures Calls(Apply(s, step))
  {
    hide Apply, Gate, Tasks, Terminals, Expiries;
    StepIsLocal(s, step);
    CallIsHeld(s, step);
    var s' := Apply(s, step);
    forall k | 0 <= k < |s'.trace| && s'.trace[k].id.Some?
      ensures s'.trace[k].gated && s'.trace[k].id.value in s'.reserved
      ensures Bound(s', s'.trace[k].id.value, s'.trace[k].owner, s'.trace[k].node, s'.trace[k].session)
    {
      if k < |s.trace| {
        assert s'.trace[k] == s.trace[k];
      }
    }
  }

  lemma StepKeepsInv(s: State, step: Step)
    requires Inv(s) && Enabled(s, step)
    ensures Inv(Apply(s, step))
  {
    hide Gate, Reservations, Tasks, Terminals, Expiries, Calls;
    if ByTask(step) {
      var s', t, n := Apply(s, step), Actor(step), Place(s, step);
      StepIsLocal(s, step);
      StepKeepsReservationHere(s, step);
      StepKeepsTaskHere(s, step);
      StepKeepsGate(s, step);
      LocalKeepsReservations(s, s', t, n);
      LocalKeepsTasks(s, s', t, n);
      StepKeepsTerminals(s, step);
      LocalKeepsExpiries(s, s', t, n);
      StepKeepsCalls(s, step);
    } else {
      EnvironmentKeepsInv(s, step);
    }
  }

  lemma EnvironmentKeepsInv(s: State, step: Step)
    requires Inv(s) && Enabled(s, step) && !ByTask(step)
    ensures Inv(Apply(s, step))
  {
    var s' := Apply(s, step);
    EnvironmentLeavesMaps(s, step);
    hide Apply;
    SameMapsKeepTasks(s, s');
    forall n | n in s'.busy ensures exists t :: t in s'.tasks && s'.tasks[t].node == n {
      var t :| t in s.tasks && s.tasks[t].node == n;
      assert t in s'.tasks;
    }
    hide Tasks;
  }

  /** The clock and status calls change nothing but the clock and the trace. */
  lemma EnvironmentLeavesMaps(s: State, step: Step)
    requires Enabled(s, step) && !ByTask(step)
    ensures var s' := Apply(s, step);
            && s' == s.(now := s'.now, trace := s'.trace) && s.now <= s'.now
            && |s.trace| <= |s'.trace|
            && forall k :: 0 <= k < |s'.trace| ==>
                 if k < |s.trace| then s'.trace[k] == s.trace[k] else s'.trace[k].id.None?
  {
  }

  lemma SameMapsKeepTasks(s: State, s': State)
    requires Tasks(s) && s' == s.(now := s'.now, trace := s'.trace)
    ensures Tasks(s')
  {
    forall t | t in s'.tasks ensures Working(s', s'.tasks[t]) {
      assert Working(s, s.tasks[t]);
    }
  }

  /** Every reachable state satisfies the invariant. */
  lemma {:induction false} RunKeepsInv(states: seq<State>, steps: seq<Step>, n: nat)
    requires IsRun(states, steps) && n < |states|
    ensures Inv(states[n])
    decreases n
  {
    if n > 0 {
      RunKeepsInv(states, steps, n - 1);
      StepKeepsInv(states[n - 1], steps[n - 1]);
    }
  }

  // ---------------------------------------------------------- backend calls

  /**
   * A step makes at most one backend call. A gated call on a reserved node is an
   * interact call under that reservation, by its owner; an interact call happens
   * only on a node reserved for exactly that id, owner and session.
   */
  lemma CallIsHeld(s: State, step: Step)
    requires Tasks(s) && Enabled(s, step)
    ensures var trace := Apply(s, step).trace;
            || trace == s.trace
            || (&& |trace| == |s.trace| + 1 && trace[..|s.trace|] == s.trace
                && var c := trace[|s.trace|];
                   && (c.gated && c.node in s.reservations ==> c.id.Some?)
                   && (c.id.Some? ==>
                         && c.gated && c.node in s.reservations
                         && var r := s.reservations[c.node];
                            c.id.value == r.id && c.owner == r.owner && c.session == r.session))
  {
    hide OpeningPc, Purge, SettledEnded, SettledReservations, Lapse, LeaseEnd;
    if ByTask(step) && !step.Enter? {
      assert Working(s, s.tasks[step.t]);
    }
  }
}
