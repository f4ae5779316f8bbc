/**
 * The desktop interaction lease as a transition system. A task is one request inside
 * execute; each locked section and each backend call is one step, and steps of tasks
 * on different nodes interleave freely. Node replies, lost receipts, frame lookups
 * and the caller going away are arbitrary. Times are milliseconds of one clock.
 */
module InteractionModel {
  import opened Prelude

  type Node = string
  type Id = string

  const DEFAULT_LEASE := 60_000
  const LEASE_MARGIN := 15_000
  const CHECKPOINT_LIMIT := 65_000
  const TERMINAL_TTL := 180_000
  const TERMINAL_MAX := 64

  datatype Operation = Begin | Continue | Observe | Release | Cancel

  datatype Spec = Spec(id: Id, operation: Operation, leaseMs: nat)

  /** The parts of a node's receipt that steer the lease; body stands for the rest. */
  datatype Reply = Reply(ok: bool, thinking: bool, released: bool, notSent: bool, expiresAt: Option<int>, body: string)

  datatype Reservation = Reservation(owner: Owner, id: Id, session: nat, expires: int)

  datatype Terminal = Terminal(owner: Owner, node: Node, at: int, receipt: Reply)

  predicate ValidLease(leaseMs: nat) {
    leaseMs == 0 || 1000 <= leaseMs <= 60_000
  }

  // ---------------------------------------------------------- locked sections

  /** A reservation that has expired is dropped by whoever looks next. */
  function Lapse(reservations: map<Node, Reservation>, node: Node, now: int): map<Node, Reservation> {
    if node in reservations && now > reservations[node].expires then reservations - {node} else reservations
  }

  function Purge(ended: map<Id, Terminal>, now: int): map<Id, Terminal> {
    map id | id in ended && now - ended[id].at <= TERMINAL_TTL :: ended[id]
  }

  lemma PurgeIsNoLarger(ended: map<Id, Terminal>, now: int)
    ensures |Purge(ended, now)| <= |ended|
  {
    SubmapIsNoLarger(Purge(ended, now), ended);
  }

  /** The retained terminal receipt that answers this caller, if any. */
  predicate Answers(ended: map<Id, Terminal>, owner: Owner, node: Node, spec: Spec) {
    && spec.operation != Begin
    && spec.id in ended && ended[spec.id].owner == owner && ended[spec.id].node == node
  }

  function LeaseEnd(spec: Spec, read: int): int {
    read + (if spec.leaseMs == 0 then DEFAULT_LEASE else spec.leaseMs) + LEASE_MARGIN
  }

  function SettledReservations(reservations: map<Node, Reservation>, node: Node, current: Reservation, reply: Reply,
                               now: int)
    : map<Node, Reservation>
  {
    if reply.thinking then
      if reply.expiresAt == None then reservations
      else reservations[node := current.(expires := Min(reply.expiresAt.value, now + CHECKPOINT_LIMIT))]
    else if reply.released || reply.notSent then reservations - {node}
    else reservations
  }

  predicate BecomesTerminal(reply: Reply) {
    !reply.thinking && reply.released && !reply.ok
  }

  function SettledEnded(ended: map<Id, Terminal>, id: Id, owner: Owner, node: Node, reply: Reply, now: int, victim: Id)
    : map<Id, Terminal>
  {
    if BecomesTerminal(reply) then
      (if |ended| >= TERMINAL_MAX then ended - {victim} else ended)[id := Terminal(owner, node, now, reply)]
    else ended
  }

  // -------------------------------------------------------------------- state

  /** Where a task stands. current is the reservation its request works under. */
  datatype Pc =
    | Inside
    | Opened(current: Reservation)
    | Reserved(current: Reservation)
    | Replied(current: Reservation, reply: Reply)
    | Rejecting(current: Reservation)
    | Cancelled(current: Reservation, released: bool)
    | Ordinary
    | Leaving

  /** spec is None for every gated operation other than interact. */
  datatype Task = Task(owner: Owner, node: Node, spec: Option<Spec>, pc: Pc)

  /** One backend call; id is None unless it is an interact call. */
  datatype Call = Call(gated: bool, owner: Owner, node: Node, id: Option<Id>, session: nat)

  /** What an id was bound to when it was minted. */
  datatype Birth = Birth(owner: Owner, node: Node, session: nat)

  /**
   * busy, reservations and ended are the service's maps; births, reserved, wrote and
   * trace are history: every id minted, every id that was ever in the map, when each
   * reservation was last written, and every backend call.
   */
  datatype State = State(
    now: int,
    busy: set<Node>,
    reservations: map<Node, Reservation>,
    ended: map<Id, Terminal>,
    tasks: map<nat, Task>,
    births: map<Id, Birth>,
    reserved: set<Id>,
    wrote: map<Node, int>,
    trace: seq<Call>)

  datatype Outcome =
    | CallerGone
    | Lost
    | Unusable
    | Answered(reply: Reply, reject: bool)

  datatype Step =
    | Tick(elapsed: nat)
    | StatusCall(owner: Owner, node: Node)
    | Enter(t: nat, owner: Owner, node: Node, spec: Option<Spec>)
    | Refuse(t: nat)
    | HeldCheck(t: nat)
    | OrdinaryCall(t: nat)
    | Open(t: nat, frame: Option<nat>, minted: Id)
    | Reserve(t: nat, read: int)
    | Dispatch(t: nat, outcome: Outcome)
    | SendCancel(t: nat, released: bool)
    | Drop(t: nat)
    | Settle(t: nat, victim: Id)
    | Leave(t: nat)

  function Init(): State {
    State(0, {}, map[], map[], map[], map[], {}, map[], [])
  }

  predicate At(s: State, t: nat) {
    t in s.tasks
  }

  predicate Enabled(s: State, step: Step) {
    match step
    case Tick(_) => true
    case StatusCall(_, _) => true
    case Enter(t, _, node, spec) =>
      t !in s.tasks && node !in s.busy && (spec.Some? ==> ValidLease(spec.value.leaseMs))
    case Refuse(t) => At(s, t) && s.tasks[t].pc.Inside?
    case HeldCheck(t) => At(s, t) && s.tasks[t].pc.Inside? && s.tasks[t].spec.None?
    case OrdinaryCall(t) => At(s, t) && s.tasks[t].pc.Ordinary?
    case Open(t, _, minted) => At(s, t) && s.tasks[t].pc.Inside? && s.tasks[t].spec.Some? && minted !in s.births
    case Reserve(t, read) => At(s, t) && s.tasks[t].pc.Opened? && s.tasks[t].spec.Some? && read <= s.now
    case Dispatch(t, _) => At(s, t) && s.tasks[t].pc.Reserved?
    case SendCancel(t, _) => At(s, t) && s.tasks[t].pc.Rejecting?
    case Drop(t) => At(s, t) && s.tasks[t].pc.Cancelled?
    case Settle(t, victim) => At(s, t) && s.tasks[t].pc.Replied? && (|s.ended| >= TERMINAL_MAX ==> victim in s.ended)
    case Leave(t) => At(s, t) && (s.tasks[t].pc.Leaving? || s.tasks[t].pc.Ordinary?)
  }

  function Goto(s: State, t: nat, pc: Pc): State
    requires At(s, t)
  {
    s.(tasks := s.tasks[t := s.tasks[t].(pc := pc)])
  }

  function InteractCall(task: Task, current: Reservation): Call {
    Call(true, task.owner, task.node, Some(current.id), current.session)
  }

  /**
   * What interact decides from its first locked section, the frame lookup and, for
   * begin, the new id: give up, or go on under a new or the existing reservation.
   */
  function OpeningPc(reservations: map<Node, Reservation>, ended: map<Id, Terminal>, owner: Owner, node: Node,
                     spec: Spec, frame: Option<nat>, minted: Id): Pc
  {
    if Answers(ended, owner, node, spec) then Leaving
    else if spec.operation == Begin then
      if node in reservations || frame == None || frame.value == 0 then Leaving
      else Opened(Reservation(owner, minted, frame.value, 0))
    else if node !in reservations || reservations[node].owner != owner || reservations[node].id != spec.id then Leaving
    else if spec.operation == Continue && frame == None then Leaving
    else Opened(reservations[node])
  }

  function Opening(s: State, t: nat, frame: Option<nat>, minted: Id): State
    requires At(s, t) && s.tasks[t].spec.Some?
  {
    var Task(owner, node, spec, _) := s.tasks[t];
    var reservations, ended := Lapse(s.reservations, node, s.now), Purge(s.ended, s.now);
    var pc := OpeningPc(reservations, ended, owner, node, spec.value, frame, minted);
    var births := if pc.Opened? && spec.value.operation == Begin
                  then s.births[minted := Birth(owner, node, pc.current.session)] else s.births;
    Goto(s.(reservations := reservations, ended := ended, births := births), t, pc)
  }

  function Apply(s: State, step: Step): State
    requires Enabled(s, step)
  {
    match step
    case Tick(elapsed) => s.(now := s.now + elapsed)
    case StatusCall(owner, node) => s.(trace := s.trace + [Call(false, owner, node, None, 0)])
    case Enter(t, owner, node, spec) =>
      s.(busy := s.busy + {node}, tasks := s.tasks[t := Task(owner, node, spec, Inside)])
    case Refuse(t) => Goto(s, t, Leaving)
    case HeldCheck(t) =>
      var s' := s.(reservations := Lapse(s.reservations, s.tasks[t].node, s.now));
      Goto(s', t, if s.tasks[t].node in s'.reservations then Leaving else Ordinary)
    case OrdinaryCall(t) =>
      s.(trace := s.trace + [Call(true, s.tasks[t].owner, s.tasks[t].node, None, 0)])
    case Open(t, frame, minted) => Opening(s, t, frame, minted)
    case Reserve(t, read) =>
      var node := s.tasks[t].node;
      var current := s.tasks[t].pc.current.(expires := LeaseEnd(s.tasks[t].spec.value, read));
      Goto(s.(reservations := s.reservations[node := current], reserved := s.reserved + {current.id},
              wrote := s.wrote[node := s.now]), t, Reserved(current))
    case Dispatch(t, outcome) =>
      var current := s.tasks[t].pc.current;
      var called := s.(trace := s.trace + [InteractCall(s.tasks[t], current)]);
      (match outcome
       case CallerGone => Goto(s, t, Leaving)
       case Lost => Goto(called, t, Leaving)
       case Unusable => Goto(called, t, Leaving)
       case Answered(reply, reject) => Goto(called, t, if reject then Rejecting(current) else Replied(current, reply)))
    case SendCancel(t, released) =>
      var current := s.tasks[t].pc.current;
      Goto(s.(trace := s.trace + [InteractCall(s.tasks[t], current)]), t, Cancelled(current, released))
    case Drop(t) =>
      var node := s.tasks[t].node;
      Goto(s.(reservations := if s.tasks[t].pc.released then s.reservations - {node} else s.reservations), t, Leaving)
    case Settle(t, victim) =>
      var Task(owner, node, _, pc) := s.tasks[t];
      Goto(s.(reservations := SettledReservations(s.reservations, node, pc.current, pc.reply, s.now),
              ended := SettledEnded(s.ended, pc.current.id, owner, node, pc.reply, s.now, victim),
              wrote := if pc.reply.thinking && pc.reply.expiresAt.Some? then s.wrote[node := s.now]
                else s.wrote), t, Leaving)
    case Leave(t) =>
      s.(busy := s.busy - {s.tasks[t].node}, tasks := s.tasks - {t})
  }

  /** What a step does, where it is enabled. */
  function Next(s: State, step: Step): Option<State> {
    if Enabled(s, step) then Some(Apply(s, step)) else None
  }

  ghost predicate IsRun(states: seq<State>, steps: seq<Step>) {
    && |states| == |steps| + 1
    && states[0] == Init()
    && forall i :: 0 <= i < |steps| ==> Enabled(states[i], steps[i]) && states[i + 1] == Apply(states[i], steps[i])
  }
}
