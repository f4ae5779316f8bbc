/**
 * The desktop service itself: the per-node gate, the locked sections of an
 * interaction, and interact as one sequential operation among others. The sections
 * are the functions the transition system is built from.
 */
module DesktopService {
  import opened Prelude
  import opened InteractionModel
  import FrameCache

  datatype Snapshot = Snapshot(observation: FrameCache.Observation, image: string, wellFormed: bool)

  /**
   * A decoded receipt. snapshot is its own observation, if any; checkpoints are its
   * intermediate frames, absent when it lists none, None for an entry that is not an object.
   */
  datatype Answer = Answer(reply: Reply, snapshot: Option<Snapshot>, checkpoints: Option<seq<Option<Snapshot>>>)

  datatype InteractRequest = InteractRequest(frameId: string, spec: Spec)

  /**
   * Everything interact does not decide: authorisation, the clock at each reading, the
   * new id, whether the caller is still there, and what the node answers. rememberAt is
   * the clock for the answer's own frame at 0 and for its checkpoints from 1 on.
   */
  datatype World = World(
    authorized: bool,
    openAt: int,
    frameAt: int,
    reserveAt: int,
    rememberAt: nat -> int,
    settleAt: int,
    minted: Id,
    goneBefore: bool,
    goneAfter: bool,
    answer: Option<Answer>,
    cancelReleased: bool)

  datatype Failure =
    | Busy
    | Unauthorized
    | AlreadyActive
    | FrameUnavailable
    | NotOrdinary
    | NoSession
    | NotYours
    | NotCheckpoint
    | CallerLeft
    | NoReceipt
    | BadFrames

  datatype Response = Failed(error: Failure) | Ended(receipt: Reply) | Done(reply: Reply)

  datatype NodeCall = NodeCall(id: Id, operation: Operation, session: nat)

  class Service {
    var busy: set<Node>
    var interactions: map<Node, Reservation>
    var ended: map<Id, Terminal>
    const frames: FrameCache.Cache

    ghost predicate Valid()
      reads this, frames
    {
      frames.Valid() && |ended| <= TERMINAL_MAX
    }

    constructor ()
      ensures Valid() && busy == {} && interactions == map[] && ended == map[] && fresh(frames)
    {
      busy, interactions, ended := {}, map[], map[];
      frames := new FrameCache.Cache();
    }

    // ---------------------------------------------------------------- the gate

    method EnterGate(node: Node) returns (entered: bool)
      modifies this`busy
      ensures entered <==> node !in old(busy)
      ensures busy == old(busy) + {node}
    {
      if node in busy {
        assert busy == busy + {node};
        return false;
      }
      busy := busy + {node};
      return true;
    }

    method LeaveGate(node: Node)
      modifies this`busy
      ensures busy == old(busy) - {node}
    {
      busy := busy - {node};
    }

    method HeldCheck(node: Node, now: int) returns (held: bool)
      modifies this`interactions
      ensures interactions == Lapse(old(interactions), node, now)
      ensures held <==> node in interactions
      ensures held ==> now <= interactions[node].expires
    {
      held := node in interactions;
      if held && now > interactions[node].expires {
        interactions := interactions - {node};
        held := false;
      }
    }

    // ---------------------------------------------------------------- sections

    method OpenSection(owner: Owner, node: Node, spec: Spec, now: int)
      returns (current: Option<Reservation>, answer: Option<Reply>)
      requires Valid()
      modifies this`interactions, this`ended
      ensures Valid()
      ensures interactions == Lapse(old(interactions), node, now) && ended == Purge(old(ended), now)
      ensures current == if node in interactions then Some(interactions[node]) else None
      ensures answer == if spec.id in ended && ended[spec.id].owner == owner && ended[spec.id].node == node
                        then Some(ended[spec.id].receipt) else None
    {
      current := None;
      if node in interactions {
        if now > interactions[node].expires {
          interactions := interactions - {node};
        } else {
          current := Some(interactions[node]);
        }
      }
      answer := PurgeEnded(owner, node, spec, now);
    }

    /** Drops receipts older than their retention and picks the one that answers this caller. */
    method PurgeEnded(owner: Owner, node: Node, spec: Spec, now: int) returns (answer: Option<Reply>)
      requires Valid()
      modifies this`ended
      ensures Valid() && ended == Purge(old(ended), now)
      ensures answer == if spec.id in ended && ended[spec.id].owner == owner && ended[spec.id].node == node
                        then Some(ended[spec.id].receipt) else None
    {
      ghost var before := ended;
      answer := None;
      var pending := ended.Keys;
      assert ended == Unpurged(before, now, pending);
      while pending != {}
        invariant pending <= ended.Keys
        invariant ended == Unpurged(before, now, pending)
        invariant answer == if spec.id in ended && spec.id !in pending && ended[spec.id].owner == owner &&
                  ended[spec.id].node == node
                            then Some(ended[spec.id].receipt) else None
        decreases pending
      {
        var id :| id in pending;
        PurgeStep(before, now, pending, id);
        pending := pending - {id};
        var e := ended[id];
        if now - e.at > TERMINAL_TTL {
          ended := ended - {id};
          continue;
        }
        if id == spec.id && e.owner == owner && e.node == node {
          answer := Some(e.receipt);
        }
      }
      assert ended == Purge(before, now);
      PurgeIsNoLarger(before, now);
    }

    method ReserveSection(node: Node, current: Reservation)
      requires Valid()
      modifies this`interactions
      ensures Valid() && interactions == old(interactions)[node := current] &&
              Entry(interactions, node) == Some(current)
    {
      interactions := interactions[node := current];
    }

    method DropSection(node: Node)
      requires Valid()
      modifies this`interactions
      ensures Valid() && interactions == old(interactions) - {node} && Entry(interactions, node) == None
    {
      interactions := interactions - {node};
    }

    /** Keeps one more terminal receipt, dropping any other one when there are already enough. */
    method Retain(id: Id, receipt: Terminal) returns (ghost victim: Id)
      requires Valid()
      modifies this`ended
      ensures Valid()
      ensures ended == (if |old(ended)| >= TERMINAL_MAX then old(ended) - {victim} else old(ended))[id := receipt]
    {
      victim := "";
      if |ended| >= TERMINAL_MAX {
        var any :| any in ended;
        victim := any;
        SizeWithout(ended, any);
        ended := ended - {any};
      }
      SizeWith(ended, id, receipt);
      ended := ended[id := receipt];
    }

    method SettleSection(owner: Owner, node: Node, current: Reservation, reply: Reply, now: int)
      requires Valid()
      modifies this`interactions, this`ended
      ensures Valid()
      ensures interactions == SettledReservations(old(interactions), node, current, reply, now)
      ensures exists victim :: ended == SettledEnded(old(ended), current.id, owner, node, reply, now, victim)
    {
      hide Purge, FrameCache.LastInserted;
      ghost var before, victim := ended, "";
      if reply.thinking {
        if reply.expiresAt.Some? {
          interactions := interactions[node := current.(expires := Min(reply.expiresAt.value, now + CHECKPOINT_LIMIT))];
        }
      } else if reply.released || reply.notSent {
        interactions := interactions - {node};
        if !reply.ok && reply.released {
          victim := Retain(current.id, Terminal(owner, node, now, reply));
        }
      }
      assert ended == SettledEnded(before, current.id, owner, node, reply, now, victim);
    }

    method RememberAll(owner: Owner, node: Node, checkpoints: seq<Option<Snapshot>>, clock: nat -> int)
      returns (ok: bool)
      requires Valid()
      modifies frames
      ensures Valid()
      ensures ok <==> UsableCheckpoints(checkpoints)
      ensures frames.log == old(frames.log) + UsablePrefix(owner, node, checkpoints, clock)
    {
      hide FrameCache.LastInserted, FrameCache.Remembers;
      if |checkpoints| > 5 {
        return false;
      }
      ghost var all := UsablePrefix(owner, node, checkpoints, clock);
      for i := 0 to |checkpoints|
        invariant Valid()
        invariant forall k :: 0 <= k < i ==> Usable(checkpoints[k])
        invariant old(frames.log) + all == frames.log + UsableFrames(owner, node, checkpoints, clock, i)
      {
        if checkpoints[i].None? {
          return false;
        }
        var f := checkpoints[i].value;
        var problem := frames.Remember(owner, node, f.observation, f.image, f.wellFormed, clock(i + 1));
        if problem.Some? {
          return false;
        }
      }
      return true;
    }

    /** The caller's frame, if begin or continue may proceed from it: the session it shows. */
    method FrameFor(owner: Owner, node: Node, request: InteractRequest, now: int) returns (res: Result<nat, Failure>)
      requires Valid()
      ensures res == FrameArgument(frames.frames, owner, node, request, now)
      ensures res.Ok? <==>
                && request.frameId in frames.frames
                && var f := frames.frames[request.frameId];
                   && f.owner == owner && f.node == node && now - f.created <= 180_000 && f.observation.actionable
                   && if request.spec.operation == Begin
                      then f.observation.interactionId == None && f.observation.session != 0
                      else f.observation.interactionId == Some(request.spec.id)
      ensures res.Ok? ==> res.value == frames.frames[request.frameId].observation.session
    {
      var found := frames.Lookup(owner, node, request.frameId, now);
      if found.Err? {
        return Err(FrameUnavailable);
      }
      var observation := found.value.observation;
      if request.spec.operation == Begin {
        if !observation.actionable || observation.interactionId.Some? {
          return Err(NotOrdinary);
        }
        if observation.session == 0 {
          return Err(NoSession);
        }
      } else if observation.interactionId != Some(request.spec.id) || !observation.actionable {
        return Err(NotCheckpoint);
      }
      return Ok(observation.session);
    }

    /** The decision between the first locked section and the reservation. */
    method Choose(owner: Owner, node: Node, request: InteractRequest, world: World, current: Option<Reservation>)
      returns (chosen: Result<Reservation, Failure>)
      requires Valid()
      ensures var frame := FrameArgument(frames.frames, owner, node, request, world.frameAt);
              var held: map<Node, Reservation> := if current.Some? then map[node := current.value] else map[];
              var pc := OpeningPc(held, map[], owner, node, request.spec, ToOption(frame), world.minted);
              && (chosen.Ok? <==> pc.Opened?) && (chosen.Ok? ==> pc == Opened(chosen.value))
              && (chosen.Err? ==> chosen.error == OpeningFailure(held, owner, node, request, frame))
    {
      if request.spec.operation == Begin {
        if current.Some? {
          return Err(AlreadyActive);
        }
        var session := FrameFor(owner, node, request, world.frameAt);
        if session.Err? {
          return Err(session.error);
        }
        return Ok(Reservation(owner, world.minted, session.value, 0));
      }
      if current.None? || current.value.owner != owner || current.value.id != request.spec.id {
        return Err(NotYours);
      }
      if request.spec.operation == Continue {
        var session := FrameFor(owner, node, request, world.frameAt);
        if session.Err? {
          return Err(session.error);
        }
      }
      return Ok(current.value);
    }

    /** dispatch: one backend call, and the answer's own observation goes into the cache. */
    method Dispatch(owner: Owner, node: Node, current: Reservation, operation: Operation, world: World)
      returns (outcome: Outcome, checkpoints: seq<Option<Snapshot>>, calls: seq<NodeCall>)
      requires Valid()
      modifies frames
      ensures Valid()
      ensures calls == if world.goneBefore then [] else [NodeCall(current.id, operation, current.session)]
      ensures outcome == DispatchOutcome(world)
      ensures checkpoints == if outcome.Answered? then world.answer.value.checkpoints.GetOr([]) else []
      ensures frames.log == old(frames.log) + OwnFrame(owner, node, world)
    {
      checkpoints := [];
      if world.goneBefore {
        return CallerGone, checkpoints, [];
      }
      calls := [NodeCall(current.id, operation, current.session)];
      if world.answer.None? {
        return Lost, checkpoints, calls;
      }
      var a := world.answer.value;
      if a.reply.ok && a.snapshot.Some? {
        var f := a.snapshot.value;
        var problem := frames.Remember(owner, node, f.observation, f.image, f.wellFormed, world.rememberAt(0));
        if problem.Some? {
          return Unusable, checkpoints, calls;
        }
      }
      checkpoints := a.checkpoints.GetOr([]);
      return Answered(a.reply, false), checkpoints, calls;
    }

    /** Asks the node to cancel, and frees the node if it says it let go. */
    method CancelAndDrop(node: Node, current: Reservation, world: World) returns (call: NodeCall)
      requires Valid()
      modifies this`interactions
      ensures Valid() && call == NodeCall(current.id, Cancel, current.session)
      ensures interactions == if world.cancelReleased then old(interactions) - {node} else old(interactions)
    {
      call := NodeCall(current.id, Cancel, current.session);
      if world.cancelReleased {
        DropSection(node);
      }
    }

    /** From the reservation to the response: the call, its frames, and what they settle. */
    method Proceed(owner: Owner, node: Node, mine: Reservation, operation: Operation, world: World)
      returns (response: Response, calls: seq<NodeCall>)
      requires Valid() && Entry(interactions, node) == Some(mine)
      modifies this`interactions, this`ended, frames
      ensures Valid()
      ensures interactions == ReservationsAfter(old(interactions), node, mine, world)
      ensures exists victim :: ended == EndedAfter(old(ended), owner, node, mine, world, victim)
      ensures frames.log == old(frames.log) + FramesAfter(owner, node, world)
      ensures calls == CallsAfter(mine, operation, world)
      ensures response == ResponseAfter(world)
    {
      hide Purge, SettledEnded, UsableCheckpoints, SettledReservations, Entry, Service.Valid, UsablePrefix;
      var outcome, checkpoints;
      outcome, checkpoints, calls := Dispatch(owner, node, mine, operation, world);
      if !outcome.Answered? {
        assert ended == EndedAfter(old(ended), owner, node, mine, world, "");
        return Failed(if outcome.CallerGone? then CallerLeft else NoReceipt), calls;
      }
      var usable := RememberAll(owner, node, checkpoints, world.rememberAt);
      if !usable || (world.goneAfter && outcome.reply.thinking) {
        var cancel := CancelAndDrop(node, mine, world);
        assert ended == EndedAfter(old(ended), owner, node, mine, world, "");
        return Failed(if usable then CallerLeft else BadFrames), calls + [cancel];
      }
      SettleSection(owner, node, mine, outcome.reply, world.settleAt);
      ghost var victim :| ended ==
        SettledEnded(old(ended), mine.id, owner, node, outcome.reply, world.settleAt, victim);
      assert ended == EndedAfter(old(ended), owner, node, mine, world, victim);
      return Done(outcome.reply), calls;
    }

    /**
     * One interact request from inside the gate: the machine's opening decision on the
     * state as this call finds it, then its outcome for what the world answered.
     */
    method Interact(owner: Owner, node: Node, request: InteractRequest, world: World)
      returns (response: Response, calls: seq<NodeCall>)
      requires Valid() && node in busy && ValidLease(request.spec.leaseMs)
      modifies this`interactions, this`ended, frames
      ensures Valid()
      ensures var pc := Decision(old(interactions), old(ended), owner, node, request, old(frames.frames), world);
              && (exists victim :: LeavesNode(old(interactions), old(ended), interactions, ended, owner, node, request,
                                              pc, world, victim))
              && calls == CallsMade(pc, request.spec.operation, world)
              && frames.log == old(frames.log) + (if pc.Opened? then FramesAfter(owner, node, world) else [])
              && response == ResponseTo(old(interactions), old(ended), owner, node, request, old(frames.frames), world)
    {
      hide Purge, Lapse, Service.Valid, FrameArgument, ReservationsAfter, EndedAfter, FramesAfter, CallsAfter,
           ResponseAfter, LeavesNode, Entry, UsableCheckpoints, Decision, ResponseTo, OpeningPc, OpeningFailure;
      ghost var before, receipts := interactions, ended;
      ghost var pc := Decision(interactions, ended, owner, node, request, frames.frames, world);
      calls := [];
      if !world.authorized {
        UnauthorizedDecides(interactions, ended, owner, node, request, frames.frames, world);
        LeavesAsFound(interactions, ended, owner, node, request, world);
        return Failed(Unauthorized), calls;
      }
      var current, answer := OpenSection(owner, node, request.spec, world.openAt);
      if request.spec.operation != Begin && answer.Some? {
        AnsweredDecides(before, receipts, owner, node, request, frames.frames, world);
        LeavesLapsed(before, receipts, owner, node, request, pc, world);
        return Ended(answer.value), calls;
      }
      UnansweredDecides(before, receipts, owner, node, request, frames.frames, world);
      var chosen := Choose(owner, node, request, world, current);
      if chosen.Err? {
        LeavesLapsed(before, receipts, owner, node, request, pc, world);
        return Failed(chosen.error), calls;
      }
      var lease := if request.spec.leaseMs == 0 then DEFAULT_LEASE else request.spec.leaseMs;
      var mine := chosen.value.(expires := world.reserveAt + lease + LEASE_MARGIN);
      ReserveSection(node, mine);
      response, calls := Proceed(owner, node, mine, request.spec.operation, world);
      CallsIgnoreExpiry(pc.current, mine, request.spec.operation, world);
      LeavesSettled(before, receipts, interactions, ended, owner, node, request, pc, world);
    }

    /**
     * interact behind the gate of its node, and what it comes to in plain terms: which
     * frame and which reservation every call had behind it, and what each answer
     * leaves of the reservation and the terminal receipts.
     */
    method ExecuteInteract(owner: Owner, node: Node, request: InteractRequest, world: World)
      returns (entered: bool, response: Response, calls: seq<NodeCall>)
      requires Valid() && ValidLease(request.spec.leaseMs)
      modifies this, frames
      ensures Valid() && busy == old(busy)
      ensures entered <==> node !in old(busy)
      ensures !entered ==> calls == [] && interactions == old(interactions) && ended == old(ended)
      ensures entered ==>
                var asked := request.spec;
                && |calls| <= 2
                && (calls != [] ==> world.authorized && calls[0].operation == asked.operation)
                && (|calls| == 2 ==> calls[1] == NodeCall(calls[0].id, Cancel, calls[0].session))
                && (calls != [] && (asked.operation == Begin || asked.operation == Continue) ==>
                      request.frameId in old(frames.frames) &&
                      var f := old(frames.frames)[request.frameId];
                      && f.owner == owner && f.node == node && world.frameAt - f.created <= 180_000
                      && f.observation.actionable
                      && f.observation.interactionId == (if asked.operation == Begin then None else Some(asked.id))
                      && (asked.operation == Begin ==> f.observation.session == calls[0].session != 0))
                && (calls != [] && asked.operation == Begin ==>
                      calls[0].id == world.minted &&
                        (node in old(interactions) ==> world.openAt > old(interactions)[node].expires))
                && (calls != [] && asked.operation != Begin ==>
                      && node in old(interactions) && world.openAt <= old(interactions)[node].expires
                      && old(interactions)[node].owner == owner && old(interactions)[node].id == asked.id == calls[0].id
                      && old(interactions)[node].session == calls[0].session)
                && (&& asked.operation != Begin && asked.id in old(ended)
                    && old(ended)[asked.id].owner == owner && old(ended)[asked.id].node == node
                    && world.openAt - old(ended)[asked.id].at <= 180_000 && world.authorized ==>
                      calls == [] && response == Ended(old(ended)[asked.id].receipt))
    {
      calls, response := [], Failed(Busy);
      entered := EnterGate(node);
      if entered {
        hide Decision, CallsMade, LeavesNode, ResponseTo, FramesAfter, Service.Valid, EndedAfter, ReservationsAfter,
             OutcomeOf, Lapse, Purge, Answers, LeaseEnd;
        ghost var before, receipts, seen := interactions, ended, frames.frames;
        ghost var pc := Decision(before, receipts, owner, node, request, seen, world);
        response, calls := Interact(owner, node, request, world);
        if pc.Opened? {
          OpensWithCause(before, receipts, owner, node, request, seen, world);
        }
        CallsFollow(pc, request.spec.operation, world);
        AnswersFollow(before, receipts, owner, node, request, seen, world);
        LeaveGate(node);
        assert busy == old(busy);
      }
    }
  }

  // ---------------------------------------------------------------- reference

  /** The machine's opening decision on the state a request finds; Leaving if it is not authorised. */
  function Decision(reservations: map<Node, Reservation>, ended: map<Id, Terminal>, owner: Owner, node: Node,
                   request: InteractRequest, frames: FrameCache.Frames, world: World): Pc
  {
    if !world.authorized then Leaving
    else
      var frame := ToOption(FrameArgument(frames, owner, node, request, world.frameAt));
      OpeningPc(Lapse(reservations, node, world.openAt), Purge(ended, world.openAt), owner, node, request.spec, frame,
                world.minted)
  }

  /** What one request, opened as pc, makes of the reservations and the receipts it finds. */
  ghost predicate LeavesNode(before: map<Node, Reservation>, ended: map<Id, Terminal>,
                             after: map<Node, Reservation>, ended': map<Id, Terminal>,
                             owner: Owner, node: Node, request: InteractRequest, pc: Pc, world: World, victim: Id)
  {
    if !world.authorized then after == before && ended' == ended
    else
      var lapsed, kept := Lapse(before, node, world.openAt), Purge(ended, world.openAt);
      if pc.Opened? then
        var mine := Mine(pc, request, world);
        && after == ReservationsAfter(lapsed[node := mine], node, mine, world)
        && ended' == EndedAfter(kept, owner, node, mine, world, victim)
      else after == lapsed && ended' == kept
  }

  /** The reservation a request that opened as pc works under. */
  function Mine(pc: Pc, request: InteractRequest, world: World): Reservation
    requires pc.Opened?
  {
    pc.current.(expires := LeaseEnd(request.spec, world.reserveAt))
  }

  function CallsMade(pc: Pc, operation: Operation, world: World): seq<NodeCall> {
    if pc.Opened? then CallsAfter(pc.current, operation, world) else []
  }

  /** Why a request that meets no receipt does not open. */
  function OpeningFailure(reservations: map<Node, Reservation>, owner: Owner, node: Node, request: InteractRequest,
                          frame: Result<nat, Failure>): Failure
  {
    if request.spec.operation == Begin then
      if node in reservations then AlreadyActive else if frame.Err? then frame.error else NoSession
    else if node !in reservations || reservations[node].owner != owner || reservations[node].id != request.spec.id
    then NotYours
    else if frame.Err? then frame.error else NotCheckpoint
  }

  function ResponseTo(reservations: map<Node, Reservation>, ended: map<Id, Terminal>, owner: Owner, node: Node,
                      request: InteractRequest, frames: FrameCache.Frames, world: World): Response
  {
    var lapsed, kept := Lapse(reservations, node, world.openAt), Purge(ended, world.openAt);
    if !world.authorized then Failed(Unauthorized)
    else if Answers(kept, owner, node, request.spec) then Ended(kept[request.spec.id].receipt)
    else if Decision(reservations, ended, owner, node, request, frames, world).Opened? then ResponseAfter(world)
    else Failed(OpeningFailure(lapsed, owner, node, request,
                               FrameArgument(frames, owner, node, request, world.frameAt)))
  }

  lemma CallsIgnoreExpiry(a: Reservation, b: Reservation, operation: Operation, world: World)
    requires a.id == b.id && a.session == b.session
    ensures CallsAfter(a, operation, world) == CallsAfter(b, operation, world)
  {
  }

  /** A request opens only from the right frame and, unless it begins, under the caller's own reservation. */
  lemma OpensWithCause(before: map<Node, Reservation>, receipts: map<Id, Terminal>, owner: Owner, node: Node,
                       request: InteractRequest, frames: FrameCache.Frames, world: World)
    requires Decision(before, receipts, owner, node, request, frames, world).Opened?
    ensures var current := Decision(before, receipts, owner, node, request, frames, world).current;
            var spec, id := request.spec, request.frameId;
            && world.authorized && current.owner == owner
            && (spec.operation == Begin || spec.operation == Continue ==>
                  && id in frames && frames[id].owner == owner && frames[id].node == node
                  && world.frameAt - frames[id].created <= 180_000 && frames[id].observation.actionable)
            && (if spec.operation == Begin then
                  && frames[id].observation.interactionId == None
                  && current.id == world.minted && current.session == frames[id].observation.session != 0
                  && (node in before ==> world.openAt > before[node].expires)
                else
                  && node in before && world.openAt <= before[node].expires && before[node] == current
                  && current.id == spec.id)
            && (spec.operation == Continue ==> frames[id].observation.interactionId == Some(spec.id))
            && !Answers(Purge(receipts, world.openAt), owner, node, spec)
  {
  }

  /** Nothing else keeps a request from opening. */
  lemma OpensWhenItMay(before: map<Node, Reservation>, receipts: map<Id, Terminal>, owner: Owner, node: Node,
                       request: InteractRequest, frames: FrameCache.Frames, world: World)
    requires world.authorized
    requires request.spec.operation == Begin || request.spec.operation == Continue ==>
               && request.frameId in frames
               && var f := frames[request.frameId];
                  && f.owner == owner && f.node == node && world.frameAt - f.created <= 180_000 &&
                     f.observation.actionable
                  && if request.spec.operation == Begin
                     then f.observation.interactionId == None && f.observation.session != 0
                     else f.observation.interactionId == Some(request.spec.id)
    requires if request.spec.operation == Begin then node in before ==> world.openAt > before[node].expires
             else
               && node in before && world.openAt <= before[node].expires
               && before[node].owner == owner && before[node].id == request.spec.id && request.spec.id !in receipts
    ensures Decision(before, receipts, owner, node, request, frames, world).Opened?
    ensures !world.goneBefore ==>
              CallsMade(Decision(before, receipts, owner, node, request, frames, world), request.spec.operation,
                        world) != []
  {
    OutcomesSpelledOut(world);
    hide OutcomeOf;
  }

  /** What the node's answer comes to: nothing sent, nothing usable back, a rejection, or the answer as it is. */
  lemma OutcomesSpelledOut(world: World)
    ensures OutcomeOf(world).CallerGone? <==> world.goneBefore
    ensures OutcomeOf(world).Lost? <==> !world.goneBefore && world.answer.None?
    ensures OutcomeOf(world).Answered? ==> world.answer.Some? && OutcomeOf(world).reply == world.answer.value.reply
    ensures !world.goneBefore && world.answer.Some? ==>
              var a := world.answer.value;
              var frames := if a.checkpoints.Some? then a.checkpoints.value else [];
              var usable := |frames| <= 5 && forall k :: 0 <= k < |frames| ==>
                frames[k].Some? && frames[k].value.wellFormed;
              && (OutcomeOf(world).Unusable? <==> a.reply.ok && a.snapshot.Some? && !a.snapshot.value.wellFormed)
              && (OutcomeOf(world).Answered? ==>
                    (OutcomeOf(world).reject <==> !usable || (world.goneAfter && a.reply.thinking)))
  {
  }

  /** The frames an answer adds: its own, and its intermediate ones up to the first that is no good. */
  lemma FramesSpelledOut(owner: Owner, node: Node, world: World) returns (n: nat)
    requires !world.goneBefore && world.answer.Some?
    ensures var a := world.answer.value;
            var cs := if a.checkpoints.Some? then a.checkpoints.value else [];
            var own := a.reply.ok && a.snapshot.Some?;
            && n <= |cs| && (forall k :: 0 <= k < n ==> cs[k].Some? && cs[k].value.wellFormed)
            && (|cs| > 5 ==> n == 0)
            && (n < |cs| <= 5 ==> cs[n].None? || !cs[n].value.wellFormed)
            && (own && !a.snapshot.value.wellFormed ==> FramesAfter(owner, node, world) == [])
            && (!(own && !a.snapshot.value.wellFormed) ==>
                  FramesAfter(owner, node, world) ==
                  (if own then [FrameCache.Frame(owner, node, world.rememberAt(0), a.snapshot.value.observation,
                                                 a.snapshot.value.image)] else []) +
                  seq(n, k requires 0 <= k < n => FrameCache.Frame(owner, node, world.rememberAt(k + 1),
                                                                   cs[k].value.observation, cs[k].value.image)))
  {
    var cs := world.answer.value.checkpoints.GetOr([]);
    n := if |cs| > 5 then 0 else |UsableFrames(owner, node, cs, world.rememberAt, 0)|;
    UsableFramesAre(owner, node, cs, world.rememberAt, 0);
  }

  lemma {:induction false} UsableFramesAre(owner: Owner, node: Node, cs: seq<Option<Snapshot>>, clock: nat -> int,
                                           at: nat)
    requires at <= |cs|
    ensures var fs := UsableFrames(owner, node, cs, clock, at);
            && at + |fs| <= |cs|
            && (forall k :: at <= k < at + |fs| ==> cs[k].Some? && cs[k].value.wellFormed)
            && (at + |fs| < |cs| ==> cs[at + |fs|].None? || !cs[at + |fs|].value.wellFormed)
            && forall k :: at <= k < at + |fs| ==>
                 fs[k - at] == FrameCache.Frame(owner, node, clock(k + 1), cs[k].value.observation, cs[k].value.image)
    decreases |cs| - at
  {
    if at < |cs| && Usable(cs[at]) {
      UsableFramesAre(owner, node, cs, clock, at + 1);
    }
  }

  /** The calls of a request that opened: the one it asks for, and at most a cancellation. */
  lemma CallsFollow(pc: Pc, operation: Operation, world: World)
    ensures var calls := CallsMade(pc, operation, world);
            if !pc.Opened? then calls == []
            else
              var call := NodeCall(pc.current.id, operation, pc.current.session);
              && (OutcomeOf(world).CallerGone? ==> calls == [])
              && (OutcomeOf(world).Answered? && OutcomeOf(world).reject ==> calls == [call, call.(operation := Cancel)])
              && (!OutcomeOf(world).CallerGone? && !(OutcomeOf(world).Answered? && OutcomeOf(world).reject) ==>
                  calls == [call])
  {
    hide OutcomeOf;
  }

  lemma AnswersFollow(before: map<Node, Reservation>, receipts: map<Id, Terminal>, owner: Owner, node: Node,
                      request: InteractRequest, frames: FrameCache.Frames, world: World)
    ensures var pc := Decision(before, receipts, owner, node, request, frames, world);
            var response := ResponseTo(before, receipts, owner, node, request, frames, world);
            && (&& request.spec.operation != Begin && request.spec.id in receipts && world.authorized
                && receipts[request.spec.id].owner == owner && receipts[request.spec.id].node == node
                && world.openAt - receipts[request.spec.id].at <= 180_000 ==>
                  pc == Leaving && response == Ended(receipts[request.spec.id].receipt))
            && (response.Done? <==> pc.Opened? && OutcomeOf(world).Answered? && !OutcomeOf(world).reject)
            && (response.Done? ==> response.reply == OutcomeOf(world).reply)
            && (response == Failed(NoReceipt) ==> pc.Opened? ==> OutcomeOf(world).Lost? || OutcomeOf(world).Unusable?)
  {
    hide Lapse, UsableCheckpoints, DispatchOutcome;
    var pc := Decision(before, receipts, owner, node, request, frames, world);
    if pc.Opened? {
      OpensWithCause(before, receipts, owner, node, request, frames, world);
    }
  }

  lemma OthersStay(before: map<Node, Reservation>, receipts: map<Id, Terminal>, after: map<Node, Reservation>,
                   ended: map<Id, Terminal>, owner: Owner, node: Node, request: InteractRequest, pc: Pc, world: World,
                   victim: Id)
    requires LeavesNode(before, receipts, after, ended, owner, node, request, pc, world, victim)
    ensures forall m :: m != node ==> (m in after <==> m in before) && (m in before ==> after[m] == before[m])
  {
    hide OutcomeOf, EndedAfter, Purge;
  }

  /** What an opened request leaves, by what the call came to. */
  lemma NodeFollows(before: map<Node, Reservation>, receipts: map<Id, Terminal>, after: map<Node, Reservation>,
                    ended: map<Id, Terminal>, owner: Owner, node: Node, request: InteractRequest, pc: Pc, world: World,
                    victim: Id)
    requires LeavesNode(before, receipts, after, ended, owner, node, request, pc, world, victim)
    requires world.authorized && pc.Opened?
    ensures var lease, outcome := if request.spec.leaseMs == 0 then 60_000 else request.spec.leaseMs, OutcomeOf(world);
            var mine := pc.current.(expires := world.reserveAt + lease + 15_000);
            var released := outcome.Answered? && (outcome.reply.released || outcome.reply.notSent);
            var frees := if outcome.Answered? && outcome.reject then world.cancelReleased
              else released && !outcome.reply.thinking;
            if frees then node !in after
            else
              && node in after
              && after[node] == (if outcome.Answered? && !outcome.reject && outcome.reply.thinking &&
                                 outcome.reply.expiresAt.Some?
                                 then mine.(expires := Min(outcome.reply.expiresAt.value, world.settleAt + 65_000))
                                   else mine)
    ensures var outcome := OutcomeOf(world);
            var ends := outcome.Answered? && !outcome.reject && !outcome.reply.thinking && outcome.reply.released &&
              !outcome.reply.ok;
            && (ends ==>
                  && pc.current.id in ended
                  && ended[pc.current.id] == Terminal(owner, node, world.settleAt, outcome.reply))
            && forall id :: id in ended ==>
                 || (id in receipts && ended[id] == receipts[id] && world.openAt - receipts[id].at <= 180_000)
                 || (ends && id == pc.current.id)
  {
    hide OutcomeOf, Lapse;
  }

  lemma ReceiptsFollow(before: map<Node, Reservation>, receipts: map<Id, Terminal>, after: map<Node, Reservation>,
                       ended: map<Id, Terminal>, owner: Owner, node: Node, request: InteractRequest, pc: Pc,
                       world: World,
                       victim: Id)
    requires LeavesNode(before, receipts, after, ended, owner, node, request, pc, world, victim) && !pc.Opened?
    ensures forall id :: id in ended ==>
              id in receipts && ended[id] == receipts[id] &&
                (!world.authorized || world.openAt - receipts[id].at <= 180_000)
  {
  }

  /**
   * What Interact promises of its node and the receipts, in plain terms: a reservation
   * runs for the lease asked for and 15 seconds, a checkpoint ends it earlier, what the
   * node let go of is free, and a failed release leaves its receipt.
   */
  lemma NodeIsLeft(before: map<Node, Reservation>, receipts: map<Id, Terminal>, after: map<Node, Reservation>,
                   ended: map<Id, Terminal>, owner: Owner, node: Node, request: InteractRequest,
                   frames: FrameCache.Frames, world: World, calls: seq<NodeCall>, response: Response, victim: Id)
    requires var pc := Decision(before, receipts, owner, node, request, frames, world);
             && LeavesNode(before, receipts, after, ended, owner, node, request, pc, world, victim)
             && calls == CallsMade(pc, request.spec.operation, world)
             && response == ResponseTo(before, receipts, owner, node, request, frames, world)
    ensures var asked := request.spec;
            && (forall m :: m != node ==>
                  (m in after <==> m in before) &&
                    (m in before ==> after[m] == before[m]))
            && (calls != [] ==>
                  var lease := if asked.leaseMs == 0 then 60_000 else asked.leaseMs;
                  var mine := Reservation(owner, calls[0].id, calls[0].session, world.reserveAt + lease + 15_000);
                  && (response == Failed(NoReceipt) ==> node in after && after[node] == mine)
                  && (|calls| == 2 ==> if world.cancelReleased then node !in after
                      else node in after && after[node] == mine)
                  && (response.Done? ==>
                        var r := response.reply;
                        if r.thinking then
                          && node in after
                          && after[node] ==
                             match r.expiresAt
                             case None => mine
                             case Some(e) =>
                               mine.(expires := if e < world.settleAt + 65_000 then e else world.settleAt + 65_000)
                        else if r.released || r.notSent then node !in after
                        else node in after && after[node] == mine)
                  && (response.Done? && !response.reply.thinking && response.reply.released &&
                      !response.reply.ok ==>
                        calls[0].id in ended && ended[calls[0].id] ==
                          Terminal(owner, node, world.settleAt, response.reply)))
            && (forall id :: id in ended ==>
                  || (id in receipts && ended[id] == receipts[id] &&
                      (!world.authorized || world.openAt - receipts[id].at <= 180_000))
                  || (calls != [] && id == calls[0].id && response.Done? && ended[id].receipt == response.reply))
  {
    hide Decision, CallsMade, LeavesNode, ResponseTo, EndedAfter, ReservationsAfter, OutcomeOf, Lapse, Purge, Answers,
         LeaseEnd;
    var pc := Decision(before, receipts, owner, node, request, frames, world);
    CallsFollow(pc, request.spec.operation, world);
    AnswersFollow(before, receipts, owner, node, request, frames, world);
    OthersStay(before, receipts, after, ended, owner, node, request, pc, world, victim);
    if pc.Opened? {
      OpensWithCause(before, receipts, owner, node, request, frames, world);
      NodeFollows(before, receipts, after, ended, owner, node, request, pc, world, victim);
    } else {
      ReceiptsFollow(before, receipts, after, ended, owner, node, request, pc, world, victim);
    }
  }

  lemma UnauthorizedDecides(reservations: map<Node, Reservation>, ended: map<Id, Terminal>, owner: Owner, node: Node,
                            request: InteractRequest, frames: FrameCache.Frames, world: World)
    requires !world.authorized
    ensures Decision(reservations, ended, owner, node, request, frames, world) == Leaving
    ensures ResponseTo(reservations, ended, owner, node, request, frames, world) == Failed(Unauthorized)
  {
  }

  lemma AnsweredDecides(reservations: map<Node, Reservation>, ended: map<Id, Terminal>, owner: Owner, node: Node,
                        request: InteractRequest, frames: FrameCache.Frames, world: World)
    requires world.authorized && Answers(Purge(ended, world.openAt), owner, node, request.spec)
    ensures Decision(reservations, ended, owner, node, request, frames, world) == Leaving
    ensures ResponseTo(reservations, ended, owner, node, request, frames, world) ==
            Ended(Purge(ended, world.openAt)[request.spec.id].receipt)
  {
  }

  /** Without a receipt the decision looks at the node's own reservation only. */
  lemma UnansweredDecides(reservations: map<Node, Reservation>, ended: map<Id, Terminal>, owner: Owner, node: Node,
                          request: InteractRequest, frames: FrameCache.Frames, world: World)
    requires world.authorized && !Answers(Purge(ended, world.openAt), owner, node, request.spec)
    ensures var lapsed := Lapse(reservations, node, world.openAt);
            var held: map<Node, Reservation> := if node in lapsed then map[node := lapsed[node]] else map[];
            var frame := FrameArgument(frames, owner, node, request, world.frameAt);
            var pc := Decision(reservations, ended, owner, node, request, frames, world);
            && pc == OpeningPc(held, map[], owner, node, request.spec, ToOption(frame), world.minted)
            && ResponseTo(reservations, ended, owner, node, request, frames, world) ==
               if pc.Opened? then ResponseAfter(world) else Failed(OpeningFailure(held, owner, node, request, frame))
  {
    hide Lapse, Purge, FrameArgument, ResponseAfter;
  }

  lemma LeavesAsFound(before: map<Node, Reservation>, ended: map<Id, Terminal>, owner: Owner, node: Node,
                      request: InteractRequest, world: World)
    requires !world.authorized
    ensures LeavesNode(before, ended, before, ended, owner, node, request, Leaving, world, "")
  {
  }

  lemma LeavesLapsed(before: map<Node, Reservation>, ended: map<Id, Terminal>, owner: Owner, node: Node,
                     request: InteractRequest, pc: Pc, world: World)
    requires world.authorized && !pc.Opened?
    ensures LeavesNode(before, ended, Lapse(before, node, world.openAt), Purge(ended, world.openAt), owner, node,
                       request, pc, world, "")
  {
  }

  lemma LeavesSettled(before: map<Node, Reservation>, ended: map<Id, Terminal>, after: map<Node, Reservation>,
                      ended': map<Id, Terminal>,
                      owner: Owner, node: Node, request: InteractRequest, pc: Pc, world: World)
    requires world.authorized && pc.Opened?
    requires var mine := Mine(pc, request, world);
             && after == ReservationsAfter(Lapse(before, node, world.openAt)[node := mine], node, mine, world)
             && exists victim :: ended' == EndedAfter(Purge(ended, world.openAt), owner, node, mine, world, victim)
    ensures exists victim :: LeavesNode(before, ended, after, ended', owner, node, request, pc, world, victim)
  {
    var victim :| ended' == EndedAfter(Purge(ended, world.openAt), owner, node, Mine(pc, request, world), world,
                                       victim);
    assert LeavesNode(before, ended, after, ended', owner, node, request, pc, world, victim);
  }

  function Entry(reservations: map<Node, Reservation>, node: Node): Option<Reservation> {
    if node in reservations then Some(reservations[node]) else None
  }

  function ToOption(res: Result<nat, Failure>): Option<nat> {
    if res.Ok? then Some(res.value) else None
  }

  /** The frame lookup of begin and continue: the session, or why it will not do. */
  function FrameArgument(frames: FrameCache.Frames, owner: Owner, node: Node, request: InteractRequest, now: int)
    : Result<nat, Failure>
  {
    var id := request.frameId;
    if id !in frames || frames[id].owner != owner || frames[id].node != node ||
       now - frames[id].created > FrameCache.FRAME_TTL
    then Err(FrameUnavailable)
    else
      var seen := frames[id].observation;
      if request.spec.operation == Begin then
        if !seen.actionable || seen.interactionId.Some? then Err(NotOrdinary)
        else if seen.session == 0 then Err(NoSession)
        else Ok(seen.session)
      else if seen.interactionId != Some(request.spec.id) || !seen.actionable then Err(NotCheckpoint)
      else Ok(seen.session)
  }

  /** What one dispatch amounts to, before its intermediate frames are looked at. */
  function DispatchOutcome(world: World): Outcome {
    if world.goneBefore then CallerGone
    else if world.answer.None? then Lost
    else if world.answer.value.reply.ok && world.answer.value.snapshot.Some? &&
            !world.answer.value.snapshot.value.wellFormed
    then Unusable
    else Answered(world.answer.value.reply, false)
  }

  /** What the world's answer amounts to for the transition system. */
  function OutcomeOf(world: World): Outcome {
    var outcome := DispatchOutcome(world);
    if outcome.Answered? then
      var bad := !UsableCheckpoints(world.answer.value.checkpoints.GetOr([]));
      Answered(outcome.reply, bad || (world.goneAfter && outcome.reply.thinking))
    else outcome
  }

  function ReservationsAfter(reservations: map<Node, Reservation>, node: Node, current: Reservation, world: World)
    : map<Node, Reservation>
  {
    match OutcomeOf(world)
    case Answered(reply, true) => if world.cancelReleased then reservations - {node} else reservations
    case Answered(reply, false) => SettledReservations(reservations, node, current, reply, world.settleAt)
    case _ => reservations
  }

  function EndedAfter(ended: map<Id, Terminal>, owner: Owner, node: Node, current: Reservation, world: World,
                      victim: Id)
    : map<Id, Terminal>
  {
    match OutcomeOf(world)
    case Answered(reply, false) => SettledEnded(ended, current.id, owner, node, reply, world.settleAt, victim)
    case _ => ended
  }

  function CallsAfter(current: Reservation, operation: Operation, world: World): seq<NodeCall> {
    var call := NodeCall(current.id, operation, current.session);
    match OutcomeOf(world)
    case CallerGone => []
    case Answered(_, true) => [call, NodeCall(current.id, Cancel, current.session)]
    case _ => [call]
  }

  function ResponseAfter(world: World): Response {
    match OutcomeOf(world)
    case CallerGone => Failed(CallerLeft)
    case Answered(reply, true) =>
      Failed(if UsableCheckpoints(world.answer.value.checkpoints.GetOr([])) then CallerLeft else BadFrames)
    case Answered(reply, false) => Done(reply)
    case _ => Failed(NoReceipt)
  }

  function AsFrame(owner: Owner, node: Node, f: Snapshot, now: int): FrameCache.Frame {
    FrameCache.Frame(owner, node, now, f.observation, f.image)
  }

  function OwnFrame(owner: Owner, node: Node, world: World): seq<FrameCache.Frame> {
    if DispatchOutcome(world).Answered? && world.answer.value.reply.ok && world.answer.value.snapshot.Some?
    then [AsFrame(owner, node, world.answer.value.snapshot.value, world.rememberAt(0))] else []
  }

  /** The frames from position at on, up to the first unusable one. */
  function UsableFrames(owner: Owner, node: Node, checkpoints: seq<Option<Snapshot>>, clock: nat -> int, at: nat)
    : seq<FrameCache.Frame>
    requires at <= |checkpoints|
    decreases |checkpoints| - at
  {
    if at == |checkpoints| || !Usable(checkpoints[at]) then []
    else
      [AsFrame(owner, node, checkpoints[at].value, clock(at + 1))] +
      UsableFrames(owner, node, checkpoints, clock, at + 1)
  }

  /** The intermediate frames before the first unusable one; none if there are too many. */
  function UsablePrefix(owner: Owner, node: Node, checkpoints: seq<Option<Snapshot>>, clock: nat -> int)
    : seq<FrameCache.Frame>
  {
    if |checkpoints| > 5 then [] else UsableFrames(owner, node, checkpoints, clock, 0)
  }

  /** Every frame one answer adds to the cache, in order. */
  function FramesAfter(owner: Owner, node: Node, world: World): seq<FrameCache.Frame> {
    if DispatchOutcome(world).Answered? then
      OwnFrame(owner, node, world) +
        UsablePrefix(owner, node, world.answer.value.checkpoints.GetOr([]), world.rememberAt)
    else []
  }

  predicate Usable(checkpoint: Option<Snapshot>) {
    checkpoint.Some? && checkpoint.value.wellFormed
  }

  /** At most five intermediate frames, each an object with a valid image. */
  predicate UsableCheckpoints(checkpoints: seq<Option<Snapshot>>) {
    |checkpoints| <= 5 && forall k :: 0 <= k < |checkpoints| ==> Usable(checkpoints[k])
  }

  ghost function Unpurged(ended: map<Id, Terminal>, now: int, pending: set<Id>): map<Id, Terminal> {
    map id | id in ended && (id in pending || now - ended[id].at <= TERMINAL_TTL) :: ended[id]
  }

  lemma PurgeStep(ended: map<Id, Terminal>, now: int, pending: set<Id>, id: Id)
    requires id in pending && pending <= ended.Keys
    ensures Unpurged(ended, now, pending - {id}) ==
            if now - ended[id].at > TERMINAL_TTL then Unpurged(ended, now, pending) - {id}
               else Unpurged(ended, now, pending)
  {
  }
}
