/** A task: a few steps on one desktop, each on the frame the step before it left. */
module DesktopTask {
  import opened Prelude
  import opened DesktopService
  import opened InteractionModel
  import FrameCache

  datatype Point = Point(x: Option<int>, y: Option<int>)

  /** target asks a model to find the point; expects names the window that must be in front. */
  datatype TaskStep = TaskStep(waits: bool, target: bool, at: Point, to: Point, expects: bool)

  datatype StepReply = StepReply(ok: bool, conditionMet: bool, snapshot: Option<Snapshot>)

  /** What one step does not decide: the clock, the caller, the grounding and the node. */
  datatype Turn = Turn(
    lookAt: int,
    gone: bool,
    grounded: Option<(int, int)>,
    authorized: bool,
    actAt: int,
    goneLate: bool,
    answer: Option<StepReply>,
    rememberAt: int)

  datatype TaskCall = WaitCall(session: nat) | ActCall(frameId: FrameCache.FrameId, session: nat, at: Point, to: Point)

  // ---------------------------------------------------------------- reference

  predicate Inside(p: Point, width: int, height: int) {
    p.x.Some? ==> 0 <= p.x.value < width && p.y.Some? && 0 <= p.y.value < height
  }

  function Aimed(step: TaskStep, turn: Turn): Point {
    if step.target && turn.grounded.Some? then Point(Some(turn.grounded.value.0), Some(turn.grounded.value.1))
    else step.at
  }

  /** The frame lets the step go ahead: the caller's own, unexpired, and what the step needs of it. */
  predicate Allows(f: FrameCache.Frame, owner: Owner, node: Node, step: TaskStep, turn: Turn) {
    && f.owner == owner && f.node == node && turn.lookAt - f.created <= FrameCache.FRAME_TTL
    && !turn.gone && (step.target ==> turn.grounded.Some?)
    && if step.waits then f.observation.canWait
       else
         && turn.authorized && !f.observation.unsettled && turn.actAt - f.created <= FrameCache.FRAME_TTL
         && Inside(Aimed(step, turn), f.observation.width, f.observation.height)
         && Inside(step.to, f.observation.width, f.observation.height)
         && (step.expects ==> f.observation.canExpect)
  }

  /** The call a step makes when the frame it goes by is cached and allows it; None otherwise. */
  function Permitted(frames: FrameCache.Frames, owner: Owner, node: Node, frameId: FrameCache.FrameId, step: TaskStep,
                     turn: Turn)
    : Option<TaskCall>
  {
    if frameId !in frames || !Allows(frames[frameId], owner, node, step, turn) then None
    else if step.waits then Some(WaitCall(frames[frameId].observation.session))
    else Some(ActCall(frameId, frames[frameId].observation.session, Aimed(step, turn), step.to))
  }

  /** The node took the step: an answer, with a usable picture if any, and the condition met. */
  predicate Took(step: TaskStep, turn: Turn) {
    && !turn.goneLate && turn.answer.Some? && turn.answer.value.ok
    && (turn.answer.value.snapshot.Some? ==> turn.answer.value.snapshot.value.wellFormed)
    && (step.waits ==> turn.answer.value.conditionMet)
  }

  /** The frame step k goes by: what the latest answer with a picture showed. */
  function FrameBefore(first: FrameCache.FrameId, turns: seq<Turn>, k: nat): FrameCache.FrameId
    requires k <= |turns|
  {
    if k == 0 then first
    else
      var a := turns[k - 1].answer;
      if a.Some? && a.value.snapshot.Some? then a.value.snapshot.value.observation.frameId
      else FrameBefore(first, turns, k - 1)
  }

  /** What the node's answer to a step adds to the cached frames. */
  ghost predicate Caches(frames: FrameCache.Frames, frames': FrameCache.Frames, owner: Owner, node: Node, turn: Turn) {
    if turn.answer.Some? && turn.answer.value.ok && turn.answer.value.snapshot.Some? &&
       turn.answer.value.snapshot.value.wellFormed
    then FrameCache.Remembers(frames, AsFrame(owner, node, turn.answer.value.snapshot.value, turn.rememberAt), frames')
    else frames' == frames
  }

  /**
   * One step: it is sent exactly if its frame permits it and the caller is still there
   * to send it, and its receipt is good exactly if the node then took it.
   */
  ghost predicate Taken(frames: FrameCache.Frames, frames': FrameCache.Frames, owner: Owner, node: Node,
                        frameId: FrameCache.FrameId,
                        step: TaskStep, turn: Turn, call: Option<TaskCall>, receipt: bool)
  {
    var permitted := Permitted(frames, owner, node, frameId, step, turn);
    && call == (if turn.goneLate then None else permitted)
    && (receipt <==> permitted.Some? && Took(step, turn))
    && (if call.Some? then Caches(frames, frames', owner, node, turn) else frames' == frames)
  }

  function CallAt(calls: seq<TaskCall>, k: nat): Option<TaskCall> {
    if k < |calls| then Some(calls[k]) else None
  }

  /**
   * The steps up to some point, one after the other: caches are the cached frames
   * before each of them and at the end, and each goes by the frame the last left.
   */
  ghost predicate Ran(caches: seq<FrameCache.Frames>, owner: Owner, node: Node, first: FrameCache.FrameId,
                      steps: seq<TaskStep>, turns: seq<Turn>, calls: seq<TaskCall>, receipts: seq<bool>)
  {
    && |calls| <= |receipts| <= |steps| == |turns| && |caches| == |receipts| + 1
    && forall k :: 0 <= k < |receipts| ==>
         Taken(caches[k], caches[k + 1], owner, node, FrameBefore(first, turns, k), steps[k], turns[k],
               CallAt(calls, k), receipts[k])
  }

  // --------------------------------------------------------------------- steps

  /** dispatch, for a step. */
  method Send(cache: FrameCache.Cache, owner: Owner, node: Node, turn: Turn) returns (answer: Option<StepReply>)
    requires cache.Valid()
    modifies cache
    ensures cache.Valid() && old(cache.log) <= cache.log && Caches(old(cache.frames), cache.frames, owner, node, turn)
    ensures answer == if turn.answer.Some? && turn.answer.value.ok && turn.answer.value.snapshot.Some? &&
            !turn.answer.value.snapshot.value.wellFormed
                      then None else turn.answer
  {
    hide FrameCache.Remembers, FrameCache.LastInserted;
    if turn.answer.None? {
      return None;
    }
    var a := turn.answer.value;
    if a.ok && a.snapshot.Some? {
      var f := a.snapshot.value;
      var problem := cache.Remember(owner, node, f.observation, f.image, f.wellFormed, turn.rememberAt);
      if problem.Some? {
        return None;
      }
    }
    return turn.answer;
  }

  /** The call a step may make, by the frame it goes by. */
  method Plan(cache: FrameCache.Cache, owner: Owner, node: Node, frameId: FrameCache.FrameId, step: TaskStep,
              turn: Turn)
    returns (call: Option<TaskCall>)
    requires cache.Valid()
    ensures call == Permitted(cache.frames, owner, node, frameId, step, turn)
  {
    var seen := cache.Lookup(owner, node, frameId, turn.lookAt);
    if seen.Err? || turn.gone {
      return None;
    }
    if step.target && turn.grounded.None? {
      return None;
    }
    var aim := Aimed(step, turn);
    if step.waits {
      return if seen.value.observation.canWait then Some(WaitCall(seen.value.observation.session)) else None;
    }
    if !turn.authorized {
      return None;
    }
    var again := cache.Lookup(owner, node, frameId, turn.actAt);
    if again.Err? || again.value.observation.unsettled {
      return None;
    }
    var o := again.value.observation;
    if !Inside(aim, o.width, o.height) || !Inside(step.to, o.width, o.height) {
      return None;
    }
    if step.expects && !o.canExpect {
      return None;
    }
    return Some(ActCall(frameId, o.session, aim, step.to));
  }

  /** Plans a step, sends it, and says what came of it and which frame comes next. */
  method Take(cache: FrameCache.Cache, owner: Owner, node: Node, frameId: FrameCache.FrameId, step: TaskStep,
              turn: Turn)
    returns (call: Option<TaskCall>, receipt: bool, next: FrameCache.FrameId)
    requires cache.Valid()
    modifies cache
    ensures cache.Valid() && old(cache.log) <= cache.log
    ensures Taken(old(cache.frames), cache.frames, owner, node, frameId, step, turn, call, receipt)
    ensures receipt ==> call.Some? && next == if turn.answer.value.snapshot.Some? then
              turn.answer.value.snapshot.value.observation.frameId else frameId
  {
    hide Permitted, Caches, FrameCache.LastInserted;
    next := frameId;
    call := Plan(cache, owner, node, frameId, step, turn);
    if call.None? || turn.goneLate {
      return None, false, next;
    }
    var answer := Send(cache, owner, node, turn);
    if answer.None? {
      return call, false, next;
    }
    if answer.value.snapshot.Some? {
      next := answer.value.snapshot.value.observation.frameId;
    }
    receipt := answer.value.ok && (!step.waits || answer.value.conditionMet);
  }

  // ---------------------------------------------------------------------- task

  lemma RanOneMore(caches: seq<FrameCache.Frames>, owner: Owner, node: Node, first: FrameCache.FrameId,
                   steps: seq<TaskStep>, turns: seq<Turn>, calls: seq<TaskCall>, receipts: seq<bool>,
                   frames: FrameCache.Frames, call: Option<TaskCall>, receipt: bool)
    requires Ran(caches, owner, node, first, steps, turns, calls, receipts)
    requires |calls| == |receipts| < |steps|
    requires var k := |receipts|;
             Taken(caches[k], frames, owner, node, FrameBefore(first, turns, k), steps[k], turns[k], call, receipt)
    ensures Ran(caches + [frames], owner, node, first, steps, turns, calls + (if call.Some? then [call.value] else []),
                receipts + [receipt])
  {
    hide Taken, FrameBefore;
    var more, calls' := caches + [frames], calls + (if call.Some? then [call.value] else []);
    forall k | 0 <= k <= |receipts|
      ensures Taken(more[k], more[k + 1], owner, node, FrameBefore(first, turns, k), steps[k], turns[k],
                    CallAt(calls', k), (receipts + [receipt])[k])
    {
      assert more[k] == caches[k];
      if k < |receipts| {
        assert more[k + 1] == caches[k + 1] && CallAt(calls', k) == CallAt(calls, k);
      } else {
        assert CallAt(calls', k) == call;
      }
    }
  }

  /**
   * The steps in order until one is not taken: each is sent exactly if the frame the
   * one before it left permits it, nothing is sent after a step that was not taken,
   * and the task counts as dispatched exactly when every step was.
   */
  method RunTask(cache: FrameCache.Cache, owner: Owner, node: Node, steps: seq<TaskStep>, first: FrameCache.FrameId,
                 turns: seq<Turn>)
    returns (receipts: seq<bool>, calls: seq<TaskCall>, dispatched: bool, ghost caches: seq<FrameCache.Frames>)
    requires cache.Valid() && |turns| == |steps|
    modifies cache
    ensures cache.Valid() && old(cache.log) <= cache.log
    ensures Ran(caches, owner, node, first, steps, turns, calls, receipts)
    ensures caches[0] == old(cache.frames) && caches[|receipts|] == cache.frames
    ensures forall k :: 0 <= k < |receipts| - 1 ==> receipts[k]
    ensures dispatched <==> |receipts| == |steps| && forall k :: 0 <= k < |receipts| ==> receipts[k]
    ensures !dispatched ==> receipts != [] && !receipts[|receipts| - 1]
  {
    hide Taken, FrameCache.LastInserted, Ran;
    receipts, calls, caches := [], [], [cache.frames];
    NothingRan(caches, owner, node, first, steps, turns);
    var frameId := first;
    for i := 0 to |steps|
      invariant cache.Valid() && old(cache.log) <= cache.log && |calls| == |receipts| == i && |caches| == i + 1 &&
                frameId == FrameBefore(first, turns, i)
      invariant caches[0] == old(cache.frames) && caches[i] == cache.frames
      invariant Ran(caches, owner, node, first, steps, turns, calls, receipts)
      invariant forall k :: 0 <= k < i ==> receipts[k]
    {
      var call, receipt, next := Take(cache, owner, node, frameId, steps[i], turns[i]);
      RanOneMore(caches, owner, node, first, steps, turns, calls, receipts, cache.frames, call, receipt);
      caches := caches + [cache.frames];
      calls := calls + if call.Some? then [call.value] else [];
      receipts := receipts + [receipt];
      if !receipt {
        assert !receipts[i];
        return receipts, calls, false, caches;
      }
      TookAnswers(caches[i], caches[i + 1], owner, node, frameId, steps[i], turns[i], call);
      frameId := next;
    }
    return receipts, calls, true, caches;
  }

  lemma NothingRan(caches: seq<FrameCache.Frames>, owner: Owner, node: Node, first: FrameCache.FrameId,
                   steps: seq<TaskStep>, turns: seq<Turn>)
    requires |turns| == |steps| && |caches| == 1
    ensures Ran(caches, owner, node, first, steps, turns, [], [])
  {
  }

  lemma TookAnswers(frames: FrameCache.Frames, frames': FrameCache.Frames, owner: Owner, node: Node,
                    frameId: FrameCache.FrameId,
                    step: TaskStep, turn: Turn, call: Option<TaskCall>)
    requires Taken(frames, frames', owner, node, frameId, step, turn, call, true)
    ensures turn.answer.Some?
  {
  }

  /** The last step before k whose answer showed a picture. */
  function LastPicture(turns: seq<Turn>, k: nat): Option<nat>
    requires k <= |turns|
  {
    if k == 0 then None
    else if turns[k - 1].answer.Some? && turns[k - 1].answer.value.snapshot.Some? then Some(k - 1)
    else LastPicture(turns, k - 1)
  }

  /** The frame step k goes by is the very picture the task was last shown, just as it was cached then. */
  ghost predicate GoesByLastPicture(caches: seq<FrameCache.Frames>, owner: Owner, node: Node, first: FrameCache.FrameId,
                                    turns: seq<Turn>, k: nat)
    requires k <= |turns| && k < |caches|
  {
    var id, shown := FrameBefore(first, turns, k), LastPicture(turns, k);
    if shown.None? then id == first && caches[k] == caches[0]
    else
      && shown.value < k && turns[shown.value].answer.Some? && turns[shown.value].answer.value.snapshot.Some?
      && id in caches[k]
      && caches[k][id] == AsFrame(owner, node, turns[shown.value].answer.value.snapshot.value,
                                  turns[shown.value].rememberAt)
  }

  lemma TakenGoesOn(caches: seq<FrameCache.Frames>, owner: Owner, node: Node, first: FrameCache.FrameId,
                    step: TaskStep, turns: seq<Turn>, k: nat, call: Option<TaskCall>)
    requires k < |turns| && k + 1 < |caches| && GoesByLastPicture(caches, owner, node, first, turns, k)
    requires Taken(caches[k], caches[k + 1], owner, node, FrameBefore(first, turns, k), step, turns[k], call, true)
    ensures GoesByLastPicture(caches, owner, node, first, turns, k + 1)
  {
    hide Permitted, FrameCache.Recent, FrameCache.Earliest;
  }

  /**
   * A task acts on what it was last shown: while its steps are taken, each goes by the
   * picture of the latest answer that had one, cached under its own id for this caller
   * and node, or by the first frame if no step has shown any.
   */
  lemma {:induction false} TaskActsOnWhatItSaw(caches: seq<FrameCache.Frames>, owner: Owner, node: Node,
                                               first: FrameCache.FrameId,
                                               steps: seq<TaskStep>, turns: seq<Turn>, calls: seq<TaskCall>,
                                               receipts: seq<bool>, k: nat)
    requires Ran(caches, owner, node, first, steps, turns, calls, receipts) && k <= |receipts|
    requires forall i :: 0 <= i < k ==> receipts[i]
    ensures GoesByLastPicture(caches, owner, node, first, turns, k)
    ensures k < |calls| ==>
              var id := FrameBefore(first, turns, k);
              && id in caches[k] && Allows(caches[k][id], owner, node, steps[k], turns[k])
              && Permitted(caches[k], owner, node, id, steps[k], turns[k]) == Some(calls[k])
    ensures k < |calls| ==>
              var id, step := FrameBefore(first, turns, k), steps[k];
              && id in caches[k]
              && var f := caches[k][id];
                 && f.owner == owner && f.node == node && turns[k].lookAt - f.created <= 180_000 && !turns[k].gone
                 && if step.waits then f.observation.canWait && calls[k] == WaitCall(f.observation.session)
                    else
                      && calls[k].ActCall? && calls[k].frameId == id && calls[k].session == f.observation.session
                      && turns[k].authorized && !f.observation.unsettled && turns[k].actAt - f.created <= 180_000
                      && (if step.target then
                            turns[k].grounded.Some? && calls[k].at.x == Some(turns[k].grounded.value.0) &&
                            calls[k].at.y == Some(turns[k].grounded.value.1)
                          else calls[k].at == step.at)
                      && calls[k].to == step.to
                      && (calls[k].at.x.Some? ==>
                            0 <= calls[k].at.x.value < f.observation.width && calls[k].at.y.Some? &&
                            0 <= calls[k].at.y.value < f.observation.height)
                      && (step.to.x.Some? ==>
                            0 <= step.to.x.value < f.observation.width && step.to.y.Some? &&
                            0 <= step.to.y.value < f.observation.height)
                      && (step.expects ==> f.observation.canExpect)
  {
    hide Taken, GoesByLastPicture, Permitted, Allows;
    if k == 0 {
      FirstGoesByFirst(caches, owner, node, first, turns);
    } else {
      TaskActsOnWhatItSaw(caches, owner, node, first, steps, turns, calls, receipts, k - 1);
      TakenGoesOn(caches, owner, node, first, steps[k - 1], turns, k - 1, CallAt(calls, k - 1));
    }
    if k < |calls| {
      SentIsPermitted(caches[k], caches[k + 1], owner, node, FrameBefore(first, turns, k), steps[k], turns[k], calls[k],
                      receipts[k]);
      PermittedSays(caches[k], owner, node, FrameBefore(first, turns, k), steps[k], turns[k], calls[k]);
    }
  }

  lemma FirstGoesByFirst(caches: seq<FrameCache.Frames>, owner: Owner, node: Node, first: FrameCache.FrameId,
                         turns: seq<Turn>)
    requires caches != []
    ensures GoesByLastPicture(caches, owner, node, first, turns, 0)
  {
  }

  lemma PermittedSays(frames: FrameCache.Frames, owner: Owner, node: Node, id: FrameCache.FrameId, step: TaskStep,
                      turn: Turn,
                      call: TaskCall)
    requires Permitted(frames, owner, node, id, step, turn) == Some(call)
    ensures && id in frames
            && var f := frames[id];
               && f.owner == owner && f.node == node && turn.lookAt - f.created <= 180_000 && !turn.gone
               && if step.waits then f.observation.canWait && call == WaitCall(f.observation.session)
                  else
                    && call == ActCall(id, f.observation.session, call.at, step.to)
                    && turn.authorized && !f.observation.unsettled && turn.actAt - f.created <= 180_000
                    && (step.target ==> turn.grounded.Some?)
                    && call.at == (if step.target then Point(Some(turn.grounded.value.0), Some(turn.grounded.value.1))
                                   else step.at)
                    && Inside(call.at, f.observation.width, f.observation.height)
                    && Inside(step.to, f.observation.width, f.observation.height)
                    && (step.expects ==> f.observation.canExpect)
  {
  }

  /** The other way round: what allows a step has it sent, and what takes it makes the receipt good. */
  lemma PermittedWhenAllowed(frames: FrameCache.Frames, owner: Owner, node: Node, id: FrameCache.FrameId,
                             step: TaskStep, turn: Turn)
    requires id in frames && frames[id].owner == owner && frames[id].node == node
    requires turn.lookAt - frames[id].created <= 180_000 && !turn.gone && (step.target ==> turn.grounded.Some?)
    requires step.waits ==> frames[id].observation.canWait
    requires !step.waits ==>
               var o, at := frames[id].observation, if step.target then
                 Point(Some(turn.grounded.value.0), Some(turn.grounded.value.1)) else step.at;
               && turn.authorized && !o.unsettled && turn.actAt - frames[id].created <= 180_000
               && (at.x.Some? ==> 0 <= at.x.value < o.width && at.y.Some? && 0 <= at.y.value < o.height)
               && (step.to.x.Some? ==>
                     0 <= step.to.x.value < o.width && step.to.y.Some? && 0 <= step.to.y.value < o.height)
               && (step.expects ==> o.canExpect)
    ensures Permitted(frames, owner, node, id, step, turn).Some?
    ensures Took(step, turn) <==>
              && !turn.goneLate && turn.answer.Some? && turn.answer.value.ok
              && (step.waits ==> turn.answer.value.conditionMet)
              && (turn.answer.value.snapshot.Some? ==> turn.answer.value.snapshot.value.wellFormed)
  {
  }

  lemma SentIsPermitted(frames: FrameCache.Frames, frames': FrameCache.Frames, owner: Owner, node: Node,
                        frameId: FrameCache.FrameId,
                        step: TaskStep, turn: Turn, call: TaskCall, receipt: bool)
    requires Taken(frames, frames', owner, node, frameId, step, turn, Some(call), receipt)
    ensures Permitted(frames, owner, node, frameId, step, turn) == Some(call)
    ensures frameId in frames && Allows(frames[frameId], owner, node, step, turn)
  {
  }
}
