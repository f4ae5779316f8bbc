/** The bounded cache of observed desktop frames that later requests refer to by id. */
module FrameCache {
  import opened Prelude

  const FRAME_TTL := 180_000
  const FRAME_MAX := 64

  type FrameId = string

  /**
   * The parts of an observation that later requests read. actionable means reported
   * true, unsettled reported false; a node may report neither.
   */
  datatype Observation = Observation(
    frameId: FrameId,
    actionable: bool,
    unsettled: bool,
    interactionId: Option<string>,
    session: nat,
    width: int,
    height: int,
    canWait: bool,
    canExpect: bool)

  datatype Frame = Frame(owner: Owner, node: string, created: int, observation: Observation, image: string)

  type Frames = map<FrameId, Frame>

  // ---------------------------------------------------------------- reference

  ghost function Recent(frames: Frames, now: int): Frames {
    map id | id in frames && now - frames[id].created <= FRAME_TTL :: frames[id]
  }

  /** victim was created no later than any other frame. */
  ghost predicate Earliest(frames: Frames, victim: FrameId) {
    victim in frames && forall id :: id in frames ==> frames[victim].created <= frames[id].created
  }

  /** Storing f at the time it was created: expired frames go, then one oldest if the cache is full. */
  ghost predicate Remembers(frames: Frames, f: Frame, frames': Frames) {
    var kept := Recent(frames, f.created);
    if |kept| < FRAME_MAX then frames' == kept[f.observation.frameId := f]
    else exists victim :: Earliest(kept, victim) && frames' == (kept - {victim})[f.observation.frameId := f]
  }

  /**
   * What storing a frame does, in plain terms: it is there under its id, nothing older
   * than 180 seconds is, and of the others at most one goes, an oldest one, and only
   * if there are 64 of them.
   */
  lemma RememberingSpelledOut(frames: Frames, f: Frame, frames': Frames)
    requires Remembers(frames, f, frames')
    ensures var unexpired := map k | k in frames && f.created - frames[k].created <= 180_000 :: frames[k];
            var id := f.observation.frameId;
            && id in frames' && frames'[id] == f
            && (forall k :: k in frames' && k != id ==> k in unexpired && frames'[k] == unexpired[k])
            && (|unexpired| < 64 ==> forall k :: k in unexpired ==> k in frames')
            && (forall j, k :: j in unexpired && j !in frames' && k in unexpired ==>
                  unexpired[j].created <= unexpired[k].created)
            && (forall j, k :: j in unexpired && j !in frames' && k in unexpired && k !in frames' ==> j == k)
  {
    assert Recent(frames, f.created) == map k | k in frames && f.created - frames[k].created <= 180_000 :: frames[k];
  }

  /** Fresh ids and a strictly increasing clock. */
  ghost predicate Ordered(log: seq<Frame>) {
    forall i, j :: 0 <= i < j < |log| ==>
      log[i].created < log[j].created && log[i].observation.frameId != log[j].observation.frameId
  }

  /** The cache holds exactly the frames inserted from position from on. */
  ghost predicate IsSuffix(frames: Frames, log: seq<Frame>, from: nat) {
    && from <= |log|
    && (forall i :: from <= i < |log| ==>
        log[i].observation.frameId in frames && frames[log[i].observation.frameId] == log[i])
    && (forall id :: id in frames ==> exists i :: from <= i < |log| && log[i].observation.frameId == id)
  }

  ghost predicate IsRun(states: seq<Frames>, log: seq<Frame>) {
    && |states| == |log| + 1 && states[0] == map[]
    && forall i :: 0 <= i < |log| ==> Remembers(states[i], log[i], states[i + 1])
  }

  // -------------------------------------------------------------------- steps

  lemma {:induction false} FirstRecent(log: seq<Frame>, from: nat, now: int) returns (cut: nat)
    requires from <= |log| && Ordered(log)
    ensures from <= cut <= |log|
    ensures forall i :: from <= i < cut ==> now - log[i].created > FRAME_TTL
    ensures forall i :: cut <= i < |log| ==> now - log[i].created <= FRAME_TTL
    decreases |log| - from
  {
    if from == |log| || now - log[from].created <= FRAME_TTL {
      cut := from;
    } else {
      cut := FirstRecent(log, from + 1, now);
    }
  }

  lemma RecentIsSuffix(frames: Frames, log: seq<Frame>, from: nat, cut: nat, now: int)
    requires Ordered(log) && IsSuffix(frames, log, from) && from <= cut <= |log|
    requires forall i :: from <= i < cut ==> now - log[i].created > FRAME_TTL
    requires forall i :: cut <= i < |log| ==> now - log[i].created <= FRAME_TTL
    ensures IsSuffix(Recent(frames, now), log, cut)
  {
    forall id | id in Recent(frames, now) ensures exists i :: cut <= i < |log| && log[i].observation.frameId == id {
      var i :| from <= i < |log| && log[i].observation.frameId == id;
      assert frames[id] == log[i];
    }
  }

  /** Without its earliest frame a suffix is the next shorter suffix. */
  lemma SuffixWithoutEarliest(frames: Frames, log: seq<Frame>, from: nat, victim: FrameId)
    requires Ordered(log) && IsSuffix(frames, log, from) && Earliest(frames, victim)
    ensures from < |log| && log[from].observation.frameId == victim
    ensures IsSuffix(frames - {victim}, log, from + 1)
  {
    var v :| from <= v < |log| && log[v].observation.frameId == victim;
    assert frames[log[from].observation.frameId] == log[from];
    forall id | id in frames - {victim} ensures exists i :: from + 1 <= i < |log| && log[i].observation.frameId == id {
      var i :| from <= i < |log| && log[i].observation.frameId == id;
      assert i != from;
    }
  }

  lemma SuffixWithNext(frames: Frames, log: seq<Frame>, from: nat, f: Frame)
    requires Ordered(log + [f]) && IsSuffix(frames, log, from)
    ensures IsSuffix(frames[f.observation.frameId := f], log + [f], from)
  {
    var more, frames' := log + [f], frames[f.observation.frameId := f];
    forall i | from <= i < |more|
      ensures more[i].observation.frameId in frames' && frames'[more[i].observation.frameId] == more[i]
    {
      if i < |log| {
        assert more[i] == log[i] && more[|log|] == f;
      }
    }
    forall id | id in frames' ensures exists i :: from <= i < |more| && more[i].observation.frameId == id {
      if id == f.observation.frameId {
        assert more[|log|].observation.frameId == id;
      } else {
        var i :| from <= i < |log| && log[i].observation.frameId == id;
        assert more[i].observation.frameId == id;
      }
    }
  }

  lemma FirstOfSuffixIsEarliest(frames: Frames, log: seq<Frame>, from: nat)
    requires Ordered(log) && IsSuffix(frames, log, from) && from < |log|
    ensures Earliest(frames, log[from].observation.frameId)
  {
    forall k | k in frames ensures log[from].created <= frames[k].created {
      var i :| from <= i < |log| && log[i].observation.frameId == k;
      assert frames[k] == log[i];
    }
  }

  lemma {:induction false} SuffixSize(frames: Frames, log: seq<Frame>, from: nat)
    requires Ordered(log) && IsSuffix(frames, log, from)
    ensures |frames| == |log| - from
    decreases |log| - from
  {
    if from == |log| {
      assert frames == map[];
    } else {
      var id := log[from].observation.frameId;
      FirstOfSuffixIsEarliest(frames, log, from);
      SuffixWithoutEarliest(frames, log, from, id);
      SuffixSize(frames - {id}, log, from + 1);
      SizeWithout(frames, id);
    }
  }

  lemma OrderedPrefix(log: seq<Frame>, more: seq<Frame>)
    requires Ordered(log + more)
    ensures Ordered(log)
  {
    forall i, j | 0 <= i < j < |log|
      ensures log[i].created < log[j].created && log[i].observation.frameId != log[j].observation.frameId
    {
      assert (log + more)[i] == log[i] && (log + more)[j] == log[j];
    }
  }

  lemma RememberKeepsSuffix(frames: Frames, frames': Frames, log: seq<Frame>, from: nat, f: Frame) returns (from': nat)
    requires Ordered(log + [f]) && Remembers(frames, f, frames')
    requires from <= |log| <= from + FRAME_MAX && IsSuffix(frames, log, from)
    ensures from' <= |log| < from' + FRAME_MAX && IsSuffix(frames', log + [f], from')
  {
    hide IsSuffix, Recent, Earliest;
    OrderedPrefix(log, [f]);
    var cut := FirstRecent(log, from, f.created);
    RecentIsSuffix(frames, log, from, cut, f.created);
    var kept := Recent(frames, f.created);
    SuffixSize(kept, log, cut);
    if |kept| < FRAME_MAX {
      SuffixWithNext(kept, log, cut, f);
      from' := cut;
    } else {
      var victim :| Earliest(kept, victim) && frames' == (kept - {victim})[f.observation.frameId := f];
      SuffixWithoutEarliest(kept, log, cut, victim);
      SuffixWithNext(kept - {victim}, log, cut + 1, f);
      from' := cut + 1;
    }
  }

  lemma EmptyIsSuffix()
    ensures IsSuffix(map[], [], 0)
  {
  }

  lemma NewestIsCached(frames: Frames, log: seq<Frame>, from: nat)
    requires IsSuffix(frames, log, from) && from < |log|
    ensures var f := log[|log| - 1]; f.observation.frameId in frames && frames[f.observation.frameId] == f
  {
  }

  /**
   * With fresh ids and a strictly increasing clock, after any sequence of remembers
   * the cache is a suffix of what was inserted, at most 64 long, newest included.
   */
  lemma {:induction false} CacheIsSuffixOfHistory(states: seq<Frames>, log: seq<Frame>, n: nat) returns (from: nat)
    requires IsRun(states, log) && n <= |log| && Ordered(log)
    ensures from <= n <= from + FRAME_MAX && IsSuffix(states[n], log[..n], from)
    ensures |states[n]| == n - from
    ensures n > 0 ==>
              from < n && log[n - 1].observation.frameId in states[n] &&
              states[n][log[n - 1].observation.frameId] == log[n - 1]
    decreases n
  {
    hide Ordered, IsSuffix, Remembers;
    assert log == log[..n] + log[n..];
    OrderedPrefix(log[..n], log[n..]);
    if n == 0 {
      from := 0;
      EmptyIsSuffix();
    } else {
      from := CacheIsSuffixOfHistory(states, log, n - 1);
      assert log[..n] == log[..n - 1] + [log[n - 1]];
      from := RememberKeepsSuffix(states[n - 1], states[n], log[..n - 1], from, log[n - 1]);
      NewestIsCached(states[n], log[..n], from);
      assert log[..n][n - 1] == log[n - 1];
    }
    SuffixSize(states[n], log[..n], from);
  }

  // -------------------------------------------------------------------- cache

  datatype FrameError = Malformed | Unavailable

  /** What remember and frame may rely on for any ids and clocks. */
  ghost predicate LastInserted(frames: Frames, log: seq<Frame>) {
    forall id :: id in frames ==>
      exists i :: 0 <= i < |log| && log[i] == frames[id] && log[i].observation.frameId == id &&
                  forall j :: i < j < |log| ==> log[j].observation.frameId != id
  }

  class Cache {
    var frames: Frames
    ghost var log: seq<Frame>

    ghost predicate Valid()
      reads this
    {
      |frames| <= FRAME_MAX && LastInserted(frames, log)
    }

    constructor ()
      ensures Valid() && frames == map[] && log == []
    {
      frames, log := map[], [];
    }

    method DropExpired(now: int)
      modifies this`frames
      ensures frames == Recent(old(frames), now)
    {
      var pending := frames.Keys;
      while pending != {}
        invariant pending <= frames.Keys
        invariant frames == map id | id in old(frames) &&
                  (id in pending || now - old(frames)[id].created <= FRAME_TTL) :: old(frames)[id]
        decreases pending
      {
        var id :| id in pending;
        pending := pending - {id};
        if now - frames[id].created > FRAME_TTL {
          frames := frames - {id};
        }
      }
    }

    method FindOldest() returns (oldest: FrameId)
      requires frames != map[]
      ensures Earliest(frames, oldest)
    {
      var pending := frames.Keys;
      oldest :| oldest in pending;
      pending := pending - {oldest};
      while pending != {}
        invariant pending <= frames.Keys && oldest in frames
        invariant forall id :: id in frames && id !in pending ==> frames[oldest].created <= frames[id].created
        decreases pending
      {
        var id :| id in pending;
        pending := pending - {id};
        if frames[id].created < frames[oldest].created {
          oldest := id;
        }
      }
    }

    /** wellFormed stands for the checks of the image, its size and hash, and the frame id. */
    method Remember(owner: Owner, node: string, observation: Observation, image: string, wellFormed: bool, now: int)
      returns (res: Option<FrameError>)
      requires Valid()
      modifies this
      ensures Valid()
      ensures res == if wellFormed then None else Some(Malformed)
      ensures !wellFormed ==> frames == old(frames) && log == old(log)
      ensures wellFormed ==>
                var f := Frame(owner, node, now, observation, image);
                log == old(log) + [f] && Remembers(old(frames), f, frames)
    {
      if !wellFormed {
        return Some(Malformed);
      }
      ghost var before, f := frames, Frame(owner, node, now, observation, image);
      DropExpired(now);
      ghost var kept := frames;
      if |frames| >= FRAME_MAX {
        var oldest := FindOldest();
        SizeWithout(frames, oldest);
        RecentIsNoLarger(before, now);
        frames := frames - {oldest};
      }
      InsertKeepsLast(before, frames, log, f);
      frames := frames[observation.frameId := Frame(owner, node, now, observation, image)];
      log := log + [f];
      return None;
    }

    /** Only the owner, on the node it came from, and only for 180 seconds. */
    method Lookup(owner: Owner, node: string, id: FrameId, now: int) returns (res: Result<Frame, FrameError>)
      requires Valid()
      ensures res.Ok? <==>
                id in frames && frames[id].owner == owner && frames[id].node == node &&
                now - frames[id].created <= 180_000
      ensures res.Ok? ==> res.value == frames[id] && res.value in log && res.value.observation.frameId == id
      ensures res.Err? ==> res.error == Unavailable
    {
      if id !in frames || frames[id].owner != owner || frames[id].node != node || now - frames[id].created > FRAME_TTL {
        return Err(Unavailable);
      }
      return Ok(frames[id]);
    }
  }

  lemma RecentIsNoLarger(frames: Frames, now: int)
    ensures |Recent(frames, now)| <= |frames|
  {
    SubmapIsNoLarger(Recent(frames, now), frames);
  }

  lemma InsertKeepsLast(before: Frames, kept: Frames, log: seq<Frame>, f: Frame)
    requires LastInserted(before, log)
    requires forall id :: id in kept ==> id in before && kept[id] == before[id]
    ensures LastInserted(kept[f.observation.frameId := f], log + [f])
  {
    var frames', more := kept[f.observation.frameId := f], log + [f];
    forall id | id in frames'
      ensures exists i :: 0 <= i < |more| && more[i] == frames'[id] && more[i].observation.frameId == id &&
                          forall j :: i < j < |more| ==> more[j].observation.frameId != id
    {
      if id == f.observation.frameId {
        assert more[|log|] == f;
      } else {
        var i :| 0 <= i < |log| && log[i] == before[id] && log[i].observation.frameId == id &&
                 forall j :: i < j < |log| ==> log[j].observation.frameId != id;
        assert more[i] == frames'[id];
        assert forall j :: i < j < |more| ==> more[j].observation.frameId != id;
      }
    }
  }
}
