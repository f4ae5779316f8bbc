/**
 * The call log and its two concurrent clients, the heartbeat and the low-latency
 * shipper, as a transition system. Every locked section of the log, every signal and
 * every wake-up is one step, and a ship may fail at any time.
 */
module Shipping {
  import opened CallLog

  datatype Who = Heartbeat | Fast

  /** One value per shipper. */
  datatype Per<T> = Per(heartbeat: T, fast: T) {
    function Of(who: Who): T {
      if who == Heartbeat then heartbeat else fast
    }

    function With(who: Who, value: T): Per<T> {
      if who == Heartbeat then this.(heartbeat := value) else this.(fast := value)
    }
  }

  function Other(who: Who): Who {
    if who == Heartbeat then Fast else Heartbeat
  }

  /** Where a shipper stands; the batch is what it drained and has not settled. */
  datatype Stage<E> = Waiting | Woken | InFlight(batch: seq<E>, mark: nat)

  /**
   * added, delivered and dropped are the history. A mark is how much of added a drain
   * had behind it; shipped is the mark of each shipper's last success, settled that of
   * the last success that carried any events. notifying counts the adds that have
   * appended and not yet signalled, unseen what was appended since the last drain.
   */
  datatype State<E> = State(
    buf: seq<E>,
    signalled: bool,
    notifying: nat,
    stages: Per<Stage<E>>,
    shipped: Per<nat>,
    settled: nat,
    unseen: nat,
    added: seq<E>,
    delivered: seq<E>,
    dropped: multiset<E>)

  /** An add is an append under the lock and then a notification; a tick is a timer. */
  datatype Action<E> =
    | Append(e: E)
    | Notify
    | Receive
    | Tick(who: Who)
    | Drain(who: Who)
    | ShipOk(who: Who)
    | ShipFail(who: Who)

  ghost function Init<E>(): State<E> {
    State([], false, 0, Per(Waiting, Waiting), Per(0, 0), 0, 0, [], [], multiset{})
  }

  /** Only the low-latency shipper listens to the signal; either wakes on its timer. */
  ghost predicate Enabled<E>(s: State<E>, a: Action<E>)
  {
    match a
    case Append(_) => true
    case Notify => s.notifying > 0
    case Receive => s.signalled && s.stages.fast.Waiting?
    case Tick(who) => s.stages.Of(who).Waiting?
    case Drain(who) => s.stages.Of(who).Woken?
    case ShipOk(who) => s.stages.Of(who).InFlight?
    case ShipFail(who) => s.stages.Of(who).InFlight?
  }

  ghost function Apply<E>(s: State<E>, a: Action<E>, max: nat): State<E>
    requires Enabled(s, a)
  {
    match a
    case Append(e) =>
      var buf := Last(s.buf + [e], max);
      s.(buf := buf, notifying := s.notifying + 1, unseen := s.unseen + 1, added := s.added + [e],
         dropped := s.dropped + (multiset(s.buf + [e]) - multiset(buf)))
    case Notify => s.(signalled := true, notifying := s.notifying - 1)
    case Receive => s.(signalled := false, stages := s.stages.With(Fast, Woken))
    case Tick(who) => s.(stages := s.stages.With(who, Woken))
    case Drain(who) =>
      s.(buf := [], unseen := 0,
         stages := s.stages.With(who, if s.buf == [] && who == Fast then Waiting else InFlight(s.buf, |s.added|)))
    case ShipOk(who) =>
      var InFlight(batch, mark) := s.stages.Of(who);
      s.(delivered := s.delivered + batch,
         shipped := s.shipped.With(who, mark),
         settled := if batch == [] then s.settled else mark,
         stages := s.stages.With(who, Waiting))
    case ShipFail(who) =>
      var batch := s.stages.Of(who).batch;
      var buf := Last(batch + s.buf, max);
      s.(buf := buf, stages := s.stages.With(who, Waiting),
         dropped := s.dropped + (multiset(batch + s.buf) - multiset(buf)))
  }

  ghost predicate IsRun<E(!new)>(states: seq<State<E>>, actions: seq<Action<E>>, max: nat) {
    && |states| == |actions| + 1
    && states[0] == Init()
    && forall i :: 0 <= i < |actions| ==>
         Enabled(states[i], actions[i]) && states[i + 1] == Apply(states[i], actions[i], max)
  }

  // ------------------------------------------------------------- conservation

  function Batch<E>(stage: Stage<E>): seq<E> {
    if stage.InFlight? then stage.batch else []
  }

  /** Where the events are that were added: each in one place, as often as it was added. */
  ghost function Accounted<E>(s: State<E>): multiset<E> {
    multiset(s.buf) + multiset(Batch(s.stages.heartbeat)) + multiset(Batch(s.stages.fast)) + multiset(s.delivered) +
      s.dropped
  }

  ghost predicate Conserved<E>(s: State<E>, max: nat) {
    |s.buf| <= max && multiset(s.added) == Accounted(s)
  }

  /** Keeping the last max of some events loses only what is counted, and only when full. */
  lemma LastLosesOnlyWhenFull<E>(events: seq<E>, max: nat, lost: multiset<E>)
    requires lost == multiset(events) - multiset(Last(events, max))
    ensures multiset(events) == multiset(Last(events, max)) + lost
    ensures |Last(events, max)| <= max
    ensures lost != multiset{} ==> |Last(events, max)| == max
  {
    LastIsSuffix(events, max);
    var before: seq<E> :| events == before + Last(events, max) && (before != [] ==> |Last(events, max)| == max);
    assert multiset(events) == multiset(before) + multiset(Last(events, max));
  }

  lemma AppendConserves<E>(s: State<E>, e: E, max: nat)
    requires Conserved(s, max)
    ensures Conserved(Apply(s, Append(e), max), max)
    ensures Apply(s, Append(e), max).dropped != s.dropped ==> |Apply(s, Append(e), max).buf| == max
  {
    hide Last;
    var lost := multiset(s.buf + [e]) - multiset(Last(s.buf + [e], max));
    LastLosesOnlyWhenFull(s.buf + [e], max, lost);
    assert multiset(s.buf + [e]) == multiset(s.buf) + multiset{e};
  }

  lemma FailConserves<E>(s: State<E>, who: Who, max: nat)
    requires Conserved(s, max) && s.stages.Of(who).InFlight?
    ensures Conserved(Apply(s, ShipFail(who), max), max)
    ensures Apply(s, ShipFail(who), max).dropped != s.dropped ==> |Apply(s, ShipFail(who), max).buf| == max
  {
    var batch, s' := s.stages.Of(who).batch, Apply(s, ShipFail(who), max);
    var lost := multiset(batch + s.buf) - multiset(Last(batch + s.buf, max));
    hide Last, Batch;
    LastLosesOnlyWhenFull(batch + s.buf, max, lost);
    BatchLeaves(s, s', who);
    assert multiset(batch + s.buf) == multiset(batch) + multiset(s.buf);
    Rebalance(multiset(s.buf), multiset(batch), multiset(s'.buf), lost,
              multiset(Batch(s.stages.heartbeat)), multiset(Batch(s.stages.fast)),
              multiset(Batch(s'.stages.heartbeat)), multiset(Batch(s'.stages.fast)), multiset(s.delivered), s.dropped);
  }

  /** What comes back from flight is kept or lost, and the rest is as it was. */
  lemma Rebalance<E>(buf: multiset<E>, batch: multiset<E>, kept: multiset<E>, lost: multiset<E>,
                     h: multiset<E>, f: multiset<E>, h': multiset<E>, f': multiset<E>, delivered: multiset<E>,
                     dropped: multiset<E>)
    requires batch + buf == kept + lost && h' + f' + batch == h + f
    ensures kept + h' + f' + delivered + (dropped + lost) == buf + h + f + delivered + dropped
  {
    forall e ensures (kept + h' + f' + delivered + (dropped + lost))[e] == (buf + h + f + delivered + dropped)[e] {
      assert (batch + buf)[e] == (kept + lost)[e] && (h' + f' + batch)[e] == (h + f)[e];
    }
  }

  /** A shipper that stops carrying its batch leaves the other's alone. */
  lemma BatchLeaves<E>(s: State<E>, s': State<E>, who: Who)
    requires s.stages.Of(who).InFlight? && s'.stages == s.stages.With(who, Waiting)
    ensures multiset(Batch(s'.stages.heartbeat)) + multiset(Batch(s'.stages.fast)) + multiset(s.stages.Of(who).batch) ==
            multiset(Batch(s.stages.heartbeat)) + multiset(Batch(s.stages.fast))
  {
  }

  /** A drain and a success move events from one place to another. */
  lemma MoveConserves<E>(s: State<E>, a: Action<E>, max: nat)
    requires Enabled(s, a) && (a.Drain? || a.ShipOk?)
    ensures var s' := Apply(s, a, max);
            Accounted(s') == Accounted(s) && s'.added == s.added && s'.dropped == s.dropped && |s'.buf| <= |s.buf|
  {
    if a.ShipOk? {
      var batch := s.stages.Of(a.who).batch;
      BatchLeaves(s, Apply(s, a, max), a.who);
      assert multiset(s.delivered + batch) == multiset(s.delivered) + multiset(batch);
    }
  }

  /** Signals and wake-ups move none. */
  lemma SignalConserves<E>(s: State<E>, a: Action<E>, max: nat)
    requires Enabled(s, a) && (a.Notify? || a.Receive? || a.Tick?)
    ensures var s' := Apply(s, a, max);
            Accounted(s') == Accounted(s) && s'.added == s.added && s'.dropped == s.dropped && s'.buf == s.buf
  {
  }

  lemma StepConserves<E>(s: State<E>, a: Action<E>, max: nat)
    requires Conserved(s, max) && Enabled(s, a)
    ensures Conserved(Apply(s, a, max), max)
    ensures Apply(s, a, max).dropped != s.dropped ==> |Apply(s, a, max).buf| == max
  {
    hide Accounted, Apply;
    if a.Append? {
      AppendConserves(s, a.e, max);
    } else if a.ShipFail? {
      FailConserves(s, a.who, max);
    } else if a.Drain? || a.ShipOk? {
      MoveConserves(s, a, max);
    } else {
      SignalConserves(s, a, max);
    }
  }

  /**
   * For every interleaving of adds and the two shippers, each added event is in the
   * buffer, in one batch in flight, delivered or dropped, as often as it was added;
   * and an event is dropped only by a step that leaves the buffer full.
   */
  lemma {:induction false} RunConserves<E(!new)>(states: seq<State<E>>, actions: seq<Action<E>>, max: nat, n: nat)
    requires IsRun(states, actions, max) && n < |states|
    ensures Conserved(states[n], max)
    ensures n > 0 && states[n].dropped != states[n - 1].dropped ==> |states[n].buf| == max
    decreases n
  {
    if n > 0 {
      RunConserves(states, actions, max, n - 1);
      StepConserves(states[n - 1], actions[n - 1], max);
    }
  }

  // ------------------------------------------------------------ lost wake-ups

  /**
   * An event nobody has drained since it was appended has a shipper coming for it: one
   * is awake, or a signal waits for it, or an add is about to signal.
   */
  ghost predicate Attended<E>(s: State<E>) {
    s.unseen > 0 ==> s.signalled || s.stages.fast.Woken? || s.notifying > 0
  }

  lemma {:induction false} NoLostWakeup<E(!new)>(states: seq<State<E>>, actions: seq<Action<E>>, max: nat, n: nat)
    requires IsRun(states, actions, max) && n < |states|
    ensures Attended(states[n])
    decreases n
  {
    if n > 0 {
      NoLostWakeup(states, actions, max, n - 1);
      assert states[n] == Apply(states[n - 1], actions[n - 1], max);
    }
  }

  // -------------------------------------------------------------- one shipper

  ghost predicate Subsequence<E>(small: seq<E>, big: seq<E>) {
    if small == [] then true
    else if big == [] then false
    else if small[|small| - 1] == big[|big| - 1] && Subsequence(small[..|small| - 1], big[..|big| - 1]) then true
    else Subsequence(small, big[..|big| - 1])
  }

  lemma {:induction false} SubsequenceSkips<E>(small: seq<E>, big: seq<E>, more: seq<E>)
    requires Subsequence(small, big)
    ensures Subsequence(small, big + more)
    decreases more
  {
    if more == [] {
      assert big + more == big;
    } else {
      var init := more[..|more| - 1];
      SubsequenceSkips(small, big, init);
      assert (big + more)[..|big + more| - 1] == big + init;
    }
  }

  lemma {:induction false} SubsequenceTakes<E>(small: seq<E>, big: seq<E>, more: seq<E>)
    requires Subsequence(small, big)
    ensures Subsequence(small + more, big + more)
    decreases more
  {
    if more == [] {
      assert small + more == small && big + more == big;
    } else {
      var init := more[..|more| - 1];
      SubsequenceTakes(small, big, init);
      assert (small + more)[..|small + more| - 1] == small + init;
      assert (big + more)[..|big + more| - 1] == big + init;
    }
  }

  /** A subsequence keeps the order of what it keeps. */
  lemma {:induction false} SubsequenceKeepsOrder<E>(small: seq<E>, big: seq<E>, i: nat, j: nat) returns (p: nat, q: nat)
    requires Subsequence(small, big) && i < j < |small|
    ensures p < q < |big| && big[p] == small[i] && big[q] == small[j]
    decreases |big|
  {
    var less, fewer := small[..|small| - 1], big[..|big| - 1];
    if small[|small| - 1] == big[|big| - 1] && Subsequence(less, fewer) {
      if j < |less| {
        p, q := SubsequenceKeepsOrder(less, fewer, i, j);
      } else {
        p := SubsequenceKeepsElements(less, fewer, i);
        q := |big| - 1;
      }
    } else {
      p, q := SubsequenceKeepsOrder(small, fewer, i, j);
    }
  }

  lemma {:induction false} SubsequenceKeepsElements<E>(small: seq<E>, big: seq<E>, i: nat) returns (p: nat)
    requires Subsequence(small, big) && i < |small|
    ensures p < |big| && big[p] == small[i]
    decreases |big|
  {
    var less, fewer := small[..|small| - 1], big[..|big| - 1];
    if small[|small| - 1] == big[|big| - 1] && Subsequence(less, fewer) {
      p := |big| - 1;
      if i < |less| {
        p := SubsequenceKeepsElements(less, fewer, i);
      }
    } else {
      p := SubsequenceKeepsElements(small, fewer, i);
    }
  }

  // ------------------------------------------------------------------- order

  /** Both shippers have events in flight. */
  ghost predicate Overlap<E>(s: State<E>) {
    Batch(s.stages.heartbeat) != [] && Batch(s.stages.fast) != []
  }

  /** The one batch with events holds the recent window up to its mark, the buffer that since. */
  ghost predicate Carries<E>(s: State<E>, who: Who, max: nat)
    requires s.stages.Of(who).InFlight?
  {
    var InFlight(batch, mark) := s.stages.Of(who);
    && s.settled <= mark <= |s.added|
    && batch == Last(s.added[s.settled..mark], max)
    && s.buf == Last(s.added[mark..], max)
  }

  /**
   * What was delivered is in order and was all added before settled; the newest max
   * events since are in the buffer, or in the one batch in flight and the buffer.
   */
  ghost predicate InOrder<E>(s: State<E>, max: nat) {
    && s.settled <= |s.added|
    && Subsequence(s.delivered, s.added[..s.settled])
    && (forall who :: Batch(s.stages.Of(who)) != [] ==> Batch(s.stages.Of(Other(who))) == [] && Carries(s, who, max))
    && (Batch(s.stages.heartbeat) == [] == Batch(s.stages.fast) ==> s.buf == Last(s.added[s.settled..], max))
  }

  /** A batch with events drained while the other shipper has some: the only way to overlap. */
  lemma OverlapBeginsWithDrain<E>(s: State<E>, a: Action<E>, max: nat)
    requires Enabled(s, a) && !Overlap(s)
    ensures Overlap(Apply(s, a, max)) <==> a.Drain? && s.buf != [] && Batch(s.stages.Of(Other(a.who))) != []
  {
    hide Last;
  }

  lemma AppendKeepsOrder<E>(s: State<E>, e: E, max: nat)
    requires InOrder(s, max)
    ensures InOrder(Apply(s, Append(e), max), max)
  {
    hide Subsequence, Last;
    var s' := Apply(s, Append(e), max);
    assert s'.added[..s.settled] == s.added[..s.settled];
    forall from | 0 <= from <= |s.added| && s.buf == Last(s.added[from..], max)
      ensures s'.buf == Last(s'.added[from..], max)
    {
      LastOfLast(s.added[from..], [e], max);
      assert s'.added[from..] == s.added[from..] + [e];
    }
    forall who | Batch(s.stages.Of(who)) != [] ensures Carries(s', who, max) {
      var mark := s.stages.Of(who).mark;
      assert s'.added[s.settled..mark] == s.added[s.settled..mark];
    }
  }

  lemma DeliveryKeepsOrder<E>(delivered: seq<E>, added: seq<E>, settled: nat, mark: nat, batch: seq<E>, max: nat)
    requires settled <= mark <= |added| && Subsequence(delivered, added[..settled])
    requires batch == Last(added[settled..mark], max)
    ensures Subsequence(delivered + batch, added[..mark])
  {
    hide Subsequence;
    var window := added[settled..mark];
    var skipped := window[..|window| - |batch|];
    SubsequenceSkips(delivered, added[..settled], skipped);
    SubsequenceTakes(delivered, added[..settled] + skipped, batch);
    assert added[..settled] + skipped + batch == added[..mark];
  }

  lemma ShipOkKeepsOrder<E>(s: State<E>, who: Who, max: nat)
    requires InOrder(s, max) && s.stages.Of(who).InFlight?
    ensures InOrder(Apply(s, ShipOk(who), max), max)
  {
    hide Subsequence, Last;
    var InFlight(batch, mark) := s.stages.Of(who);
    if batch != [] {
      assert Carries(s, who, max) && Batch(s.stages.Of(Other(who))) == [];
      DeliveryKeepsOrder(s.delivered, s.added, s.settled, mark, batch, max);
      NothingInFlight(Apply(s, ShipOk(who), max), who);
    } else {
      NothingShippedKeepsOrder(s, Apply(s, ShipOk(who), max), who, Waiting, max);
    }
  }

  lemma NothingInFlight<E>(s: State<E>, who: Who)
    requires Batch(s.stages.Of(who)) == [] == Batch(s.stages.Of(Other(who)))
    ensures forall w :: Batch(s.stages.Of(w)) == []
  {
  }

  /** A shipper that carries nothing changes nothing, however it moves. */
  lemma NothingShippedKeepsOrder<E>(s: State<E>, s': State<E>, who: Who, stage: Stage<E>, max: nat)
    requires InOrder(s, max) && Batch(s.stages.Of(who)) == [] == Batch(stage)
    requires s'.stages == s.stages.With(who, stage) && s'.buf == s.buf && s'.added == s.added
    requires s'.settled == s.settled && s'.delivered == s.delivered + []
    ensures InOrder(s', max)
  {
    hide Subsequence, Last;
    assert s.delivered + [] == s.delivered;
    var other := Batch(s.stages.Of(Other(who)));
    assert Batch(s'.stages.Of(who)) == [] && Batch(s'.stages.Of(Other(who))) == other;
    forall w | Batch(s'.stages.Of(w)) != [] ensures Batch(s'.stages.Of(Other(w))) == [] && Carries(s', w, max) {
      assert w == Other(who) && Carries(s, w, max);
    }
  }

  lemma ShipFailKeepsOrder<E>(s: State<E>, who: Who, max: nat)
    requires InOrder(s, max) && |s.buf| <= max && s.stages.Of(who).InFlight?
    ensures InOrder(Apply(s, ShipFail(who), max), max)
  {
    hide Subsequence, Last;
    var InFlight(batch, mark) := s.stages.Of(who);
    if batch != [] {
      assert Carries(s, who, max) && Batch(s.stages.Of(Other(who))) == [];
      LastOfBoth(s.added[s.settled..mark], s.added[mark..], max);
      assert s.added[s.settled..mark] + s.added[mark..] == s.added[s.settled..];
      NothingInFlight(Apply(s, ShipFail(who), max), who);
    } else {
      assert batch + s.buf == s.buf;
      LastOfFew(s.buf, max);
      NothingShippedKeepsOrder(s, Apply(s, ShipFail(who), max), who, Waiting, max);
    }
  }

  lemma DrainKeepsOrder<E>(s: State<E>, who: Who, max: nat)
    requires InOrder(s, max) && s.stages.Of(who).Woken? && !Overlap(Apply(s, Drain(who), max))
    ensures InOrder(Apply(s, Drain(who), max), max)
  {
    hide Subsequence;
    var s' := Apply(s, Drain(who), max);
    if s.buf == [] {
      forall w | Batch(s'.stages.Of(w)) != [] ensures Carries(s', w, max) {
        assert Carries(s, w, max);
      }
    } else {
      assert s.added[s.settled..|s.added|] == s.added[s.settled..];
      assert s.added[|s.added|..] == [];
    }
  }

  lemma SignalKeepsOrder<E>(s: State<E>, s': State<E>, max: nat)
    requires InOrder(s, max) && s' == s.(signalled := s'.signalled, notifying := s'.notifying)
    ensures InOrder(s', max)
  {
    forall who | Batch(s.stages.Of(who)) != [] ensures Carries(s', who, max) {
      assert Carries(s, who, max);
    }
  }

  lemma StepKeepsOrder<E>(s: State<E>, a: Action<E>, max: nat)
    requires InOrder(s, max) && |s.buf| <= max && Enabled(s, a) && !Overlap(Apply(s, a, max))
    ensures InOrder(Apply(s, a, max), max)
  {
    hide Subsequence, Last;
    match a
    case Append(e) => AppendKeepsOrder(s, e, max);
    case Notify => SignalKeepsOrder(s, Apply(s, a, max), max);
    case Receive =>
      assert s.delivered + [] == s.delivered;
      NothingShippedKeepsOrder(s, Apply(s, a, max), Fast, Woken, max);
    case Tick(who) =>
      assert s.delivered + [] == s.delivered;
      NothingShippedKeepsOrder(s, Apply(s, a, max), who, Woken, max);
    case Drain(who) => DrainKeepsOrder(s, who, max);
    case ShipOk(who) => ShipOkKeepsOrder(s, who, max);
    case ShipFail(who) => ShipFailKeepsOrder(s, who, max);
  }

  /**
   * While the shippers never have events in flight together, the log works as if there
   * were one: the newest max events since the last success are where they should be,
   * through any failures and overflows, and delivery follows the order of the adds.
   */
  lemma {:induction false} NoOverlapKeepsOrder<E(!new)>(states: seq<State<E>>, actions: seq<Action<E>>, max: nat,
                                                        n: nat)
    requires IsRun(states, actions, max) && n < |states|
    requires forall i :: 0 <= i <= n ==> !Overlap(states[i])
    ensures InOrder(states[n], max) && Subsequence(states[n].delivered, states[n].added)
    decreases n
  {
    hide Subsequence, InOrder, Overlap;
    if n == 0 {
      EmptyIsInOrder<E>(max);
    } else {
      NoOverlapKeepsOrder(states, actions, max, n - 1);
      RunConserves(states, actions, max, n - 1);
      assert states[n] == Apply(states[n - 1], actions[n - 1], max) && !Overlap(states[n]);
      StepKeepsOrder(states[n - 1], actions[n - 1], max);
    }
    DeliveredIsSubsequence(states[n], max);
  }

  lemma EmptyIsInOrder<E>(max: nat)
    ensures InOrder(Init<E>(), max)
  {
  }

  lemma DeliveredIsSubsequence<E>(s: State<E>, max: nat)
    requires InOrder(s, max)
    ensures Subsequence(s.delivered, s.added)
  {
    hide Subsequence;
    SubsequenceSkips(s.delivered, s.added[..s.settled], s.added[s.settled..]);
    assert s.added[..s.settled] + s.added[s.settled..] == s.added;
  }

  // ------------------------------------------------------- exactly when in order

  function InFlights<E>(s: State<E>): nat {
    (if s.stages.heartbeat.InFlight? then 1 else 0) + (if s.stages.fast.InFlight? then 1 else 0)
  }

  ghost function Settle<E>(s: State<E>, who: Who, ok: bool, max: nat): State<E>
    requires s.stages.Of(who).InFlight?
  {
    Apply(s, if ok then ShipOk(who) else ShipFail(who), max)
  }

  /** Whichever way the ships now in flight end, and in whichever order, delivery follows the adds. */
  ghost predicate SettlesInOrder<E>(s: State<E>, max: nat)
    decreases InFlights(s)
  {
    && Subsequence(s.delivered, s.added)
    && forall who, ok :: s.stages.Of(who).InFlight? ==> SettlesInOrder(Settle(s, who, ok, max), max)
  }

  ghost predicate Distinct<E>(events: seq<E>) {
    forall i, j :: 0 <= i < j < |events| ==> events[i] != events[j]
  }

  lemma {:induction false} OrderedSettlesInOrder<E>(s: State<E>, max: nat)
    requires InOrder(s, max) && |s.buf| <= max
    ensures SettlesInOrder(s, max)
    decreases InFlights(s)
  {
    hide Subsequence, InOrder, Last;
    DeliveredIsSubsequence(s, max);
    forall who, ok | s.stages.Of(who).InFlight? ensures SettlesInOrder(Settle(s, who, ok, max), max) {
      if ok {
        ShipOkKeepsOrder(s, who, max);
      } else {
        ShipFailKeepsOrder(s, who, max);
        LastIsSuffix(s.stages.Of(who).batch + s.buf, max);
      }
      OrderedSettlesInOrder(Settle(s, who, ok, max), max);
    }
  }

  /** With events in flight on both sides, one of the two orders of success is wrong. */
  lemma OverlapCanReorder<E>(s: State<E>, max: nat)
    requires Overlap(s) && Distinct(s.added)
    ensures !SettlesInOrder(s, max)
  {
    if SettlesInOrder(s, max) {
      var d, older, newer := |s.delivered|, s.stages.heartbeat.batch, s.stages.fast.batch;
      var one := BothSucceed(s, Heartbeat, max);
      var two := BothSucceed(s, Fast, max);
      hide SettlesInOrder, Subsequence, Settle;
      assert one[d] == older[0] == two[d + |newer|] && one[d + |older|] == newer[0] == two[d];
      var p, q := SubsequenceKeepsOrder(one, s.added, d, d + |older|);
      var p', q' := SubsequenceKeepsOrder(two, s.added, d, d + |newer|);
    }
  }

  lemma BothSucceed<E>(s: State<E>, first: Who, max: nat) returns (delivered: seq<E>)
    requires SettlesInOrder(s, max) && s.stages.heartbeat.InFlight? && s.stages.fast.InFlight?
    ensures delivered == s.delivered + s.stages.Of(first).batch + s.stages.Of(Other(first)).batch
    ensures Subsequence(delivered, s.added)
  {
    hide Subsequence;
    var s1 := Settle(s, first, true, max);
    assert SettlesInOrder(s1, max);
    var s2 := Settle(s1, Other(first), true, max);
    assert SettlesInOrder(s2, max);
    delivered := s2.delivered;
  }

  /**
   * The order of delivery is safe all along a run, however the ships in flight at any
   * moment end, if and only if the shippers never have events in flight together.
   * OverlapBeginsWithDrain says which drain would break it.
   */
  lemma OrderIsSafeIffNoOverlap<E(!new)>(states: seq<State<E>>, actions: seq<Action<E>>, max: nat, n: nat)
    requires IsRun(states, actions, max) && n < |states| && Distinct(states[n].added)
    ensures (forall i :: 0 <= i <= n ==> SettlesInOrder(states[i], max)) <==>
              (forall i :: 0 <= i <= n ==> !Overlap(states[i]))
  {
    hide IsRun, SettlesInOrder, Overlap, Distinct;
    if forall i :: 0 <= i <= n ==> !Overlap(states[i]) {
      forall i | 0 <= i <= n ensures SettlesInOrder(states[i], max) {
        NoOverlapKeepsOrder(states, actions, max, i);
        RunConserves(states, actions, max, i);
        OrderedSettlesInOrder(states[i], max);
      }
    } else {
      var i :| 0 <= i <= n && Overlap(states[i]);
      AddedOnlyGrows(states, actions, max, i, n);
      PrefixIsDistinct(states[i].added, states[n].added);
      OverlapCanReorder(states[i], max);
    }
  }

  lemma {:induction false} AddedOnlyGrows<E(!new)>(states: seq<State<E>>, actions: seq<Action<E>>, max: nat, i: nat,
                                                   n: nat)
    requires IsRun(states, actions, max) && i <= n < |states|
    ensures states[i].added <= states[n].added
    decreases n
  {
    hide Apply, Enabled;
    if i < n {
      AddedOnlyGrows(states, actions, max, i, n - 1);
      StepGrowsAdded(states[n - 1], actions[n - 1], max);
      PrefixOfPrefix(states[i].added, states[n - 1].added, states[n].added);
    }
  }

  lemma StepGrowsAdded<E>(s: State<E>, a: Action<E>, max: nat)
    requires Enabled(s, a)
    ensures s.added <= Apply(s, a, max).added
  {
    hide Last;
  }

  lemma PrefixOfPrefix<E>(a: seq<E>, b: seq<E>, c: seq<E>)
    requires a <= b <= c
    ensures a <= c
  {
  }

  lemma PrefixIsDistinct<E>(less: seq<E>, more: seq<E>)
    requires less <= more && Distinct(more)
    ensures Distinct(less)
  {
  }

  // -------------------------------------------------------------- one shipper

  /** Only who has drained, and a batch without events was drained with nothing outstanding. */
  ghost predicate OnlyShipper<E>(s: State<E>, who: Who, max: nat) {
    && !s.stages.Of(Other(who)).InFlight?
    && s.shipped.Of(who) <= |s.added|
    && (1 <= max ==> s.shipped.Of(who) == s.settled)
    && (s.stages.Of(who).InFlight? ==>
          var InFlight(batch, mark) := s.stages.Of(who);
          mark <= |s.added| && (1 <= max && batch == [] ==> mark == s.settled))
  }

  lemma {:induction false} OnlyShipperStays<E(!new)>(states: seq<State<E>>, actions: seq<Action<E>>, who: Who, max: nat,
                                                     n: nat)
    requires IsRun(states, actions, max) && n < |states|
    requires forall i :: 0 <= i < n ==> actions[i] != Drain(Other(who))
    ensures OnlyShipper(states[n], who, max) && forall i :: 0 <= i <= n ==> !Overlap(states[i])
    decreases n
  {
    if n > 0 {
      hide OnlyShipper, Overlap, InOrder, Apply, Subsequence;
      OnlyShipperStays(states, actions, who, max, n - 1);
      NoOverlapKeepsOrder(states, actions, max, n - 1);
      StepKeepsOnlyShipper(states[n - 1], actions[n - 1], who, max);
    }
  }

  lemma StepKeepsOnlyShipper<E>(s: State<E>, a: Action<E>, who: Who, max: nat)
    requires OnlyShipper(s, who, max) && InOrder(s, max) && Enabled(s, a) && a != Drain(Other(who))
    ensures OnlyShipper(Apply(s, a, max), who, max) && !Overlap(Apply(s, a, max))
  {
    hide Subsequence, Last;
    if a.Drain? {
      OnlyDrainKeepsOnlyShipper(s, who, max);
    } else {
      hide InOrder;
      if a.Append? {
        assert |s.added| <= |s.added + [a.e]|;
      }
    }
  }

  lemma OnlyDrainKeepsOnlyShipper<E>(s: State<E>, who: Who, max: nat)
    requires OnlyShipper(s, who, max) && InOrder(s, max) && Enabled(s, Drain(who))
    ensures OnlyShipper(Apply(s, Drain(who), max), who, max) && !Overlap(Apply(s, Drain(who), max))
  {
    hide Subsequence;
    if s.buf == [] && 1 <= max {
      assert s.added[s.settled..] == [];
    }
  }

  /**
   * With one shipper, whenever no batch is in flight, the buffer is exactly the newest
   * max of the events added since the drain of its last successful ship, and what was
   * delivered is in the order it was added.
   */
  lemma OneShipperRefinesRecentWindow<E(!new)>(
    states: seq<State<E>>, actions: seq<Action<E>>, who: Who, max: nat, n: nat)
    requires IsRun(states, actions, max) && n < |states|
    requires forall i :: 0 <= i < n ==> actions[i] != Drain(Other(who))
    ensures states[n].shipped.Of(who) <= |states[n].added|
    ensures !states[n].stages.Of(who).InFlight? ==>
              states[n].buf == Last(states[n].added[states[n].shipped.Of(who)..], max)
    ensures Subsequence(states[n].delivered, states[n].added)
  {
    hide Subsequence, Last, IsRun;
    OnlyShipperStays(states, actions, who, max, n);
    NoOverlapKeepsOrder(states, actions, max, n);
    if max == 0 {
      RunConserves(states, actions, max, n);
      LastIsSuffix(states[n].added[states[n].shipped.Of(who)..], max);
    }
  }

  // ------------------------------------------------------------- two shippers

  lemma ExtendRun<E(!new)>(states: seq<State<E>>, actions: seq<Action<E>>, max: nat, a: Action<E>)
    returns (more: seq<State<E>>, done: seq<Action<E>>)
    requires IsRun(states, actions, max) && Enabled(states[|actions|], a)
    ensures IsRun(more, done, max) && |done| == |actions| + 1
    ensures more[|done|] == Apply(states[|actions|], a, max)
  {
    hide Enabled, Apply;
    more, done := states + [Apply(states[|actions|], a, max)], actions + [a];
  }

  /** With both shippers at work no failure is needed for events to arrive out of order. */
  lemma TwoShippersCanReorder(max: nat) returns (states: seq<State<nat>>, actions: seq<Action<nat>>)
    requires 1 <= max
    ensures IsRun(states, actions, max)
    ensures var s := states[|actions|];
            s.added == [1, 2] && s.delivered == [2, 1] && !Subsequence(s.delivered, s.added)
  {
    states, actions := [Init()], [];
    assert IsRun(states, actions, max);
    hide IsRun;
    states, actions := ExtendRun(states, actions, max, Append(1));
    states, actions := ExtendRun(states, actions, max, Tick(Heartbeat));
    states, actions := ExtendRun(states, actions, max, Drain(Heartbeat));
    states, actions := ExtendRun(states, actions, max, Append(2));
    states, actions := ExtendRun(states, actions, max, Tick(Fast));
    states, actions := ExtendRun(states, actions, max, Drain(Fast));
    states, actions := ExtendRun(states, actions, max, ShipOk(Fast));
    states, actions := ExtendRun(states, actions, max, ShipOk(Heartbeat));
    var s := states[|actions|];
    assert s.added == [1, 2] && s.delivered == [2, 1];
    if Subsequence(s.delivered, s.added) {
      var p, q := SubsequenceKeepsOrder(s.delivered, s.added, 0, 1);
    }
  }
}
