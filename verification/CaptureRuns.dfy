/** Any interleaving of Put, Get and reap, one locked section at a time, from an empty store. */
module CaptureRuns {
  import opened Prelude
  import opened Text
  import opened CaptureSpec
  import CaptureStore

  /** Each event carries its own clock reading; readings need not be ordered. */
  datatype Event =
    | PutEvent(request: PutRequest, now: int, stored: Result<Capture, PutError>)
    | GetEvent(id: string, owner: Owner, now: int, found: Option<Capture>)
    | ReapEvent(now: int)

  ghost predicate Step(s: Store, s': Store, e: Event, config: Config) {
    match e
    case PutEvent(request, now, stored) => PutStep(s, s', request, now, config, stored)
    case GetEvent(id, owner, now, found) => GetStep(s, s', id, owner, now, found)
    case ReapEvent(now) => s' == Live(s, now)
  }

  ghost predicate IsRun(states: seq<Store>, events: seq<Event>, config: Config) {
    && |states| == |events| + 1
    && states[0] == map[]
    && forall i :: 0 <= i < |events| ==> Step(states[i], states[i + 1], events[i], config)
  }

  ghost predicate Inv(s: Store, config: Config) {
    && (forall k :: k in s ==> s[k].id == k && ValidCaptureID(k))
    && (forall k :: k in s ==> SupportedStreams(s[k].streams) && s[k].bytes == StreamBytes(s[k].streams))
    && WithinQuotas(s, config)
  }

  lemma InvOfFewer(less: Store, more: Store, config: Config)
    requires Within(less, more) && Inv(more, config)
    ensures Inv(less, config)
  {
    hide WithinQuotas;
    QuotasOfFewer(less, more, config);
  }

  lemma PutEffectKeepsInv(s: Store, s': Store, request: PutRequest, now: int, config: Config,
                          owned: set<string>, others: set<string>, res: Result<Capture, PutError>)
    requires Inv(s, config) && Refusal(request, config) == None
    requires PutEffect(s, s', request, now, config, owned, others, res)
    ensures Inv(s', config)
  {
    hide WithinQuotas, LruCut, Fits, Candidates, StreamBytes;
    var live := Live(s, now);
    if res.Ok? {
      var kept := live - owned - others;
      InvOfFewer(kept, s, config);
      CaptureStore.PutFits(live, kept, Some(request.owner), StreamBytes(request.streams), config, owned, others);
      QuotasOfInsertion(kept, res.value, config);
    } else {
      InvOfFewer(s', s, config);
    }
  }

  lemma StepKeepsInv(s: Store, s': Store, e: Event, config: Config)
    requires Inv(s, config) && Step(s, s', e, config)
    ensures Inv(s', config)
  {
    hide WithinQuotas, PutEffect, Refusal, ValidCaptureID, StreamBytes, SupportedStreams;
    match e
    case PutEvent(request, now, stored) =>
      if s' != s {
        var owned, others :| PutEffect(s, s', request, now, config, owned, others, stored);
        PutEffectKeepsInv(s, s', request, now, config, owned, others, stored);
      }
    case GetEvent(id, owner, now, found) =>
      InvOfFewer(Live(s, now), s, config);
      if found.Some? {
        CaptureStore.TouchKeepsQuotas(Live(s, now), id, now, config);
      }
    case ReapEvent(now) =>
      InvOfFewer(s', s, config);
  }

  /** In every reachable state keys are ids, ids are ones that Get accepts, and all five quotas hold. */
  lemma {:induction false} RunKeepsQuotas(states: seq<Store>, events: seq<Event>, config: Config, n: nat)
    requires IsRun(states, events, config) && n < |states|
    ensures Inv(states[n], config)
    decreases n
  {
    hide Step, WithinQuotas;
    if n == 0 {
      CaptureStore.EmptyWithinQuotas(config);
    } else {
      RunKeepsQuotas(states, events, config, n - 1);
      StepKeepsInv(states[n - 1], states[n], events[n - 1], config);
    }
  }

  /** How much text each capture holds, counted from its streams. */
  ghost function Texts(s: Store): map<string, nat> {
    map k | k in s :: Utf8Length(s[k].streams)
  }

  ghost function OwnTexts(s: Store, owner: Owner): map<string, nat> {
    map k | k in s && s[k].owner == owner :: Utf8Length(s[k].streams)
  }

  /** The bytes of both streams, a missing one counting nothing. */
  function Utf8Length(streams: map<string, string>): nat {
    (if "stdout" in streams then ByteLen(streams["stdout"]) else 0) +
    (if "stderr" in streams then ByteLen(streams["stderr"]) else 0)
  }

  lemma SupportedStreamBytes(streams: map<string, string>)
    requires SupportedStreams(streams)
    ensures StreamBytes(streams) == Utf8Length(streams)
  {
    var lengths := Lengths(streams);
    var rest := lengths - {"stdout"};
    assert "stdout" in streams ==> "stdout" in lengths && lengths["stdout"] == ByteLen(streams["stdout"]);
    if "stdout" in streams {
      SumWithout(lengths, "stdout");
    } else {
      assert rest == lengths;
    }
    if "stderr" in streams {
      SumWithout(rest, "stderr");
      assert rest - {"stderr"} == map[];
    } else {
      assert rest == map[];
    }
  }

  /**
   * In every reachable state what the captures hold, counted from their streams, keeps
   * all five quotas, and the recorded sizes are these counts.
   */
  lemma RunKeepsTextQuotas(states: seq<Store>, events: seq<Event>, config: Config, n: nat)
    requires IsRun(states, events, config) && n < |states|
    ensures var s := states[n];
            && |s| <= Max(config.maxEntries, 0) && Sum(Texts(s)) <= Max(config.maxBytes, 0)
            && (forall k :: k in s ==>
                  s[k].bytes == Utf8Length(s[k].streams) <= config.maxIndividualBytes)
            && forall owner ::
                 |OwnTexts(s, owner)| <= Max(config.maxOwnerEntries, 0) &&
                 Sum(OwnTexts(s, owner)) <= Max(config.maxOwnerBytes, 0)
  {
    RunKeepsQuotas(states, events, config, n);
    var s := states[n];
    RecordsAreRight(s);
    assert Texts(s) == Weights(s);
    forall owner
      ensures |OwnTexts(s, owner)| <= Max(config.maxOwnerEntries, 0)
      ensures Sum(OwnTexts(s, owner)) <= Max(config.maxOwnerBytes, 0)
    {
      var own := Candidates(s, Some(owner));
      assert OwnTexts(s, owner) == Weights(own);
      assert OwnTexts(s, owner).Keys == own.Keys && |own| == |own.Keys| &&
             |OwnTexts(s, owner)| == |OwnTexts(s, owner).Keys|;
    }
  }

  /**
   * A Put that finds room in the whole store drops no live capture of anyone else, and
   * one that finds room for its owner too drops none at all.
   */
  lemma NothingGoesWhileThereIsRoom(states: seq<Store>, events: seq<Event>, config: Config, i: nat)
    requires IsRun(states, events, config) && i < |events| && events[i].PutEvent? && events[i].stored.Ok?
    ensures var s, s', e := states[i], states[i + 1], events[i];
            var live := map k | k in s && e.now < s[k].expiresAt :: s[k];
            var size := Utf8Length(e.request.streams);
            var room := |live| < config.maxEntries && Sum(Texts(live)) + size <= config.maxBytes;
            var ownRoom := |OwnTexts(live, e.request.owner)| < config.maxOwnerEntries &&
                           Sum(OwnTexts(live, e.request.owner)) + size <= config.maxOwnerBytes;
            && (room ==> forall k :: k in live && live[k].owner != e.request.owner ==> k in s')
            && (room && ownRoom ==> forall k :: k in live ==> k in s')
  {
    hide WithinQuotas, LruCut, Fits, NewCapture;
    var s, s', e := states[i], states[i + 1], events[i];
    RunKeepsQuotas(states, events, config, i);
    assert Step(s, s', e, config);
    SupportedStreamBytes(e.request.streams);
    var owner, size, live := e.request.owner, StreamBytes(e.request.streams), Live(s, e.now);
    var owned, others :| PutEffect(s, s', e.request, e.now, config, owned, others, e.stored);
    RecordsAreRight(live);
    RecordedFits(live, size, config);
    OwnRecordedFits(live, owner, size, config);
    OwnedAreOwn(live, Some(owner), size, config, owned);
    NoNeedlessEviction(live, Some(owner), size, config, owned);
    NoNeedlessEviction(live - owned, None, size, config, others);
    assert live - {} == live;
    if Fits(live, None, size, config) {
      FitsAfterMore(live, None, size, config, {}, owned);
    }
  }

  lemma OwnedAreOwn(s: Store, scope: Option<Owner>, size: nat, config: Config, removed: set<string>)
    requires LruCut(s, scope, size, config, removed)
    ensures forall k :: k in removed ==> k in s && (scope == None || s[k].owner == scope.value)
  {
    hide Fits;
  }

  /** The recorded sizes are the sizes of the text. */
  ghost predicate Recorded(s: Store) {
    forall k :: k in s ==> s[k].bytes == Utf8Length(s[k].streams)
  }

  lemma RecordsAreRight(s: Store)
    requires forall k :: k in s ==> SupportedStreams(s[k].streams) && s[k].bytes == StreamBytes(s[k].streams)
    ensures Recorded(s)
  {
    hide StreamBytes, SupportedStreams, Utf8Length;
    forall k | k in s ensures s[k].bytes == Utf8Length(s[k].streams) {
      SupportedStreamBytes(s[k].streams);
    }
  }

  /** Room by the recorded sizes is room by the text, where the records are right. */
  lemma RecordedFits(s: Store, size: nat, config: Config)
    requires Recorded(s)
    ensures Fits(s, None, size, config) <==> |s| < config.maxEntries && Sum(Texts(s)) + size <= config.maxBytes
  {
    hide Sum, Utf8Length;
    assert Candidates(s, None) == s && Weights(s) == Texts(s);
  }

  lemma OwnRecordedFits(s: Store, owner: Owner, size: nat, config: Config)
    requires Recorded(s)
    ensures Fits(s, Some(owner), size, config) <==>
              |OwnTexts(s, owner)| < config.maxOwnerEntries && Sum(OwnTexts(s, owner)) + size <= config.maxOwnerBytes
  {
    hide Sum, Utf8Length;
    var c, w := Candidates(s, Some(owner)), OwnTexts(s, owner);
    assert Weights(c) == w;
    assert c.Keys == w.Keys;
    assert |c| == |c.Keys| && |w| == |w.Keys|;
  }

  /** What is checked before the store is touched, and in which order. */
  lemma RefusalsSpelledOut(request: PutRequest, config: Config)
    ensures var known := forall name :: name in request.streams ==> name == "stdout" || name == "stderr";
            var named := request.owner.tid != "" && request.owner.oid != "" && request.owner.appId != "";
            var size := Utf8Length(request.streams);
            && (Refusal(request, config) == Some(UnsupportedStream) <==> !known)
            && (Refusal(request, config) == Some(MissingIdentity) <==> known && !named)
            && (Refusal(request, config) == Some(OverIndividualLimit) <==>
                known && named && size > config.maxIndividualBytes)
            && (Refusal(request, config) == Some(OverStoreQuota) <==>
                known && named && size <= config.maxIndividualBytes &&
                (size > config.maxOwnerBytes || size > config.maxBytes))
            && (Refusal(request, config) == None <==>
                known && named && size <= config.maxIndividualBytes &&
                size <= config.maxOwnerBytes && size <= config.maxBytes)
  {
    if SupportedStreams(request.streams) {
      SupportedStreamBytes(request.streams);
    }
  }

  /** Least recently used first; of captures used at one time, the one created first. */
  lemma OlderSpelledOut(a: Capture, b: Capture)
    ensures Older(a, b) <==>
              a.lastAccess < b.lastAccess || (!(b.lastAccess < a.lastAccess) && a.createdAt < b.createdAt)
  {
  }

  // ------------------------------------------------------------------ content

  /** The last of the first n events that stored something under id. */
  ghost function LastPut(events: seq<Event>, n: nat, id: string): Option<nat>
    requires n <= |events|
  {
    if n == 0 then None
    else
      var e := events[n - 1];
      if e.PutEvent? && e.stored.Ok? && e.stored.value.id == id then Some(n - 1) else LastPut(events, n - 1, id)
  }

  /** c is what the last Put under its id stored, apart from the time it was last read. */
  ghost predicate FromLastPut(events: seq<Event>, n: nat, id: string, c: Capture, config: Config)
    requires n <= |events|
  {
    var j := LastPut(events, n, id);
    && j.Some? && j.value < n
    && events[j.value].PutEvent?
    && c.(lastAccess := 0) == NewCapture(id, events[j.value].request, events[j.value].now, config).(lastAccess := 0)
  }

  lemma PutKeepsOthers(s: Store, s': Store, request: PutRequest, now: int, config: Config,
                       stored: Result<Capture, PutError>, k: string)
    requires PutStep(s, s', request, now, config, stored) && k in s'
    ensures (k in s && s'[k] == s[k] && !(stored.Ok? && stored.value.id == k)) ||
            (stored.Ok? && stored.value.id == k && s'[k] == stored.value == NewCapture(k, request, now, config))
  {
    hide LruCut, Refusal, Candidates, StreamBytes, NewCapture;
    if s' != s || stored.Ok? {
      var owned, others :| PutEffect(s, s', request, now, config, owned, others, stored);
    }
  }

  lemma StepKeepsContent(s: Store, s': Store, events: seq<Event>, n: nat, config: Config)
    requires n < |events| && Step(s, s', events[n], config)
    requires forall k :: k in s ==> FromLastPut(events, n, k, s[k], config)
    ensures forall k :: k in s' ==> FromLastPut(events, n + 1, k, s'[k], config)
  {
    hide LruCut, Refusal, Candidates, StreamBytes, PutStep, NewCapture;
    var e := events[n];
    forall k | k in s' ensures FromLastPut(events, n + 1, k, s'[k], config) {
      match e {
        case PutEvent(request, now, stored) =>
          PutKeepsOthers(s, s', request, now, config, stored, k);
        case GetEvent(_, _, _, _) =>
          assert k in s && s'[k].(lastAccess := 0) == s[k].(lastAccess := 0);
        case ReapEvent(_) =>
          assert k in s && s'[k] == s[k];
      }
    }
  }

  lemma {:induction false} RunKeepsContent(states: seq<Store>, events: seq<Event>, config: Config, n: nat)
    requires IsRun(states, events, config) && n < |states|
    ensures forall k :: k in states[n] ==> FromLastPut(events, n, k, states[n][k], config)
    decreases n
  {
    hide Step, FromLastPut;
    if n > 0 {
      RunKeepsContent(states, events, config, n - 1);
      StepKeepsContent(states[n - 1], states[n], events, n - 1, config);
    }
  }

  /**
   * Whatever happened in between, a Get that finds a capture returns the streams
   * that the last Put under that id was given, by the same owner, less than a TTL
   * before.
   */
  lemma GetReturnsWhatPutStored(states: seq<Store>, events: seq<Event>, config: Config, i: nat)
    requires IsRun(states, events, config) && i < |events|
    requires events[i].GetEvent? && events[i].found.Some?
    ensures var got, j := events[i].found.value, LastPut(events, i, events[i].id);
            && j.Some? && j.value < i && events[j.value].PutEvent?
            && got.id == events[i].id
            && got.streams == events[j.value].request.streams
            && got.sourceTruncated == events[j.value].request.sourceTruncated
            && got.node == events[j.value].request.node && got.verb == events[j.value].request.verb
            && got.requestId == events[j.value].request.requestId
            && got.createdAt == events[j.value].now && got.expiresAt == events[j.value].now + config.ttl
            && got.lastAccess == events[i].now
            && got.owner == events[j.value].request.owner == events[i].owner
            && events[i].now < events[j.value].now + config.ttl
  {
    RunKeepsContent(states, events, config, i);
    assert Step(states[i], states[i + 1], events[i], config);
  }

  lemma {:induction false} LastPutStored(events: seq<Event>, n: nat, id: string)
    requires n <= |events| && LastPut(events, n, id).Some?
    ensures var j := LastPut(events, n, id).value;
            j < n && events[j].PutEvent? && events[j].stored.Ok? && events[j].stored.value.id == id
    decreases n
  {
    var e := events[n - 1];
    if !(e.PutEvent? && e.stored.Ok? && e.stored.value.id == id) {
      LastPutStored(events, n - 1, id);
    }
  }

  /** A capture that is still in the store and unexpired is found by a Get of its owner, and by no other's. */
  lemma OwnersFindTheirCaptures(states: seq<Store>, events: seq<Event>, config: Config, i: nat)
    requires IsRun(states, events, config) && i < |events| && events[i].GetEvent?
    requires events[i].id in states[i] && events[i].now < states[i][events[i].id].expiresAt
    ensures events[i].found.Some? <==> events[i].owner == states[i][events[i].id].owner
  {
    hide WithinQuotas;
    RunKeepsQuotas(states, events, config, i);
    assert Step(states[i], states[i + 1], events[i], config);
  }

  /** What a Put stored, its owner's next Get finds, with the streams it was given, until it expires. */
  lemma StoredIsFoundNext(states: seq<Store>, events: seq<Event>, config: Config, i: nat)
    requires IsRun(states, events, config) && i + 1 < |events|
    requires events[i].PutEvent? && events[i].stored.Ok?
    requires events[i + 1].GetEvent? && events[i + 1].id == events[i].stored.value.id
    requires events[i + 1].owner == events[i].request.owner && events[i + 1].now < events[i].now + config.ttl
    ensures events[i + 1].found.Some? && events[i + 1].found.value.streams == events[i].request.streams
  {
    hide WithinQuotas, LruCut, Refusal, Candidates, StreamBytes;
    var e := events[i];
    assert Step(states[i], states[i + 1], e, config) && Step(states[i + 1], states[i + 2], events[i + 1], config);
    var owned, others :| PutEffect(states[i], states[i + 1], e.request, e.now, config, owned, others, e.stored);
    OwnersFindTheirCaptures(states, events, config, i + 1);
  }

  // ------------------------------------------------------------- order of use

  /** The event stored this capture, or found it. */
  ghost predicate Uses(e: Event, id: string) {
    match e
    case PutEvent(_, _, stored) => stored.Ok? && stored.value.id == id
    case GetEvent(sought, _, _, found) => sought == id && found.Some?
    case ReapEvent(_) => false
  }

  /** The last of the first n events that used id. */
  ghost function LastUse(events: seq<Event>, n: nat, id: string): Option<nat>
    requires n <= |events|
  {
    if n == 0 then None
    else if Uses(events[n - 1], id) then Some(n - 1)
    else LastUse(events, n - 1, id)
  }

  lemma {:induction false} LastUseUses(events: seq<Event>, n: nat, id: string)
    requires n <= |events| && LastUse(events, n, id).Some?
    ensures LastUse(events, n, id).value < n && Uses(events[LastUse(events, n, id).value], id)
    decreases n
  {
    if !Uses(events[n - 1], id) {
      LastUseUses(events, n - 1, id);
    }
  }

  /** A capture was last accessed at the reading of its last use. */
  ghost predicate AccessedAtLastUse(events: seq<Event>, n: nat, id: string, c: Capture)
    requires n <= |events|
  {
    var use := LastUse(events, n, id);
    use.Some? && use.value < n && c.lastAccess == events[use.value].now
  }

  lemma StepKeepsAccess(s: Store, s': Store, events: seq<Event>, n: nat, config: Config)
    requires n < |events| && Step(s, s', events[n], config)
    requires forall k :: k in s ==> AccessedAtLastUse(events, n, k, s[k])
    ensures forall k :: k in s' ==> AccessedAtLastUse(events, n + 1, k, s'[k])
  {
    hide LruCut, Refusal, Candidates, StreamBytes, PutStep;
    var e := events[n];
    forall k | k in s' ensures AccessedAtLastUse(events, n + 1, k, s'[k]) {
      if e.PutEvent? {
        PutKeepsOthers(s, s', e.request, e.now, config, e.stored, k);
      }
    }
  }

  lemma {:induction false} RunKeepsAccess(states: seq<Store>, events: seq<Event>, config: Config, n: nat)
    requires IsRun(states, events, config) && n < |states|
    ensures forall k :: k in states[n] ==> AccessedAtLastUse(events, n, k, states[n][k])
    decreases n
  {
    hide Step, AccessedAtLastUse;
    if n > 0 {
      RunKeepsAccess(states, events, config, n - 1);
      StepKeepsAccess(states[n - 1], states[n], events, n - 1, config);
    }
  }

  /** Readings strictly increase in the order the lock is taken. */
  ghost predicate Monotone(events: seq<Event>) {
    forall i, j :: 0 <= i < j < |events| ==> events[i].now < events[j].now
  }

  /**
   * With readings that increase in lock order, older means what it says: a capture is
   * older than another exactly if it was last stored or found before the other was.
   */
  lemma OlderMeansUsedBefore(states: seq<Store>, events: seq<Event>, config: Config, n: nat, j: string, k: string)
    requires IsRun(states, events, config) && n < |states| && Monotone(events)
    requires j in states[n] && k in states[n] && j != k
    ensures LastUse(events, n, j).Some? && LastUse(events, n, k).Some?
    ensures Older(states[n][j], states[n][k]) <==> LastUse(events, n, j).value < LastUse(events, n, k).value
  {
    hide Step;
    RunKeepsAccess(states, events, config, n);
    assert AccessedAtLastUse(events, n, j, states[n][j]) && AccessedAtLastUse(events, n, k, states[n][k]);
    LastUseUses(events, n, j);
    LastUseUses(events, n, k);
  }

  /**
   * If no two Puts read the same time, no two captures ever tie, so by LruCutIsLeast
   * each eviction takes the unique shortest least-recently-used prefix.
   */
  lemma DistinctClocksLeaveNoTies(states: seq<Store>, events: seq<Event>, config: Config, n: nat)
    requires IsRun(states, events, config) && n < |states|
    requires forall i, j :: 0 <= i < j < |events| && events[i].PutEvent? && events[j].PutEvent? ==>
              events[i].now != events[j].now
    ensures Untied(states[n])
  {
    hide Step;
    RunKeepsContent(states, events, config, n);
    forall j, k | j in states[n] && k in states[n] && j != k
      ensures Older(states[n][j], states[n][k]) || Older(states[n][k], states[n][j])
    {
      LastPutStored(events, n, j);
      LastPutStored(events, n, k);
      assert FromLastPut(events, n, j, states[n][j], config) && FromLastPut(events, n, k, states[n][k], config);
    }
  }
}
