/**
 * The capture store as a value: what each operation may do to the set of live
 * captures, stated without loops, counters or iteration order.
 */
module CaptureSpec {
  import opened Prelude
  import opened Text
  import opened ByteCodec

  /** Times are readings of one integer clock. */
  datatype Capture = Capture(
    id: string,
    owner: Owner,
    node: string,
    verb: string,
    requestId: string,
    createdAt: int,
    expiresAt: int,
    lastAccess: int,
    streams: map<string, string>,
    sourceTruncated: bool,
    bytes: nat)

  datatype Config = Config(
    ttl: int,
    maxEntries: int,
    maxBytes: int,
    maxOwnerEntries: int,
    maxOwnerBytes: int,
    maxIndividualBytes: int)

  type Store = map<string, Capture>

  // -------------------------------------------------------------------- sums

  ghost function Sum(weights: map<string, nat>): nat
    decreases |weights|
  {
    if weights == map[] then 0
    else
      var k :| k in weights;
      weights[k] + Sum(weights - {k})
  }

  lemma {:induction false} SumWithout(weights: map<string, nat>, k: string)
    requires k in weights
    ensures Sum(weights) == weights[k] + Sum(weights - {k})
    decreases |weights|
  {
    var j :| j in weights && Sum(weights) == weights[j] + Sum(weights - {j});
    if j != k {
      SumWithout(weights - {j}, k);
      SumWithout(weights - {k}, j);
      assert weights - {j} - {k} == weights - {k} - {j};
    }
  }

  lemma SumWith(weights: map<string, nat>, k: string, w: nat)
    requires k !in weights
    ensures Sum(weights[k := w]) == Sum(weights) + w
  {
    SumWithout(weights[k := w], k);
    assert weights[k := w] - {k} == weights;
  }

  lemma {:induction false} SumMonotone(less: map<string, nat>, more: map<string, nat>)
    requires less.Keys <= more.Keys && forall k :: k in less ==> less[k] == more[k]
    ensures Sum(less) <= Sum(more) && |less| <= |more|
    decreases |less|
  {
    if less != map[] {
      var k :| k in less;
      SumMonotone(less - {k}, more - {k});
      SumWithout(less, k);
      SumWithout(more, k);
    }
  }

  ghost function Weights(s: Store): map<string, nat> {
    map k | k in s :: s[k].bytes
  }

  /** What the running byte counter must equal. */
  ghost function Bytes(s: Store): nat {
    Sum(Weights(s))
  }

  ghost function Lengths(streams: map<string, string>): map<string, nat> {
    map name | name in streams :: ByteLen(streams[name])
  }

  ghost function StreamBytes(streams: map<string, string>): nat {
    Sum(Lengths(streams))
  }

  lemma BytesWithout(s: Store, k: string)
    requires k in s
    ensures Bytes(s) == s[k].bytes + Bytes(s - {k})
  {
    SumWithout(Weights(s), k);
    assert Weights(s) - {k} == Weights(s - {k});
  }

  lemma BytesWith(s: Store, k: string, c: Capture)
    requires k !in s
    ensures Bytes(s[k := c]) == Bytes(s) + c.bytes
  {
    SumWith(Weights(s), k, c.bytes);
    assert Weights(s)[k := c.bytes] == Weights(s[k := c]);
  }

  ghost predicate Within(less: Store, more: Store) {
    less.Keys <= more.Keys && forall k :: k in less ==> less[k] == more[k]
  }

  lemma BytesMonotone(less: Store, more: Store)
    requires Within(less, more)
    ensures Bytes(less) <= Bytes(more) && |less| <= |more|
  {
    SumMonotone(Weights(less), Weights(more));
    assert Weights(less).Keys == less.Keys && Weights(more).Keys == more.Keys;
    assert |less| == |less.Keys| && |more| == |more.Keys|;
    assert |Weights(less)| == |Weights(less).Keys| && |Weights(more)| == |Weights(more).Keys|;
  }

  // ------------------------------------------------------------------- quotas

  ghost function Live(s: Store, now: int): Store {
    map k | k in s && now < s[k].expiresAt :: s[k]
  }

  /** The captures an eviction may choose from: one owner's, or everyone's. */
  ghost function Candidates(s: Store, scope: Option<Owner>): Store {
    map k | k in s && (scope == None || s[k].owner == scope.value) :: s[k]
  }

  function EntryLimit(config: Config, scope: Option<Owner>): int {
    if scope == None then config.maxEntries else config.maxOwnerEntries
  }

  function ByteLimit(config: Config, scope: Option<Owner>): int {
    if scope == None then config.maxBytes else config.maxOwnerBytes
  }

  /** There is room for one more capture of size bytes. */
  ghost predicate Fits(s: Store, scope: Option<Owner>, size: nat, config: Config) {
    var c := Candidates(s, scope);
    |c| < EntryLimit(config, scope) && Bytes(c) + size <= ByteLimit(config, scope)
  }

  predicate Older(a: Capture, b: Capture) {
    a.lastAccess < b.lastAccess || (a.lastAccess == b.lastAccess && a.createdAt < b.createdAt)
  }

  /** victim is a least recently used candidate. */
  ghost predicate Oldest(s: Store, scope: Option<Owner>, victim: string) {
    && victim in Candidates(s, scope)
    && forall k :: k in Candidates(s, scope) ==> !Older(s[k], s[victim])
  }

  /** No candidate that stays is older than one that goes. */
  ghost predicate LruClosed(s: Store, scope: Option<Owner>, removed: set<string>) {
    && removed <= Candidates(s, scope).Keys
    && forall r, k :: r in removed && k in Candidates(s, scope) && k !in removed ==> !Older(s[k], s[r])
  }

  /**
   * The captures removed make room, oldest first, and no more than needed: putting
   * back the newest of them would leave no room.
   */
  ghost predicate LruCut(s: Store, scope: Option<Owner>, size: nat, config: Config, removed: set<string>) {
    && LruClosed(s, scope, removed)
    && Fits(s - removed, scope, size, config)
    && (removed != {} ==> exists last :: Newest(s, removed, last) && !Fits(s - (removed - {last}), scope, size, config))
  }

  ghost predicate Newest(s: Store, removed: set<string>, last: string) {
    last in removed && removed <= s.Keys && forall r :: r in removed ==> !Older(s[last], s[r])
  }

  lemma FitsAfterMore(s: Store, scope: Option<Owner>, size: nat, config: Config, fewer: set<string>, more: set<string>)
    requires fewer <= more && Fits(s - fewer, scope, size, config)
    ensures Fits(s - more, scope, size, config)
  {
    BytesMonotone(Candidates(s - more, scope), Candidates(s - fewer, scope));
  }

  /** Nothing is evicted when there is room already. */
  lemma NoNeedlessEviction(s: Store, scope: Option<Owner>, size: nat, config: Config, removed: set<string>)
    requires LruCut(s, scope, size, config, removed)
    ensures removed == {} <==> Fits(s, scope, size, config)
  {
    assert s - {} == s;
    if removed != {} && Fits(s, scope, size, config) {
      var last :| Newest(s, removed, last) && !Fits(s - (removed - {last}), scope, size, config);
      FitsAfterMore(s, scope, size, config, {}, removed - {last});
      assert false;
    }
  }

  ghost predicate Untied(s: Store) {
    forall j, k :: j in s && k in s && j != k ==> Older(s[j], s[k]) || Older(s[k], s[j])
  }

  /**
   * When no two captures tie, the evicted set lies inside every least-recently-used
   * prefix that makes room: it is the shortest one, and it is unique.
   */
  lemma LruCutIsLeast(s: Store, scope: Option<Owner>, size: nat, config: Config, removed: set<string>,
                      other: set<string>)
    requires Untied(s)
    requires LruCut(s, scope, size, config, removed)
    requires LruClosed(s, scope, other) && Fits(s - other, scope, size, config)
    ensures removed <= other
  {
    hide Fits, Bytes;
    if removed != {} {
      var last :| Newest(s, removed, last) && !Fits(s - (removed - {last}), scope, size, config);
      if last !in other {
        forall r | r in other ensures r in removed - {last} {
          assert r in Candidates(s, scope) && last in Candidates(s, scope);
        }
        FitsAfterMore(s, scope, size, config, other, removed - {last});
        assert false;
      }
    }
  }

  /** The five quotas, for a configuration with any limits. */
  ghost predicate WithinQuotas(s: Store, config: Config) {
    && |s| <= Max(config.maxEntries, 0) && Bytes(s) <= Max(config.maxBytes, 0)
    && (forall k :: k in s ==> s[k].bytes <= config.maxIndividualBytes)
    && (forall owner ::
          && |Candidates(s, Some(owner))| <= Max(config.maxOwnerEntries, 0)
          && Bytes(Candidates(s, Some(owner))) <= Max(config.maxOwnerBytes, 0))
  }

  lemma QuotasOfFewer(less: Store, more: Store, config: Config)
    requires Within(less, more) && WithinQuotas(more, config)
    ensures WithinQuotas(less, config)
  {
    BytesMonotone(less, more);
    forall owner
      ensures |Candidates(less, Some(owner))| <= Max(config.maxOwnerEntries, 0)
      ensures Bytes(Candidates(less, Some(owner))) <= Max(config.maxOwnerBytes, 0)
    {
      BytesMonotone(Candidates(less, Some(owner)), Candidates(more, Some(owner)));
    }
  }

  lemma CandidatesWith(s: Store, c: Capture, scope: Option<Owner>)
    requires c.id !in s
    ensures Candidates(s[c.id := c], scope) ==
            if scope == None || c.owner == scope.value then Candidates(s, scope)[c.id := c] else Candidates(s, scope)
  {
  }

  /** Room in both scopes is what the quotas need to survive an insertion. */
  lemma QuotasOfInsertion(s: Store, c: Capture, config: Config)
    requires c.id !in s && WithinQuotas(s, config) && c.bytes <= config.maxIndividualBytes
    requires Fits(s, Some(c.owner), c.bytes, config) && Fits(s, None, c.bytes, config)
    ensures WithinQuotas(s[c.id := c], config)
  {
    var s' := s[c.id := c];
    BytesWith(s, c.id, c);
    assert Candidates(s, None) == s;
    forall owner
      ensures |Candidates(s', Some(owner))| <= Max(config.maxOwnerEntries, 0)
      ensures Bytes(Candidates(s', Some(owner))) <= Max(config.maxOwnerBytes, 0)
    {
      CandidatesWith(s, c, Some(owner));
      if owner == c.owner {
        BytesWith(Candidates(s, Some(owner)), c.id, c);
      }
    }
  }

  // --------------------------------------------------------------- operations

  datatype PutRequest = PutRequest(
    owner: Owner,
    node: string,
    verb: string,
    requestId: string,
    streams: map<string, string>,
    sourceTruncated: bool)

  datatype PutError =
    | UnsupportedStream
    | MissingIdentity
    | OverIndividualLimit
    | OverStoreQuota
    | MintFailed
    | OwnerQuotaUnavailable
    | StoreQuotaUnavailable

  predicate SupportedStreams(streams: map<string, string>) {
    forall name :: name in streams ==> name == "stdout" || name == "stderr"
  }

  /** The checks made before the store is touched. */
  ghost function Refusal(request: PutRequest, config: Config): Option<PutError> {
    var size := StreamBytes(request.streams);
    if !SupportedStreams(request.streams) then Some(UnsupportedStream)
    else if request.owner.tid == "" || request.owner.oid == "" || request.owner.appId == "" then Some(MissingIdentity)
    else if size > config.maxIndividualBytes then Some(OverIndividualLimit)
    else if size > config.maxOwnerBytes || size > config.maxBytes then Some(OverStoreQuota)
    else None
  }

  ghost function NewCapture(id: string, request: PutRequest, now: int, config: Config): Capture {
    Capture(id, request.owner, request.node, request.verb, request.requestId, now, now + config.ttl, now,
            request.streams, request.sourceTruncated, StreamBytes(request.streams))
  }

  /**
   * A Put that passed its checks, with the captures it evicted from its own owner
   * and then from everyone. A quota failure needs a limit that admits no entry.
   */
  ghost predicate PutEffect(s: Store, s': Store, request: PutRequest, now: int, config: Config,
                            owned: set<string>, others: set<string>, res: Result<Capture, PutError>)
  {
    var live, size := Live(s, now), StreamBytes(request.streams);
    if config.maxOwnerEntries <= 0 then
      res == Err(OwnerQuotaUnavailable) && s' == live - Candidates(live, Some(request.owner)).Keys
    else
      && LruCut(live, Some(request.owner), size, config, owned)
      && if config.maxEntries <= 0 then res == Err(StoreQuotaUnavailable) && s' == map[]
         else
           && LruCut(live - owned, None, size, config, others)
           && var kept := live - owned - others;
              match res
              case Err(e) => e == MintFailed && s' == kept
              case Ok(c) =>
                && c == NewCapture(c.id, request, now, config) && ValidCaptureID(c.id)
                && c.id !in kept && s' == kept[c.id := c]
  }

  ghost predicate PutStep(s: Store, s': Store, request: PutRequest, now: int, config: Config,
                          res: Result<Capture, PutError>)
  {
    match Refusal(request, config)
    case Some(e) => res == Err(e) && s' == s
    case None =>
      || (res == Err(MintFailed) && s' == s)
      || exists owned, others :: PutEffect(s, s', request, now, config, owned, others, res)
  }

  predicate ValidCaptureID(id: string) {
    |id| == 36 && id[..4] == "cap_" && forall i :: 4 <= i < 36 ==> HexValue(id[i]).Some?
  }

  ghost predicate GetStep(s: Store, s': Store, id: string, owner: Owner, now: int, res: Option<Capture>) {
    if !ValidCaptureID(id) then res == None && s' == s
    else
      var live := Live(s, now);
      if id in live && live[id].owner == owner
      then res == Some(live[id].(lastAccess := now)) && s' == live[id := res.value]
      else res == None && s' == live
  }

  /** The first phase can take another owner's capture in no case; the second only for want of global room. */
  lemma EvictionIsFair(s: Store, s': Store, request: PutRequest, now: int, config: Config,
                       owned: set<string>, others: set<string>, res: Result<Capture, PutError>, k: string)
    requires PutEffect(s, s', request, now, config, owned, others, res) && res.Ok?
    requires k in Live(s, now) && k !in s'
    ensures s[k].owner == request.owner || !Fits(Live(s, now) - owned, None, StreamBytes(request.streams), config)
    ensures owned != {} ==> !Fits(Live(s, now), Some(request.owner), StreamBytes(request.streams), config)
  {
    var live, size := Live(s, now), StreamBytes(request.streams);
    NoNeedlessEviction(live, Some(request.owner), size, config, owned);
    NoNeedlessEviction(live - owned, None, size, config, others);
    assert k in owned || k in others;
  }
}
