/** The ephemeral capture store: an in-memory map with a TTL, quotas and LRU eviction. */
module CaptureStore {
  import opened Prelude
  import opened Text
  import opened ByteCodec
  import opened CaptureSpec

  /** One successful read of the random source. */
  type RawID = raw: seq<Byte> | |raw| == 16 witness seq(16, _ => 0)

  function MintCaptureID(raw: RawID): (id: string)
    ensures ValidCaptureID(id)
    ensures |id| == 36 && id[..4] == "cap_" && DecodeHex(id[4..]) == Some(raw)
  {
    DecodeHexOfEncode(raw);
    assert ("cap_" + EncodeHex(raw))[4..] == EncodeHex(raw);
    "cap_" + EncodeHex(raw)
  }

  /** The store part-way through a reap: expired captures still pending are there. */
  ghost function Unreaped(s: Store, now: int, pending: set<string>): Store {
    map k | k in s && (k in pending || now < s[k].expiresAt) :: s[k]
  }

  lemma ReapStep(s: Store, now: int, pending: set<string>, id: string)
    requires id in pending && pending <= s.Keys
    ensures Unreaped(s, now, pending - {id}) ==
            if now < s[id].expiresAt then Unreaped(s, now, pending) else Unreaped(s, now, pending) - {id}
  {
  }

  /** A loop over the map that visits id next sees one more candidate, or the same. */
  lemma VisitStep(s: Store, scope: Option<Owner>, pending: set<string>, id: string)
    requires id in pending && pending <= s.Keys
    ensures var seen, now := Candidates(s - pending, scope), Candidates(s - (pending - {id}), scope);
            if scope == None || s[id].owner == scope.value
            then |now| == |seen| + 1 && Bytes(now) == Bytes(seen) + s[id].bytes
            else now == seen
  {
    var seen, now := Candidates(s - pending, scope), Candidates(s - (pending - {id}), scope);
    hide Bytes;
    if scope == None || s[id].owner == scope.value {
      assert now == seen[id := s[id]];
      BytesWith(seen, id, s[id]);
    } else {
      assert now == seen;
    }
  }

  lemma VisitEnds(s: Store, scope: Option<Owner>)
    ensures Candidates(s - s.Keys, scope) == map[] && Bytes(map[]) == 0
    ensures Candidates(s - {}, scope) == Candidates(s, scope)
  {
  }

  class CapturedOutput {
    const id: string
    const owner: Owner
    const node: string
    const verb: string
    const requestId: string
    const createdAt: int
    const expiresAt: int
    var lastAccess: int
    const streams: map<string, string>
    const sourceTruncated: bool
    const bytes: nat

    constructor (id: string, request: PutRequest, streams: map<string, string>, bytes: nat, now: int, ttl: int)
      ensures View() == Capture(id, request.owner, request.node, request.verb, request.requestId, now, now + ttl, now,
                                streams, request.sourceTruncated, bytes)
    {
      this.id, owner, node, verb, requestId := id, request.owner, request.node, request.verb, request.requestId;
      createdAt, expiresAt, lastAccess := now, now + ttl, now;
      this.streams, sourceTruncated, this.bytes := streams, request.sourceTruncated, bytes;
    }

    ghost function View(): Capture
      reads this
    {
      Capture(id, owner, node, verb, requestId, createdAt, expiresAt, lastAccess, streams, sourceTruncated, bytes)
    }
  }

  class Captures {
    var captures: map<string, CapturedOutput>
    var bytes: int
    const config: Config

    ghost function View(): Store
      reads this, captures.Values
    {
      map id | id in captures :: captures[id].View()
    }

    ghost predicate Valid()
      reads this, captures.Values
    {
      && (forall id :: id in captures ==> captures[id].id == id)
      && bytes == Bytes(View())
      && WithinQuotas(View(), config)
    }

    constructor (config: Config)
      ensures Valid() && View() == map[] && this.config == config
    {
      captures, bytes := map[], 0;
      this.config := config;
      new;
      EmptyWithinQuotas(config);
    }

    method RemoveLocked(id: string)
      requires forall k :: k in captures ==> captures[k].id == k
      requires bytes == Bytes(View())
      modifies this
      ensures captures == old(captures) - {id}
      ensures View() == old(View()) - {id}
      ensures bytes == Bytes(View())
    {
      if id in captures {
        BytesWithout(View(), id);
        bytes := bytes - captures[id].bytes;
        captures := captures - {id};
        assert View() == old(View()) - {id};
      } else {
        assert captures == captures - {id};
        assert View() == old(View()) - {id};
      }
    }

    method ReapExpiredLocked(now: int)
      requires Valid()
      modifies this
      ensures Valid() && captures.Values <= old(captures.Values)
      ensures View() == Live(old(View()), now)
    {
      ghost var before := View();
      var pending := captures.Keys;
      hide Bytes, WithinQuotas;
      assert before == Unreaped(before, now, pending);
      while pending != {}
        invariant pending <= captures.Keys
        invariant captures.Values <= old(captures.Values)
        invariant forall k :: k in captures ==> captures[k].id == k
        invariant View() == Unreaped(before, now, pending)
        invariant bytes == Bytes(View())
        decreases pending
      {
        var id :| id in pending;
        ReapStep(before, now, pending, id);
        pending := pending - {id};
        assert View()[id] == captures[id].View();
        if !(now < captures[id].expiresAt) {
          RemoveLocked(id);
        }
      }
      assert View() == Live(before, now);
      QuotasOfFewer(View(), before, config);
    }

    method OwnerCountLocked(owner: Owner) returns (count: nat)
      ensures count == |Candidates(View(), Some(owner))|
    {
      hide Candidates, Bytes;
      ghost var view := View();
      count := 0;
      var pending := captures.Keys;
      assert pending == view.Keys;
      VisitEnds(view, Some(owner));
      while pending != {}
        invariant pending <= view.Keys
        invariant count == |Candidates(view - pending, Some(owner))|
        decreases pending
      {
        var id :| id in pending;
        VisitStep(view, Some(owner), pending, id);
        pending := pending - {id};
        if captures[id].owner == owner {
          count := count + 1;
        }
      }
    }

    method OwnerBytesLocked(owner: Owner) returns (size: nat)
      ensures size == Bytes(Candidates(View(), Some(owner)))
    {
      hide Candidates, Bytes;
      ghost var view := View();
      size := 0;
      var pending := captures.Keys;
      assert pending == view.Keys;
      VisitEnds(view, Some(owner));
      while pending != {}
        invariant pending <= view.Keys
        invariant size == Bytes(Candidates(view - pending, Some(owner)))
        decreases pending
      {
        var id :| id in pending;
        VisitStep(view, Some(owner), pending, id);
        pending := pending - {id};
        if captures[id].owner == owner {
          size := size + captures[id].bytes;
        }
      }
    }

    /** Removes a least recently used candidate, if there is one; ties are broken arbitrarily. */
    method EvictOldestLocked(scope: Option<Owner>) returns (evicted: bool, ghost victim: string)
      requires forall k :: k in captures ==> captures[k].id == k
      requires bytes == Bytes(View())
      modifies this
      ensures forall k :: k in captures ==> captures[k].id == k
      ensures bytes == Bytes(View())
      ensures evicted <==> Candidates(old(View()), scope) != map[]
      ensures !evicted ==> View() == old(View())
      ensures evicted ==>
                && Oldest(old(View()), scope, victim)
                && victim in old(View()) && View() == old(View()) - {victim}
    {
      var oldest: CapturedOutput? := null;
      var pending := captures.Keys;
      while pending != {}
        invariant pending <= captures.Keys
        invariant oldest == null ==> forall k :: k in Candidates(View(), scope) ==> k in pending
        invariant oldest != null ==>
                    && oldest.id in captures && captures[oldest.id] == oldest
                    && oldest.id in Candidates(View(), scope)
                    && forall k :: k in Candidates(View(), scope) && k !in pending ==> !Older(View()[k], oldest.View())
        decreases pending
      {
        var id :| id in pending;
        pending := pending - {id};
        var candidate := captures[id];
        if scope != None && candidate.owner != scope.value {
          continue;
        }
        if oldest == null || candidate.lastAccess < oldest.lastAccess ||
           (candidate.lastAccess == oldest.lastAccess && candidate.createdAt < oldest.createdAt)
        {
          oldest := candidate;
        }
      }
      victim := "";
      if oldest == null {
        return false, victim;
      }
      victim := oldest.id;
      RemoveLocked(oldest.id);
      return true, victim;
    }

    method OwnerHasRoomLocked(owner: Owner, size: nat) returns (room: bool)
      ensures room <==> Fits(View(), Some(owner), size, config)
      ensures View() == old(View())
    {
      var count := OwnerCountLocked(owner);
      var total := OwnerBytesLocked(owner);
      return !(count >= config.maxOwnerEntries || total + size > config.maxOwnerBytes);
    }

    method HasRoomLocked(size: nat) returns (room: bool)
      requires bytes == Bytes(View())
      ensures room <==> Fits(View(), None, size, config)
      ensures View() == old(View())
    {
      EveryoneIsACandidate(View());
      SameSize();
      return !(|captures| >= config.maxEntries || bytes + size > config.maxBytes);
    }

    /** Evicts the owner's own captures, oldest first, until one of size bytes fits. */
    method MakeOwnerRoomLocked(owner: Owner, size: nat) returns (ok: bool, ghost removed: set<string>)
      requires forall k :: k in captures ==> captures[k].id == k
      requires bytes == Bytes(View()) && size <= config.maxOwnerBytes
      modifies this
      ensures forall k :: k in captures ==> captures[k].id == k
      ensures bytes == Bytes(View())
      ensures View() == old(View()) - removed
      ensures ok ==> LruCut(old(View()), Some(owner), size, config, removed)
      ensures ok <==> 0 < config.maxOwnerEntries
      ensures !ok ==> removed == Candidates(old(View()), Some(owner)).Keys
    {
      hide LruProgress, LruCut, LruClosed, Oldest, Fits, Candidates;
      ghost var before := View();
      removed := {};
      assert before - {} == before;
      ProgressStarts(before, Some(owner), size, config);
      while true
        invariant forall k :: k in captures ==> captures[k].id == k
        invariant bytes == Bytes(View())
        invariant View() == before - removed
        invariant LruProgress(before, Some(owner), size, config, removed)
        decreases before.Keys - removed
      {
        ghost var view := View();
        var room := OwnerHasRoomLocked(owner, size);
        if room {
          ProgressEnds(before, view, Some(owner), size, config, removed);
          return true, removed;
        }
        var evicted;
        ghost var victim;
        evicted, victim := EvictOldestLocked(Some(owner));
        if !evicted {
          NothingLeft(before, view, Some(owner), size, config, removed);
          return false, removed;
        }
        EvictStep(before, view, Some(owner), size, config, removed, victim);
        removed := removed + {victim};
      }
    }

    /** Evicts anyone's captures, oldest first, until one of size bytes fits. */
    method MakeRoomLocked(size: nat) returns (ok: bool, ghost removed: set<string>)
      requires forall k :: k in captures ==> captures[k].id == k
      requires bytes == Bytes(View()) && size <= config.maxBytes
      modifies this
      ensures forall k :: k in captures ==> captures[k].id == k
      ensures bytes == Bytes(View())
      ensures View() == old(View()) - removed
      ensures ok ==> LruCut(old(View()), None, size, config, removed)
      ensures ok <==> 0 < config.maxEntries
      ensures !ok ==> View() == map[]
    {
      hide LruProgress, LruCut, LruClosed, Oldest, Fits, Candidates;
      ghost var before := View();
      removed := {};
      assert before - {} == before;
      ProgressStarts(before, None, size, config);
      while true
        invariant forall k :: k in captures ==> captures[k].id == k
        invariant bytes == Bytes(View())
        invariant View() == before - removed
        invariant LruProgress(before, None, size, config, removed)
        decreases before.Keys - removed
      {
        ghost var view := View();
        var room := HasRoomLocked(size);
        if room {
          ProgressEnds(before, view, None, size, config, removed);
          return true, removed;
        }
        var evicted;
        ghost var victim;
        evicted, victim := EvictOldestLocked(None);
        if !evicted {
          NothingLeft(before, view, None, size, config, removed);
          return false, removed;
        }
        EvictStep(before, view, None, size, config, removed, victim);
        removed := removed + {victim};
      }
    }

    lemma SameSize()
      ensures |View()| == |captures|
    {
      assert View().Keys == captures.Keys;
      assert |View()| == |View().Keys| && |captures| == |captures.Keys|;
    }

    method InsertLocked(id: string, request: PutRequest, copied: map<string, string>, size: nat, now: int)
      returns (capture: CapturedOutput)
      requires Valid() && id !in captures
      requires copied == request.streams && size == StreamBytes(request.streams) <= config.maxIndividualBytes
      requires Fits(View(), Some(request.owner), size, config) && Fits(View(), None, size, config)
      modifies this
      ensures Valid()
      ensures fresh(capture) && id in captures && captures[id] == capture
      ensures capture.View() == NewCapture(id, request, now, config)
      ensures View() == old(View())[id := NewCapture(id, request, now, config)]
    {
      hide WithinQuotas, Fits, Bytes, StreamBytes;
      ghost var kept, entry := View(), NewCapture(id, request, now, config);
      QuotasOfInsertion(kept, entry, config);
      BytesWith(kept, id, entry);
      capture := new CapturedOutput(id, request, copied, size, now, config.ttl);
      captures := captures[id := capture];
      bytes := bytes + size;
      assert capture.View() == entry;
      assert View() == kept[id := entry];
    }

    /** The first id drawn that is not taken. */
    method PickFree(first: string, minted: seq<RawID>) returns (id: Option<string>)
      requires ValidCaptureID(first)
      ensures id.Some? ==> ValidCaptureID(id.value)
      ensures id.Some? ==>
                id.value !in captures &&
                (id.value == first || exists k :: 0 <= k < |minted| && id.value == MintCaptureID(minted[k]))
      ensures id.None? ==> AllTaken(View(), first, minted)
      ensures View() == old(View())
    {
      hide MintCaptureID, ValidCaptureID;
      ghost var view := View();
      assert view.Keys == captures.Keys;
      var drawn := first;
      for next := 0 to |minted|
        invariant ValidCaptureID(drawn) && drawn == if next == 0 then first else MintCaptureID(minted[next - 1])
        invariant next > 0 ==> first in view
        invariant forall k :: 0 <= k < next - 1 ==> MintCaptureID(minted[k]) in view
      {
        if drawn !in captures {
          return Some(drawn);
        }
        drawn := MintCaptureID(minted[next]);
      }
      return if drawn in captures then None else Some(drawn);
    }

    /** The locked part of Put: reap, make room in both scopes, pick a free id, insert. */
    method PutLocked(request: PutRequest, copied: map<string, string>, size: nat, now: int, first: string,
                     minted: seq<RawID>)
      returns (res: Result<CapturedOutput, PutError>, ghost owned: set<string>, ghost others: set<string>)
      requires Valid() && Refusal(request, config) == None
      requires copied == request.streams && size == StreamBytes(request.streams) && ValidCaptureID(first)
      modifies this
      ensures Valid()
      ensures res.Ok? ==> fresh(res.value) && res.value.id in captures && captures[res.value.id] == res.value
      ensures PutEffect(old(View()), View(), request, now, config, owned, others, ViewOf(res))
      ensures res == Err(MintFailed) ==> AllTaken(old(View()), first, minted)
    {
      hide LruCut, Fits, Candidates, WithinQuotas, PutEffect, Live, AllTaken, Bytes, StreamBytes, NewCapture,
           ValidCaptureID;
      ghost var before := View();
      owned, others := {}, {};
      ReapExpiredLocked(now);
      ghost var live := View();
      var ok;
      ok, owned := MakeOwnerRoomLocked(request.owner, size);
      QuotasOfFewer(View(), live, config);
      if !ok {
        PutFails(before, View(), request, now, config, owned, others);
        return Err(OwnerQuotaUnavailable), owned, others;
      }
      ok, others := MakeRoomLocked(size);
      QuotasOfFewer(View(), live, config);
      if !ok {
        PutFails(before, View(), request, now, config, owned, others);
        return Err(StoreQuotaUnavailable), owned, others;
      }
      ghost var kept := View();
      PutFits(live, kept, Some(request.owner), size, config, owned, others);
      PutExhausts(before, kept, request, now, config, owned, others);
      var picked := PickFree(first, minted);
      if picked.None? {
        TakenBefore(before, kept, now, owned, others, first, minted);
        return Err(MintFailed), owned, others;
      }
      var id := picked.value;
      assert View() == kept;
      var capture := InsertLocked(id, request, copied, size, now);
      PutStores(before, kept, request, now, config, owned, others, id);
      return Ok(capture), owned, others;
    }

    method Put(request: PutRequest, now: int, minted: seq<RawID>) returns (res: Result<CapturedOutput, PutError>)
      requires Valid()
      modifies this
      ensures Valid()
      ensures res.Ok? ==> fresh(res.value) && res.value.id in captures && captures[res.value.id] == res.value
      ensures PutStep(old(View()), View(), request, now, config, ViewOf(res))
      ensures Refusal(request, config) == None && 0 < config.maxOwnerEntries && 0 < config.maxEntries ==>
                (exists k :: 0 <= k < |minted| && MintCaptureID(minted[k]) !in old(View())) ==> res.Ok?
    {
      hide PutEffect, WithinQuotas;
      var supported, copied, size := CopyStreams(request.streams);
      if !supported {
        return Err(UnsupportedStream);
      }
      if request.owner.tid == "" || request.owner.oid == "" || request.owner.appId == "" {
        return Err(MissingIdentity);
      }
      if size > config.maxIndividualBytes {
        return Err(OverIndividualLimit);
      }
      if size > config.maxOwnerBytes || size > config.maxBytes {
        return Err(OverStoreQuota);
      }
      if |minted| == 0 {
        return Err(MintFailed);
      }
      ghost var owned, others;
      ghost var before := View();
      var rest := minted[1..];
      res, owned, others := PutLocked(request, copied, size, now, MintCaptureID(minted[0]), rest);
      OnlyMintingFails(before, View(), request, now, config, owned, others, ViewOf(res));
      assert forall k :: 1 <= k < |minted| ==> minted[k] == rest[k - 1];
    }

    method Get(id: string, owner: Owner, now: int) returns (res: CapturedOutput?)
      requires Valid()
      modifies this, captures.Values
      ensures Valid()
      ensures res != null ==> res in old(captures.Values)
      ensures GetStep(old(View()), View(), id, owner, now, if res == null then None else Some(res.View()))
    {
      hide WithinQuotas, Bytes;
      if !ValidCaptureID(id) {
        return null;
      }
      ReapExpiredLocked(now);
      ghost var live := View();
      if id !in captures || captures[id].owner != owner {
        return null;
      }
      var capture := captures[id];
      capture.lastAccess := now;
      assert View() == Touched(live, id, now);
      TouchKeepsQuotas(live, id, now, config);
      return capture;
    }
  }

  ghost function ViewOf(res: Result<CapturedOutput, PutError>): Result<Capture, PutError>
    reads if res.Ok? then {res.value} else {}
  {
    match res
    case Ok(c) => Ok(c.View())
    case Err(e) => Err(e)
  }

  /** Copies the streams and adds up their sizes; refuses a name it does not know. */
  method CopyStreams(streams: map<string, string>) returns (supported: bool, copied: map<string, string>, size: nat)
    ensures supported <==> SupportedStreams(streams)
    ensures supported ==> copied == streams && size == StreamBytes(streams)
  {
    copied, size := map[], 0;
    var pending := streams.Keys;
    while pending != {}
      invariant pending <= streams.Keys
      invariant forall name :: name in streams && name !in pending ==> name == "stdout" || name == "stderr"
      invariant copied == streams - pending
      invariant size == StreamBytes(copied)
      decreases pending
    {
      var name :| name in pending;
      if name != "stdout" && name != "stderr" {
        return false, copied, size;
      }
      pending := pending - {name};
      StreamBytesWith(copied, name, streams[name]);
      copied := copied[name := streams[name]];
      size := size + ByteLen(streams[name]);
    }
    supported := true;
  }

  lemma StreamBytesWith(streams: map<string, string>, name: string, content: string)
    requires name !in streams
    ensures StreamBytes(streams[name := content]) == StreamBytes(streams) + ByteLen(content)
  {
    SumWith(Lengths(streams), name, ByteLen(content));
    assert Lengths(streams)[name := ByteLen(content)] == Lengths(streams[name := content]);
  }

  lemma CutFits(s: Store, scope: Option<Owner>, size: nat, config: Config, removed: set<string>)
    requires LruCut(s, scope, size, config, removed)
    ensures Fits(s - removed, scope, size, config)
  {
  }

  /** Room made for the owner is still there after evicting from everyone. */
  lemma PutFits(live: Store, kept: Store, scope: Option<Owner>, size: nat, config: Config, owned: set<string>,
                others: set<string>)
    requires LruCut(live, scope, size, config, owned)
    requires LruCut(live - owned, None, size, config, others)
    requires kept == live - owned - others
    ensures Fits(kept, scope, size, config) && Fits(kept, None, size, config)
  {
    hide Fits, LruCut;
    CutFits(live, scope, size, config, owned);
    CutFits(live - owned, None, size, config, others);
    FitsAfterMore(live, scope, size, config, owned, owned + others);
    assert kept == live - (owned + others);
  }

  ghost predicate AllTaken(s: Store, first: string, minted: seq<RawID>) {
    first in s && forall k :: 0 <= k < |minted| ==> MintCaptureID(minted[k]) in s
  }

  lemma TakenBefore(s: Store, kept: Store, now: int, owned: set<string>, others: set<string>, first: string,
                    minted: seq<RawID>)
    requires kept == Live(s, now) - owned - others && AllTaken(kept, first, minted)
    ensures AllTaken(s, first, minted)
  {
  }

  /** With limits that admit an entry the quota failures do not happen. */
  lemma OnlyMintingFails(s: Store, s': Store, request: PutRequest, now: int, config: Config,
                         owned: set<string>, others: set<string>, res: Result<Capture, PutError>)
    requires PutEffect(s, s', request, now, config, owned, others, res)
    ensures 0 < config.maxOwnerEntries && 0 < config.maxEntries ==> res.Ok? || res.error == MintFailed
  {
    hide LruCut, Live;
  }

  /** Every id drawn was taken. */
  lemma PutExhausts(s: Store, kept: Store, request: PutRequest, now: int, config: Config, owned: set<string>,
                    others: set<string>)
    requires 0 < config.maxOwnerEntries && 0 < config.maxEntries
    requires LruCut(Live(s, now), Some(request.owner), StreamBytes(request.streams), config, owned)
    requires LruCut(Live(s, now) - owned, None, StreamBytes(request.streams), config, others)
    requires kept == Live(s, now) - owned - others
    ensures PutEffect(s, kept, request, now, config, owned, others, Err(MintFailed))
  {
    hide Fits, LruCut, Live;
  }

  lemma PutFails(s: Store, left: Store, request: PutRequest, now: int, config: Config, owned: set<string>,
                 others: set<string>)
    requires config.maxOwnerEntries <= 0 || config.maxEntries <= 0
    requires config.maxOwnerEntries <= 0 ==> left == Live(s, now) - Candidates(Live(s, now), Some(request.owner)).Keys
    requires 0 < config.maxOwnerEntries ==>
               && left == map[]
               && LruCut(Live(s, now), Some(request.owner), StreamBytes(request.streams), config, owned)
    ensures PutEffect(s, left, request, now, config, owned, others,
                      Err(if config.maxOwnerEntries <= 0 then OwnerQuotaUnavailable else StoreQuotaUnavailable))
  {
  }

  lemma PutStores(s: Store, kept: Store, request: PutRequest, now: int, config: Config, owned: set<string>,
                  others: set<string>, id: string)
    requires PutEffect(s, kept, request, now, config, owned, others, Err(MintFailed)) && id !in kept &&
             ValidCaptureID(id)
    requires 0 < config.maxOwnerEntries && 0 < config.maxEntries
    ensures PutEffect(s, kept[id := NewCapture(id, request, now, config)], request, now, config, owned, others,
                      Ok(NewCapture(id, request, now, config)))
  {
  }

  ghost function Touched(s: Store, id: string, now: int): Store
    requires id in s
  {
    s[id := s[id].(lastAccess := now)]
  }

  lemma TouchKeepsSums(s: Store, id: string, now: int, scope: Option<Owner>)
    requires id in s
    ensures |Candidates(Touched(s, id, now), scope)| == |Candidates(s, scope)|
    ensures Bytes(Candidates(Touched(s, id, now), scope)) == Bytes(Candidates(s, scope))
  {
    var c, c' := Candidates(s, scope), Candidates(Touched(s, id, now), scope);
    assert c'.Keys == c.Keys && |c'| == |c'.Keys| && |c| == |c.Keys|;
    assert Weights(c') == Weights(c);
  }

  lemma TouchKeepsQuotas(s: Store, id: string, now: int, config: Config)
    requires id in s && WithinQuotas(s, config)
    ensures Bytes(Touched(s, id, now)) == Bytes(s) && WithinQuotas(Touched(s, id, now), config)
  {
    hide Candidates, Bytes;
    var s' := Touched(s, id, now);
    EveryoneIsACandidate(s);
    EveryoneIsACandidate(s');
    TouchKeepsSums(s, id, now, None);
    forall owner
      ensures |Candidates(s', Some(owner))| <= Max(config.maxOwnerEntries, 0)
      ensures Bytes(Candidates(s', Some(owner))) <= Max(config.maxOwnerBytes, 0)
    {
      TouchKeepsSums(s, id, now, Some(owner));
    }
  }

  /** Removed so far: least recently used, and each time for want of room. */
  ghost predicate LruProgress(s: Store, scope: Option<Owner>, size: nat, config: Config, removed: set<string>) {
    && LruClosed(s, scope, removed)
    && (removed != {} ==> exists last :: Newest(s, removed, last) && !Fits(s - (removed - {last}), scope, size, config))
  }

  lemma ProgressStarts(s: Store, scope: Option<Owner>, size: nat, config: Config)
    ensures LruProgress(s, scope, size, config, {})
  {
  }

  lemma ProgressEnds(s: Store, left: Store, scope: Option<Owner>, size: nat, config: Config, removed: set<string>)
    requires left == s - removed && LruProgress(s, scope, size, config, removed) && Fits(left, scope, size, config)
    ensures LruCut(s, scope, size, config, removed)
    ensures 0 < EntryLimit(config, scope)
  {
  }

  lemma EvictStep(s: Store, left: Store, scope: Option<Owner>, size: nat, config: Config, removed: set<string>,
                  victim: string)
    requires left == s - removed && LruProgress(s, scope, size, config, removed)
    requires Oldest(left, scope, victim) && !Fits(left, scope, size, config)
    ensures left - {victim} == s - (removed + {victim})
    ensures LruProgress(s, scope, size, config, removed + {victim})
  {
    hide Fits;
    var more := removed + {victim};
    forall r, k | r in more && k in Candidates(s, scope) && k !in more ensures !Older(s[k], s[r]) {
      assert k in Candidates(s - removed, scope);
    }
    assert more - {victim} == removed;
    assert Newest(s, more, victim);
  }

  lemma NothingLeft(s: Store, left: Store, scope: Option<Owner>, size: nat, config: Config, removed: set<string>)
    requires left == s - removed && LruProgress(s, scope, size, config, removed)
    requires Candidates(left, scope) == map[]
    requires size <= ByteLimit(config, scope) && !Fits(left, scope, size, config)
    ensures removed == Candidates(s, scope).Keys && EntryLimit(config, scope) <= 0
    ensures scope == None ==> left == map[]
  {
    forall k | k in Candidates(s, scope) ensures k in removed {
      assert k !in removed ==> k in Candidates(s - removed, scope);
    }
  }

  lemma EveryoneIsACandidate(s: Store)
    ensures Candidates(s, None) == s
  {
  }

  lemma EmptyWithinQuotas(config: Config)
    ensures WithinQuotas(map[], config)
  {
    forall owner
      ensures |Candidates(map[], Some(owner))| <= Max(config.maxOwnerEntries, 0)
      ensures Bytes(Candidates(map[], Some(owner))) <= Max(config.maxOwnerBytes, 0)
    {
      assert Candidates(map[], Some(owner)) == map[];
    }
  }
}
