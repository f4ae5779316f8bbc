/** The broker's own maps, changed by one operation at a time. */
module Broker {
  import opened Prelude
  import opened AllowList
  import opened Schedule
  import Renewal
  import Tunnels

  type Conn = nat
  type TenantOf = string -> string

  const DEFAULT_WINDOW := 172_800_000

  /** What is kept of a registry when only the allowed may stay. */
  function Swept<V>(registry: map<Svid, V>, allowed: set<Svid>): map<Svid, V> {
    map v | v in registry && v in allowed :: registry[v]
  }

  /** The registry part-way through a sweep: entries still pending are there. */
  ghost function Unswept(registry: map<Svid, Conn>, allowed: set<Svid>, pending: set<Svid>): map<Svid, Conn> {
    map v | v in registry && (v in pending || v in allowed) :: registry[v]
  }

  /** The connections a sweep has dropped so far. */
  ghost function Dropped(registry: map<Svid, Conn>, allowed: set<Svid>, pending: set<Svid>): set<Conn> {
    set v | v in registry.Keys - allowed - pending :: registry[v]
  }

  lemma SweepStarts(registry: map<Svid, Conn>, allowed: set<Svid>)
    ensures Unswept(registry, allowed, registry.Keys) == registry && Dropped(registry, allowed, registry.Keys) == {}
    ensures Unswept(registry, allowed, {}) == Swept(registry, allowed)
    ensures Dropped(registry, allowed, {}) == set v | v in registry.Keys - allowed :: registry[v]
  {
  }

  lemma SweepStep(registry: map<Svid, Conn>, versions: map<Svid, string>, closed: set<Conn>,
                  allowed: set<Svid>, pending: set<Svid>, svid: Svid)
    requires svid in pending && pending <= registry.Keys
    ensures var gone, gone' := registry.Keys - allowed - pending, registry.Keys - allowed - (pending - {svid});
            if svid in allowed then
              && Unswept(registry, allowed, pending - {svid}) == Unswept(registry, allowed, pending)
              && gone' == gone && Dropped(registry, allowed, pending - {svid}) == Dropped(registry, allowed, pending)
            else
              && Unswept(registry, allowed, pending)[svid] == registry[svid]
              && Unswept(registry, allowed, pending - {svid}) == Unswept(registry, allowed, pending) - {svid}
              && versions - gone' == versions - gone - {svid}
              && closed + Dropped(registry, allowed, pending - {svid}) ==
                   closed + Dropped(registry, allowed, pending) + {registry[svid]}
  {
    var d, d' := Dropped(registry, allowed, pending), Dropped(registry, allowed, pending - {svid});
    if svid !in allowed {
      assert d' == d + {registry[svid]} by {
        forall c ensures c in d' <==> c in d + {registry[svid]} {
          if c in d' {
            var v :| v in registry.Keys - allowed - (pending - {svid}) && registry[v] == c;
          }
          if c in d + {registry[svid]} {
            if c == registry[svid] {
              assert svid in registry.Keys - allowed - (pending - {svid});
            }
          }
        }
      }
    }
  }

  /** The clock at each reading of one renewal, and how the renewal goes. */
  datatype World = World(dueAt: int, restAt: int, doneAt: int, succeeds: bool)

  /** The entry speaks for this node, and whether what it says is due. */
  predicate Speaks(e: NodeEntry, svid: Svid) {
    e.svid == svid && e.notAfter != ""
  }

  predicate Due(e: NodeEntry, parse: string -> Option<int>, window: int, now: int) {
    parse(e.notAfter).Some? && parse(e.notAfter).value - now < window
  }

  class Broker {
    const tenant: string
    const allow: AllowList
    var tunnels: map<Svid, Conn>
    var versions: map<Svid, string>
    var closed: set<Conn>
    var renewing: set<Svid>
    var lastRenew: map<Svid, int>

    constructor (tenant: string)
      ensures this.tenant == tenant && fresh(allow) && allow.Valid() && !allow.loaded
      ensures tunnels == map[] && versions == map[] && closed == {} && renewing == {} && lastRenew == map[]
    {
      this.tenant := tenant;
      allow := new AllowList();
      tunnels, versions, closed, renewing, lastRenew := map[], map[], {}, {}, map[];
    }

    /** A handshake nothing interrupts: admitted exactly if ours and listed by key. */
    method Handle(tenantOf: TenantOf, svid: Svid, spki: Spki, conn: Conn) returns (up: bool)
      modifies this`tunnels, this`closed
      ensures up <==> tenantOf(svid) == tenant && spki in allow.bySpki
      ensures tunnels == if up then old(tunnels)[svid := conn] else old(tunnels)
      ensures closed == if up then old(closed) else old(closed) + {conn}
    {
      if tenantOf(svid) != tenant {
        closed := closed + {conn};
        return false;
      }
      var entry := allow.Lookup(spki);
      if entry.None? {
        closed := closed + {conn};
        return false;
      }
      tunnels := tunnels[svid := conn];
      return true;
    }

    /** Drops every live tunnel that is off the list, closes it and forgets its version. */
    method Reconcile()
      requires allow.Valid()
      modifies this`tunnels, this`versions, this`closed
      ensures !allow.loaded ==> tunnels == old(tunnels) && versions == old(versions) && closed == old(closed)
      ensures allow.loaded ==>
                var allowed := Svids(allow.bySpki);
                var dropped := old(tunnels).Keys - allowed;
                && tunnels == Swept(old(tunnels), allowed)
                && versions == old(versions) - dropped
                && closed == old(closed) + set v | v in dropped :: old(tunnels)[v]
      ensures allow.loaded ==>
                forall v ::
                  (v in tunnels <==> v in old(tunnels) && exists k :: k in allow.bySpki && allow.bySpki[k].svid == v) &&
                  (v in tunnels ==> tunnels[v] == old(tunnels)[v])
    {
      if !allow.loaded {
        return;
      }
      var entries := allow.Entries();
      IndexHoldsNodes(entries);
      var allowed: set<Svid> := {};
      for i := 0 to |entries|
        invariant allowed == set j | 0 <= j < i :: entries[j].svid
      {
        allowed := allowed + {entries[i].svid};
      }
      ListedSvids(entries);
      assert allowed == Svids(allow.bySpki);
      Sweep(allowed);
    }

    method Sweep(allowed: set<Svid>)
      modifies this`tunnels, this`versions, this`closed
      ensures tunnels == Swept(old(tunnels), allowed)
      ensures versions == old(versions) - (old(tunnels).Keys - allowed)
      ensures closed == old(closed) + set v | v in old(tunnels).Keys - allowed :: old(tunnels)[v]
    {
      ghost var before, names, shut := tunnels, versions, closed;
      var pending := tunnels.Keys;
      SweepStarts(before, allowed);
      while pending != {}
        invariant pending <= tunnels.Keys
        invariant tunnels == Unswept(before, allowed, pending)
        invariant versions == names - (before.Keys - allowed - pending)
        invariant closed == shut + Dropped(before, allowed, pending)
        decreases pending
      {
        var svid :| svid in pending;
        SweepStep(before, names, shut, allowed, pending, svid);
        pending := pending - {svid};
        if svid in allowed {
          continue;
        }
        var conn := tunnels[svid];
        tunnels := tunnels - {svid};
        versions := versions - {svid};
        closed := closed + {conn};
      }
    }

    /** Fetch, replace, reconcile: on success no live tunnel is off the list. */
    method RefreshAndReconcile(tenantOf: TenantOf, expected: string, reply: Reply) returns (ok: bool)
      requires allow.Valid()
      modifies this`tunnels, this`versions, this`closed, allow
      ensures allow.Valid()
      ensures ok <==> exists s :: IsSnapshot(tenantOf, expected, s) && Says(reply, s) &&
                                  Accepts(old(allow.loaded), old(allow.tenant), s.tenant)
      ensures ok ==> exists s :: IsSnapshot(tenantOf, expected, s) && Says(reply, s) && allow.bySpki == Index(s.nodes)
      ensures ok ==> tunnels == Swept(old(tunnels), Svids(allow.bySpki))
      ensures ok ==>
                && reply.nodes.Some?
                && forall v :: v in tunnels ==>
                     exists i :: 0 <= i < |reply.nodes.value| && reply.nodes.value[i].Some? &&
                                                  reply.nodes.value[i].value.svid == v
      ensures !ok ==>
                && allow.bySpki == old(allow.bySpki) && allow.tenant == old(allow.tenant) &&
                   allow.loaded == old(allow.loaded)
                && tunnels == old(tunnels) && versions == old(versions) && closed == old(closed)
    {
      hide Index, Svids, IsSnapshot;
      var res := ValidateSnapshot(tenantOf, expected, reply);
      if res.Err? {
        return false;
      }
      ok := allow.Replace(res.value.tenant, res.value.nodes);
      if ok {
        Reconcile();
        IndexHoldsNodes(res.value.nodes);
        forall v | v in tunnels ensures exists i :: 0 <= i < |res.value.nodes| && res.value.nodes[i].svid == v {
          var k :| k in allow.bySpki && allow.bySpki[k].svid == v;
          assert allow.bySpki[k] in res.value.nodes;
        }
      }
    }

    /** The watcher's reap: only while the entry is still the connection it watches. */
    method ReapIfDead(svid: Svid, conn: Conn)
      modifies this`tunnels, this`versions, this`closed
      ensures closed == old(closed) + {conn}
      ensures svid in old(tunnels) && old(tunnels)[svid] == conn ==>
                tunnels == old(tunnels) - {svid} && versions == old(versions) - {svid}
      ensures svid !in old(tunnels) || old(tunnels)[svid] != conn ==>
                tunnels == old(tunnels) && versions == old(versions)
    {
      if svid in tunnels && tunnels[svid] == conn {
        tunnels := tunnels - {svid};
        versions := versions - {svid};
      }
      closed := closed + {conn};
    }

    /** The reap after a failed request leaves the version behind, and spares a cancelled caller's. */
    method ReapAfterFailure(svid: Svid, conn: Conn, cancelled: bool)
      modifies this`tunnels
      ensures tunnels == if svid in old(tunnels) && old(tunnels)[svid] == conn && !cancelled
                         then old(tunnels) - {svid} else old(tunnels)
    {
      if svid in tunnels && tunnels[svid] == conn && !cancelled {
        tunnels := tunnels - {svid};
      }
    }

    /**
     * One renewal trigger nothing interrupts. Which of several entries for a node is
     * looked at is not fixed, so the answer is when all of them agree.
     */
    method RenewIfDue(svid: Svid, parse: string -> Option<int>, before: int, world: World) returns (attempted: bool)
      requires allow.Valid()
      modifies this`renewing, this`lastRenew
      ensures renewing == old(renewing)
      ensures lastRenew == if attempted && world.succeeds then old(lastRenew)[svid := world.doneAt] else old(lastRenew)
      ensures var window := if before <= 0 then DEFAULT_WINDOW else before;
              var free := svid !in old(renewing) && Renewal.Rested(old(lastRenew), svid, world.restAt);
              && (attempted ==> free && exists k ::
                  k in allow.bySpki && Speaks(allow.bySpki[k], svid) &&
                    Due(allow.bySpki[k], parse, window, world.dueAt))
              && (!attempted ==> !free || (forall k :: k in allow.bySpki ==> !Speaks(allow.bySpki[k], svid))
                                 || exists k ::
                                      k in allow.bySpki && Speaks(allow.bySpki[k], svid) &&
                                      !Due(allow.bySpki[k], parse, window, world.dueAt))
      ensures var window := if before <= 0 then 172_800_000 else before;
              var free := svid !in old(renewing) &&
                          (svid in old(lastRenew) ==> world.restAt - old(lastRenew)[svid] >= 1_800_000);
              var own := map k | k in allow.bySpki && allow.bySpki[k].svid == svid && allow.bySpki[k].notAfter != "" ::
                           parse(allow.bySpki[k].notAfter);
              && (attempted ==>
                    free && exists k :: k in own && own[k].Some? && own[k].value - world.dueAt < window)
              && (free && own != map[] &&
                  (forall k :: k in own ==> own[k].Some? && own[k].value - world.dueAt < window) ==>
                    attempted)
    {
      if svid in renewing {
        return false;
      }
      renewing := renewing + {svid};
      attempted := Renew(svid, parse, if before <= 0 then DEFAULT_WINDOW else before, world);
      renewing := renewing - {svid};
      assert renewing == old(renewing);
      ghost var own := map k | k in allow.bySpki && allow.bySpki[k].svid == svid && allow.bySpki[k].notAfter != "" ::
                         parse(allow.bySpki[k].notAfter);
      if own != map[] {
        ghost var k :| k in own;
        assert Speaks(allow.bySpki[k], svid);
      }
      assert forall k :: k in allow.bySpki && Speaks(allow.bySpki[k], svid) ==> k in own;
    }

    method Renew(svid: Svid, parse: string -> Option<int>, window: int, world: World) returns (attempted: bool)
      requires allow.Valid()
      modifies this`lastRenew
      ensures lastRenew == if attempted && world.succeeds then old(lastRenew)[svid := world.doneAt] else old(lastRenew)
      ensures attempted ==> Renewal.Rested(old(lastRenew), svid, world.restAt)
      ensures attempted ==> exists k ::
                k in allow.bySpki && Speaks(allow.bySpki[k], svid) && Due(allow.bySpki[k], parse, window, world.dueAt)
      ensures !attempted ==>
                || !Renewal.Rested(old(lastRenew), svid, world.restAt)
                || (forall k :: k in allow.bySpki ==> !Speaks(allow.bySpki[k], svid))
                || exists k ::
                     k in allow.bySpki && Speaks(allow.bySpki[k], svid) &&
                     !Due(allow.bySpki[k], parse, window, world.dueAt)
    {
      var entries := allow.Entries();
      IndexHoldsNodes(entries);
      for i := 0 to |entries|
        invariant forall j :: 0 <= j < i ==> !Speaks(entries[j], svid)
      {
        var e := entries[i];
        if e.svid != svid || e.notAfter == "" {
          continue;
        }
        DistinctIndexIsFaithful(entries);
        assert allow.bySpki[e.spki] == e;
        var expiry := parse(e.notAfter);
        if expiry.None? {
          return false;
        }
        if expiry.value - world.dueAt < window {
          if svid in lastRenew && world.restAt - lastRenew[svid] < Renewal.COOLDOWN {
            return false;
          }
          if world.succeeds {
            lastRenew := lastRenew[svid := world.doneAt];
          }
          return true;
        }
        return false;
      }
      return false;
    }
  }

  lemma ListedSvids(entries: seq<NodeEntry>)
    requires DistinctKeys(entries)
    ensures Svids(Index(entries)) == set j | 0 <= j < |entries| :: entries[j].svid
  {
    IndexHoldsNodes(entries);
    DistinctIndexIsFaithful(entries);
    forall v | v in Svids(Index(entries)) ensures exists j :: 0 <= j < |entries| && entries[j].svid == v {
      var k :| k in Index(entries) && Index(entries)[k].svid == v;
      assert Index(entries)[k] in entries;
    }
  }

  // ---------------------------------------------------------------- refinement

  /** A sweep that nothing interrupts: the machine's steps add up to Reconcile. */
  lemma {:induction false} SweepRest(tenantOf: TenantOf, ours: string, s: Tunnels.State, r: nat, pending: set<Svid>)
    returns (steps: seq<Tunnels.Step>)
    requires r in s.sweeps && s.sweeps[r].visited !! pending && s.tunnels.Keys <= s.sweeps[r].visited + pending
    requires forall v :: v in s.tunnels && v !in pending ==> v in s.sweeps[r].allowed
    ensures Perform(Tunnels.Next(tenantOf, ours), s, steps).Some?
    ensures var s' := Perform(Tunnels.Next(tenantOf, ours), s, steps).value;
            s'.tunnels == Swept(s.tunnels, s.sweeps[r].allowed) && s'.sweeps == s.sweeps - {r} && s'.list == s.list
    decreases pending
  {
    var step := Tunnels.EndSweep(r);
    if pending == {} {
      steps := [step];
      PerformOne(Tunnels.Next(tenantOf, ours), s, step);
      assert s.tunnels == Swept(s.tunnels, s.sweeps[r].allowed);
    } else {
      var svid :| svid in pending;
      step := Tunnels.Visit(r, svid);
      var s1 := Tunnels.Apply(tenantOf, ours, s, step);
      var rest := SweepRest(tenantOf, ours, s1, r, pending - {svid});
      steps := [step] + rest;
      PerformFirst(Tunnels.Next(tenantOf, ours), s, step, rest);
      assert Swept(s1.tunnels, s.sweeps[r].allowed) == Swept(s.tunnels, s.sweeps[r].allowed);
      assert s1.sweeps - {r} == s.sweeps - {r};
    }
  }

  lemma ReconcileIsOneSweep(tenantOf: TenantOf, ours: string, s: Tunnels.State, r: nat)
    returns (steps: seq<Tunnels.Step>)
    requires s.loaded && r !in s.sweeps
    ensures Perform(Tunnels.Next(tenantOf, ours), s, steps).Some?
    ensures var s' := Perform(Tunnels.Next(tenantOf, ours), s, steps).value;
            s'.tunnels == Swept(s.tunnels, Svids(s.list)) && s'.list == s.list && s'.sweeps == s.sweeps
  {
    hide Svids;
    var begin := Tunnels.BeginSweep(r);
    var s1 := Tunnels.Apply(tenantOf, ours, s, begin);
    var rest := SweepRest(tenantOf, ours, s1, r, s.tunnels.Keys);
    steps := [begin] + rest;
    PerformFirst(Tunnels.Next(tenantOf, ours), s, begin, rest);
    assert s1.sweeps - {r} == s.sweeps;
  }
}
