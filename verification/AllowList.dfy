/** The cached allow-list and the check a fetched snapshot passes before it replaces it. */
module AllowList {
  import opened Prelude

  type Spki = string

  datatype NodeEntry = NodeEntry(svid: Svid, spki: Spki, name: string, description: string, notAfter: string)

  /** A decoded reply; a node that is not an object is None, an absent string is empty. */
  datatype Reply = Reply(tenant: string, nodes: Option<seq<Option<NodeEntry>>>, count: Option<real>)

  datatype Snapshot = Snapshot(tenant: string, nodes: seq<NodeEntry>)

  datatype SnapshotError = BadTenant | BadCount | BadNode | DuplicateKey

  // ---------------------------------------------------------------- reference

  predicate TenantOk(expected: string, tenant: string) {
    tenant != "" && (expected == "" || tenant == expected)
  }

  predicate NodeOk(tenantOf: string -> string, tenant: string, node: Option<NodeEntry>) {
    node.Some? && node.value.svid != "" && node.value.spki != "" && tenantOf(node.value.svid) == tenant
  }

  predicate DistinctKeys(nodes: seq<NodeEntry>) {
    forall i, j :: 0 <= i < j < |nodes| ==> nodes[i].spki != nodes[j].spki
  }

  /** A snapshot worth applying: one tenant throughout, no empty identity, no key twice. */
  predicate IsSnapshot(tenantOf: string -> string, expected: string, snapshot: Snapshot) {
    && TenantOk(expected, snapshot.tenant)
    && (forall i :: 0 <= i < |snapshot.nodes| ==> NodeOk(tenantOf, snapshot.tenant, Some(snapshot.nodes[i])))
    && DistinctKeys(snapshot.nodes)
  }

  /** The first n nodes of a reply have nothing wrong with them. */
  predicate FineUpTo(tenantOf: string -> string, tenant: string, nodes: seq<Option<NodeEntry>>, n: nat)
    requires n <= |nodes|
  {
    && (forall i :: 0 <= i < n ==> NodeOk(tenantOf, tenant, nodes[i]))
    && forall i, j :: 0 <= i < j < n ==> nodes[i].value.spki != nodes[j].value.spki
  }

  /** The reply says exactly this snapshot, and counts it right. */
  predicate Says(reply: Reply, snapshot: Snapshot) {
    && reply.tenant == snapshot.tenant
    && reply.nodes.Some? && reply.count == Some(|reply.nodes.value| as real)
    && |reply.nodes.value| == |snapshot.nodes|
    && forall i :: 0 <= i < |snapshot.nodes| ==> reply.nodes.value[i] == Some(snapshot.nodes[i])
  }

  /** The index by key; of two nodes with one key the later stays. */
  function Index(nodes: seq<NodeEntry>): map<Spki, NodeEntry> {
    if nodes == [] then map[]
    else
      var last := nodes[|nodes| - 1];
      Index(nodes[..|nodes| - 1])[last.spki := last]
  }

  function Svids(list: map<Spki, NodeEntry>): set<Svid> {
    set k | k in list :: list[k].svid
  }

  lemma {:induction false} IndexHoldsNodes(nodes: seq<NodeEntry>)
    ensures forall k :: k in Index(nodes) ==> Index(nodes)[k] in nodes && Index(nodes)[k].spki == k
    ensures forall n :: n in nodes ==> n.spki in Index(nodes)
  {
    if nodes != [] {
      IndexHoldsNodes(nodes[..|nodes| - 1]);
      assert nodes == nodes[..|nodes| - 1] + [nodes[|nodes| - 1]];
    }
  }

  lemma IndexOfNext(nodes: seq<NodeEntry>, e: NodeEntry)
    ensures Index(nodes + [e]) == Index(nodes)[e.spki := e]
  {
    assert (nodes + [e])[..|nodes|] == nodes;
  }

  lemma IndexOfNone()
    ensures Index([]) == map[]
  {
  }

  /** A validated snapshot's index has one entry per listed node, each under its own key. */
  lemma {:induction false} DistinctIndexIsFaithful(nodes: seq<NodeEntry>)
    requires DistinctKeys(nodes)
    ensures |Index(nodes)| == |nodes|
    ensures forall i :: 0 <= i < |nodes| ==> nodes[i].spki in Index(nodes) && Index(nodes)[nodes[i].spki] == nodes[i]
  {
    if nodes != [] {
      var rest, last := nodes[..|nodes| - 1], nodes[|nodes| - 1];
      DistinctIndexIsFaithful(rest);
      IndexHoldsNodes(rest);
      assert forall i :: 0 <= i < |rest| ==> rest[i].spki != last.spki;
      SizeWith(Index(rest), last.spki, last);
      forall i | 0 <= i < |nodes| ensures nodes[i].spki in Index(nodes) && Index(nodes)[nodes[i].spki] == nodes[i] {
        if i < |rest| {
          assert nodes[i] == rest[i] && nodes[i].spki != last.spki;
        }
      }
    }
  }

  // --------------------------------------------------------------- validation

  method ValidateSnapshot(tenantOf: string -> string, expected: string, reply: Reply)
    returns (res: Result<Snapshot, SnapshotError>)
    ensures res.Ok? ==> IsSnapshot(tenantOf, expected, res.value) && Says(reply, res.value)
    ensures res.Err? ==> !exists s :: IsSnapshot(tenantOf, expected, s) && Says(reply, s)
    ensures res == Err(BadTenant) <==> !TenantOk(expected, reply.tenant)
    ensures res == Err(BadCount) <==>
              TenantOk(expected, reply.tenant) &&
                (reply.nodes.None? || reply.count != Some(|reply.nodes.value| as real))
    ensures res == Err(BadNode) ==>
              exists i :: 0 <= i < |reply.nodes.value| && !NodeOk(tenantOf, reply.tenant, reply.nodes.value[i]) &&
                          FineUpTo(tenantOf, reply.tenant, reply.nodes.value, i)
    ensures res == Err(DuplicateKey) ==>
              exists j :: 0 <= j < |reply.nodes.value| && NodeOk(tenantOf, reply.tenant, reply.nodes.value[j]) &&
                          FineUpTo(tenantOf, reply.tenant, reply.nodes.value, j) &&
                          exists i :: 0 <= i < j && reply.nodes.value[i].value.spki == reply.nodes.value[j].value.spki
    ensures res.Ok? <==>
              && reply.tenant != "" && (expected == "" || reply.tenant == expected)
              && reply.nodes.Some? && reply.count == Some(|reply.nodes.value| as real)
              && var nodes := reply.nodes.value;
                 && (forall i :: 0 <= i < |nodes| ==>
                       && nodes[i].Some? && nodes[i].value.svid != "" && nodes[i].value.spki != ""
                       && tenantOf(nodes[i].value.svid) == reply.tenant)
                 && forall i, j :: 0 <= i < j < |nodes| ==> nodes[i].value.spki != nodes[j].value.spki
    ensures res.Ok? ==>
              && res.value.tenant == reply.tenant && |res.value.nodes| == |reply.nodes.value|
              && forall i :: 0 <= i < |res.value.nodes| ==> reply.nodes.value[i] == Some(res.value.nodes[i])
  {
    var tenant := reply.tenant;
    if tenant == "" || (expected != "" && tenant != expected) {
      return Err(BadTenant);
    }
    if reply.nodes.None? || reply.count != Some(|reply.nodes.value| as real) {
      return Err(BadCount);
    }
    var raw := reply.nodes.value;
    var nodes: seq<NodeEntry>, seen: set<Spki> := [], {};
    for i := 0 to |raw|
      invariant |nodes| == i && forall j :: 0 <= j < i ==> raw[j] == Some(nodes[j]) && NodeOk(tenantOf, tenant, raw[j])
      invariant DistinctKeys(nodes)
      invariant forall k :: k in seen <==> exists j :: 0 <= j < |nodes| && nodes[j].spki == k
    {
      if !NodeOk(tenantOf, tenant, raw[i]) {
        assert FineUpTo(tenantOf, tenant, raw, i);
        return Err(BadNode);
      }
      var key := raw[i].value.spki;
      if key in seen {
        ghost var j :| 0 <= j < |nodes| && nodes[j].spki == key;
        assert raw[j] == Some(nodes[j]) && FineUpTo(tenantOf, tenant, raw, i);
        return Err(DuplicateKey);
      }
      seen := seen + {key};
      nodes := nodes + [raw[i].value];
    }
    assert forall j :: 0 <= j < |nodes| ==> NodeOk(tenantOf, tenant, Some(nodes[j]));
    return Ok(Snapshot(tenant, nodes));
  }

  // --------------------------------------------------------------- allow-list

  /** What Replace does with a tenant it is given: the first one is for good. */
  predicate Accepts(loaded: bool, current: string, tenant: string) {
    tenant != "" && (loaded ==> tenant == current)
  }

  class AllowList {
    var bySpki: map<Spki, NodeEntry>
    var tenant: string
    var loaded: bool

    ghost predicate Valid()
      reads this
    {
      && (forall k :: k in bySpki ==> bySpki[k].spki == k)
      && (loaded <==> tenant != "")
      && (!loaded ==> bySpki == map[])
    }

    constructor ()
      ensures Valid() && !loaded && bySpki == map[]
    {
      bySpki, tenant, loaded := map[], "", false;
    }

    method Replace(tenant: string, nodes: seq<NodeEntry>) returns (ok: bool)
      requires Valid()
      modifies this
      ensures Valid()
      ensures ok <==> Accepts(old(loaded), old(this.tenant), tenant)
      ensures ok <==> tenant != "" && (old(loaded) ==> tenant == old(this.tenant))
      ensures ok ==> bySpki == Index(nodes) && this.tenant == tenant && loaded
      ensures !ok ==> bySpki == old(bySpki) && this.tenant == old(this.tenant) && loaded == old(loaded)
    {
      if tenant == "" || (loaded && tenant != this.tenant) {
        return false;
      }
      var index: map<Spki, NodeEntry> := map[];
      for i := 0 to |nodes|
        invariant index == Index(nodes[..i])
      {
        assert nodes[..i + 1][..i] == nodes[..i];
        index := index[nodes[i].spki := nodes[i]];
      }
      assert nodes[..|nodes|] == nodes;
      IndexHoldsNodes(nodes);
      bySpki, this.tenant, loaded := index, tenant, true;
      return true;
    }

    method Lookup(spki: Spki) returns (entry: Option<NodeEntry>)
      ensures entry.Some? <==> spki in bySpki
      ensures entry.Some? ==> entry.value == bySpki[spki]
    {
      return if spki in bySpki then Some(bySpki[spki]) else None;
    }

    /** Every entry once, in no particular order. */
    method Entries() returns (entries: seq<NodeEntry>)
      requires Valid()
      ensures Index(entries) == bySpki && DistinctKeys(entries)
    {
      hide Index;
      IndexOfNone();
      entries := [];
      var pending := bySpki.Keys;
      while pending != {}
        invariant pending <= bySpki.Keys
        invariant Index(entries) == map k | k in bySpki && k !in pending :: bySpki[k]
        invariant DistinctKeys(entries)
        decreases pending
      {
        var k :| k in pending;
        IndexHoldsNodes(entries);
        IndexOfNext(entries, bySpki[k]);
        entries := entries + [bySpki[k]];
        pending := pending - {k};
      }
    }
  }
}
