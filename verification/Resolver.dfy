/** Finding the host a query means: by identifier, else by name, else by mention. */
module Resolver {
  import Text

  datatype Host = Host(svid: string, nodeId: string, name: string, description: string)

  /** Case folding and lower-casing of single runes. */
  datatype Casing = Casing(fold: char -> char, lower: char -> char)

  /** strings.EqualFold. */
  predicate EqualFold(casing: Casing, s: string, t: string) {
    Text.Map(s, casing.fold) == Text.Map(t, casing.fold)
  }

  predicate Exact(casing: Casing, q: string, h: Host) {
    q == h.svid || EqualFold(casing, q, h.nodeId)
  }

  predicate Named(casing: Casing, q: string, h: Host) {
    h.name != "" && EqualFold(casing, h.name, q)
  }

  predicate Mentioned(casing: Casing, q: string, h: Host) {
    var low := Text.Map(q, casing.lower);
    || Text.Contains(Text.Map(h.name, casing.lower), low)
    || Text.Contains(Text.Map(h.description, casing.lower), low)
    || Text.Contains(Text.Map(h.svid, casing.lower), low)
  }

  function Filter(hosts: seq<Host>, p: Host -> bool): seq<Host> {
    if hosts == [] then []
    else
      var last := hosts[|hosts| - 1];
      Filter(hosts[..|hosts| - 1], p) + if p(last) then [last] else []
  }

  function Exacts(casing: Casing, q: string, hosts: seq<Host>): seq<Host> {
    Filter(hosts, h => Exact(casing, q, h))
  }

  function Nameds(casing: Casing, q: string, hosts: seq<Host>): seq<Host> {
    Filter(hosts, h => Named(casing, q, h))
  }

  function Mentions(casing: Casing, q: string, hosts: seq<Host>): seq<Host> {
    Filter(hosts, h => Mentioned(casing, q, h))
  }

  /** The host meant, or the candidates when there is none or more than one. */
  datatype Answer = Answer(svid: string, candidates: seq<Host>)

  /** One tier's verdict: a sole match, or all of them. */
  function Sole(hits: seq<Host>): Answer {
    if |hits| == 1 then Answer(hits[0].svid, []) else Answer("", hits)
  }

  function Resolve(casing: Casing, query: string, hosts: seq<Host>): Answer {
    var q := Text.TrimSpace(query);
    if q == "" then Answer("", [])
    else if Exacts(casing, q, hosts) != [] then Answer(Exacts(casing, q, hosts)[0].svid, [])
    else if Nameds(casing, q, hosts) != [] then Sole(Nameds(casing, q, hosts))
    else Sole(Mentions(casing, q, hosts))
  }

  method ResolveAmong(casing: Casing, query: string, hosts: seq<Host>) returns (svid: string, candidates: seq<Host>)
    ensures Answer(svid, candidates) == Resolve(casing, query, hosts)
  {
    hide Exact, Named, Mentioned;
    var q := Text.TrimSpace(query);
    if q == "" {
      return "", [];
    }
    for i := 0 to |hosts|
      invariant Exacts(casing, q, hosts[..i]) == []
    {
      FilterNext(hosts, h => Exact(casing, q, h), i);
      if Exact(casing, q, hosts[i]) {
        FirstIsFinal(hosts, h => Exact(casing, q, h), i);
        return hosts[i].svid, [];
      }
    }
    assert hosts[..|hosts|] == hosts;
    var nameHits := [];
    for i := 0 to |hosts|
      invariant nameHits == Nameds(casing, q, hosts[..i])
    {
      FilterNext(hosts, h => Named(casing, q, h), i);
      if Named(casing, q, hosts[i]) {
        nameHits := nameHits + [hosts[i]];
      }
    }
    if |nameHits| == 1 {
      return nameHits[0].svid, [];
    }
    if |nameHits| > 1 {
      return "", nameHits;
    }
    var subHits := [];
    for i := 0 to |hosts|
      invariant subHits == Mentions(casing, q, hosts[..i])
    {
      FilterNext(hosts, h => Mentioned(casing, q, h), i);
      if Mentioned(casing, q, hosts[i]) {
        subHits := subHits + [hosts[i]];
      }
    }
    if |subHits| == 1 {
      return subHits[0].svid, [];
    }
    return "", subHits;
  }

  // ------------------------------------------------------------------- filters

  lemma FilterNext(hosts: seq<Host>, p: Host -> bool, i: nat)
    requires i < |hosts|
    ensures Filter(hosts[..i + 1], p) == Filter(hosts[..i], p) + if p(hosts[i]) then [hosts[i]] else []
  {
    assert hosts[..i + 1][..i] == hosts[..i];
  }

  lemma {:induction false} FirstIsFinal(hosts: seq<Host>, p: Host -> bool, i: nat)
    requires i < |hosts| && Filter(hosts[..i], p) == [] && p(hosts[i])
    ensures Filter(hosts, p) != [] && Filter(hosts, p)[0] == hosts[i]
    decreases |hosts|
  {
    if i == |hosts| - 1 {
      assert hosts[..i + 1] == hosts;
    } else {
      var rest := hosts[..|hosts| - 1];
      assert rest[..i] == hosts[..i];
      FirstIsFinal(rest, p, i);
    }
  }

  lemma {:induction false} FilterCounts(hosts: seq<Host>, p: Host -> bool, h: Host)
    ensures multiset(Filter(hosts, p))[h] == if p(h) then multiset(hosts)[h] else 0
  {
    if hosts != [] {
      var rest, last := hosts[..|hosts| - 1], hosts[|hosts| - 1];
      FilterCounts(rest, p, h);
      assert hosts == rest + [last];
    }
  }

  lemma FilterOfPermutation(hosts: seq<Host>, others: seq<Host>, p: Host -> bool)
    requires multiset(hosts) == multiset(others)
    ensures multiset(Filter(hosts, p)) == multiset(Filter(others, p))
    ensures |Filter(hosts, p)| == |Filter(others, p)|
  {
    var a, b := Filter(hosts, p), Filter(others, p);
    forall h ensures multiset(a)[h] == multiset(b)[h] {
      FilterCounts(hosts, p, h);
      FilterCounts(others, p, h);
    }
    assert multiset(a) == multiset(b);
    assert |multiset(a)| == |a| && |multiset(b)| == |b|;
  }

  lemma FilterHolds(hosts: seq<Host>, p: Host -> bool, h: Host)
    ensures h in Filter(hosts, p) <==> h in hosts && p(h)
  {
    FilterCounts(hosts, p, h);
    assert h in Filter(hosts, p) <==> h in multiset(Filter(hosts, p));
    assert h in hosts <==> h in multiset(hosts);
  }

  // ------------------------------------------------------------- independence

  predicate Same(a: Answer, b: Answer) {
    a.svid == b.svid && multiset(a.candidates) == multiset(b.candidates)
  }

  /** All hosts the query identifies are one host. */
  predicate OneIdentified(casing: Casing, q: string, hosts: seq<Host>) {
    forall g, h :: g in hosts && h in hosts && Exact(casing, q, g) && Exact(casing, q, h) ==> g.svid == h.svid
  }

  lemma SoleOfPermutation(a: seq<Host>, b: seq<Host>)
    requires multiset(a) == multiset(b) && |a| == |b|
    ensures Same(Sole(a), Sole(b))
  {
    if |a| == 1 {
      assert multiset(a)[a[0]] == 1 && a[0] in multiset(b);
    }
  }

  lemma AnyOrderResolvesAlike(casing: Casing, query: string, hosts: seq<Host>, others: seq<Host>)
    requires multiset(hosts) == multiset(others) && OneIdentified(casing, Text.TrimSpace(query), hosts)
    ensures Same(Resolve(casing, query, hosts), Resolve(casing, query, others))
  {
    hide Filter, Exact, Named, Mentioned, Text.TrimSpace;
    var q := Text.TrimSpace(query);
    FilterOfPermutation(hosts, others, h => Exact(casing, q, h));
    FilterOfPermutation(hosts, others, h => Named(casing, q, h));
    FilterOfPermutation(hosts, others, h => Mentioned(casing, q, h));
    var a, b := Exacts(casing, q, hosts), Exacts(casing, q, others);
    if a != [] {
      assert b[0] in multiset(b);
      FilterHolds(hosts, h => Exact(casing, q, h), a[0]);
      FilterHolds(hosts, h => Exact(casing, q, h), b[0]);
    }
    SoleOfPermutation(Nameds(casing, q, hosts), Nameds(casing, q, others));
    SoleOfPermutation(Mentions(casing, q, hosts), Mentions(casing, q, others));
  }

  lemma FirstIdentifiedWins(casing: Casing, query: string, hosts: seq<Host>, i: nat)
    requires i < |hosts| && Text.TrimSpace(query) != "" && Exact(casing, Text.TrimSpace(query), hosts[i])
    ensures Resolve(casing, query, [hosts[i]] + hosts[..i] + hosts[i + 1..]) == Answer(hosts[i].svid, [])
    ensures multiset([hosts[i]] + hosts[..i] + hosts[i + 1..]) == multiset(hosts)
  {
    hide Text.TrimSpace;
    var q, moved := Text.TrimSpace(query), [hosts[i]] + hosts[..i] + hosts[i + 1..];
    assert hosts == hosts[..i] + [hosts[i]] + hosts[i + 1..];
    assert moved[0] == hosts[i] && moved[..0] == [];
    FirstIsFinal(moved, h => Exact(casing, q, h), 0);
  }

  /**
   * Enumeration order never decides what a query means, if and only if everything the
   * query identifies is one host. Names and mentions never need the condition.
   */
  lemma OrderIndependentIffOneIdentified(casing: Casing, query: string, hosts: seq<Host>)
    requires Text.TrimSpace(query) != ""
    ensures OneIdentified(casing, Text.TrimSpace(query), hosts) <==>
            forall others :: multiset(hosts) == multiset(others) ==>
              Same(Resolve(casing, query, hosts), Resolve(casing, query, others))
  {
    hide Resolve, Exact, Text.TrimSpace;
    var q := Text.TrimSpace(query);
    if OneIdentified(casing, q, hosts) {
      forall others | multiset(hosts) == multiset(others)
        ensures Same(Resolve(casing, query, hosts), Resolve(casing, query, others))
      {
        AnyOrderResolvesAlike(casing, query, hosts, others);
      }
    } else {
      var g, h :| g in hosts && h in hosts && Exact(casing, q, g) && Exact(casing, q, h) && g.svid != h.svid;
      var other := if Resolve(casing, query, hosts).svid == g.svid then h else g;
      var i :| 0 <= i < |hosts| && hosts[i] == other;
      FirstIdentifiedWins(casing, query, hosts, i);
    }
  }

  /** Distinct SVIDs and node ids, no node id spelling another's SVID: then every query is unambiguous. */
  lemma UnambiguousHostsAreIdentified(casing: Casing, q: string, hosts: seq<Host>)
    requires forall g, h :: g in hosts && h in hosts && g.svid != h.svid ==>
               !EqualFold(casing, g.nodeId, h.nodeId) && !EqualFold(casing, g.svid, h.nodeId)
    ensures OneIdentified(casing, q, hosts)
  {
  }

  /**
   * The answer is an identified host if there is one, whatever others are called or
   * described as; else the sole match of the first tier with any; else no host, and
   * the candidates are all the matches of that tier: none or at least two.
   */
  lemma AnswerIsTheFirstTiers(casing: Casing, query: string, hosts: seq<Host>)
    requires Text.TrimSpace(query) != ""
    ensures var q, a := Text.TrimSpace(query), Resolve(casing, query, hosts);
            && ((exists h :: h in hosts && Exact(casing, q, h)) ==>
                  a.candidates == [] && exists h :: h in hosts && Exact(casing, q, h) && a.svid == h.svid)
            && ((forall h :: h in hosts ==> !Exact(casing, q, h)) ==>
                  var tier := if (exists h :: h in hosts && Named(casing, q, h)) then (h => Named(casing, q, h))
                    else (h => Mentioned(casing, q, h));
                  && |a.candidates| != 1
                  && (forall h :: h in hosts && tier(h) ==>
                      h in a.candidates || (a.candidates == [] && a.svid == h.svid))
                  && (a.candidates != [] ==>
                      a.svid == "" && forall h :: multiset(a.candidates)[h] == if tier(h) then multiset(hosts)[h]
                        else 0)
                  && (a.candidates == [] && a.svid != "" ==>
                        exists h: Host :: a.svid == h.svid && tier(h) && multiset(hosts)[h] == 1 && forall g: Host ::
                          g in hosts && tier(g) ==> g == h))
  {
    hide Filter, Exact, Named, Mentioned, Text.TrimSpace;
    var q := Text.TrimSpace(query);
    var e, n, m := Exacts(casing, q, hosts), Nameds(casing, q, hosts), Mentions(casing, q, hosts);
    forall h ensures h in e <==> h in hosts && Exact(casing, q, h) {
      FilterHolds(hosts, h => Exact(casing, q, h), h);
    }
    forall h ensures h in n <==> h in hosts && Named(casing, q, h) {
      FilterHolds(hosts, h => Named(casing, q, h), h);
    }
    if e != [] {
      assert e[0] in e;
    } else {
      assert forall h :: h in hosts ==> !Exact(casing, q, h);
      if n != [] {
        assert n[0] in n;
        SoleIsSole(hosts, h => Named(casing, q, h), n);
      } else {
        SoleIsSole(hosts, h => Mentioned(casing, q, h), m);
      }
    }
  }

  /** What it is to be identified, named and mentioned, rune by rune. */
  lemma TiersSpelledOut(casing: Casing, q: string, h: Host)
    ensures Exact(casing, q, h) <==>
              || q == h.svid
              || (|q| == |h.nodeId| && forall i :: 0 <= i < |q| ==> casing.fold(q[i]) == casing.fold(h.nodeId[i]))
    ensures Named(casing, q, h) <==>
              && h.name != "" && |h.name| == |q|
              && forall i :: 0 <= i < |q| ==> casing.fold(h.name[i]) == casing.fold(q[i])
    ensures Mentioned(casing, q, h) <==>
              || (exists at: nat :: Occurs(casing, q, h.name, at))
              || (exists at: nat :: Occurs(casing, q, h.description, at))
              || exists at: nat :: Occurs(casing, q, h.svid, at)
  {
    FoldedAlike(casing, q, h.nodeId);
    FoldedAlike(casing, h.name, q);
    ContainsWhereItOccurs(casing, q, h.name);
    ContainsWhereItOccurs(casing, q, h.description);
    ContainsWhereItOccurs(casing, q, h.svid);
  }

  lemma FoldedAlike(casing: Casing, s: string, t: string)
    ensures EqualFold(casing, s, t) <==>
              |s| == |t| && forall i :: 0 <= i < |s| ==> casing.fold(s[i]) == casing.fold(t[i])
  {
    var fs, ft := Text.Map(s, casing.fold), Text.Map(t, casing.fold);
    if fs == ft {
      forall i | 0 <= i < |s| ensures casing.fold(s[i]) == casing.fold(t[i]) {
        assert fs[i] == ft[i];
      }
    }
  }

  /** q stands in the text from this position, whatever its case. */
  ghost predicate Occurs(casing: Casing, q: string, text: string, at: nat) {
    at + |q| <= |text| && forall i :: 0 <= i < |q| ==> casing.lower(text[at + i]) == casing.lower(q[i])
  }

  lemma ContainsWhereItOccurs(casing: Casing, q: string, text: string)
    ensures Text.Contains(Text.Map(text, casing.lower), Text.Map(q, casing.lower)) <==>
            exists at: nat :: Occurs(casing, q, text, at)
  {
    var s, part := Text.Map(text, casing.lower), Text.Map(q, casing.lower);
    if Text.Contains(s, part) {
      var at :| 0 <= at <= |s| - |part| && s[at..][..|part|] == part;
      forall i | 0 <= i < |q| ensures casing.lower(text[at + i]) == casing.lower(q[i]) {
        assert s[at..][..|part|][i] == part[i];
      }
      assert Occurs(casing, q, text, at);
    }
    if exists at: nat :: Occurs(casing, q, text, at) {
      var at: nat :| Occurs(casing, q, text, at);
      assert s[at..][..|part|] == part;
    }
  }

  /** Any lower-cased piece of a name, a description or an SVID finds its host, if nothing else is meant. */
  lemma PieceFindsItsHost(casing: Casing, query: string, hosts: seq<Host>, h: Host, at: nat)
    requires Text.TrimSpace(query) != "" && h in hosts
    requires forall g :: g in hosts ==>
              !Exact(casing, Text.TrimSpace(query), g) && !Named(casing, Text.TrimSpace(query), g)
    requires var q := Text.TrimSpace(query);
             Occurs(casing, q, h.name, at) || Occurs(casing, q, h.description, at) || Occurs(casing, q, h.svid, at)
    ensures var a := Resolve(casing, query, hosts); h in a.candidates || (a.candidates == [] && a.svid == h.svid)
  {
    TiersSpelledOut(casing, Text.TrimSpace(query), h);
    AnswerIsTheFirstTiers(casing, query, hosts);
  }

  lemma SoleIsSole(hosts: seq<Host>, p: Host -> bool, hits: seq<Host>)
    requires hits == Filter(hosts, p)
    ensures var a := Sole(hits);
            && |a.candidates| != 1
            && (forall h :: h in hosts && p(h) ==> h in a.candidates || (a.candidates == [] && a.svid == h.svid))
            && (a.candidates != [] ==>
                a.svid == "" && forall h :: multiset(a.candidates)[h] == if p(h) then multiset(hosts)[h] else 0)
            && (a.candidates == [] && a.svid != "" ==>
                  exists h: Host :: a.svid == h.svid && p(h) && multiset(hosts)[h] == 1 && forall g: Host ::
                    g in hosts && p(g) ==> g == h)
  {
    forall h ensures multiset(hits)[h] == if p(h) then multiset(hosts)[h] else 0 {
      FilterCounts(hosts, p, h);
    }
    forall h | h in hosts && p(h) ensures h in hits {
      assert h in multiset(hosts) && h in multiset(hits);
    }
    if |hits| == 1 {
      var h := hits[0];
      assert hits == [h] && multiset(hits)[h] == 1;
      forall g | g in hosts && p(g) ensures g == h {
        assert g in multiset(hosts) && g in multiset(hits);
      }
    }
  }
}
