/**
 * The tunnel registry against the allow-list, as steps that interleave freely: a
 * handshake looks its key up in one step and registers in a later one, snapshots
 * replace the list, reconciles sweep the registry one entry at a time, several at
 * once, and dead connections are reaped. Every step advances a logical clock.
 */
module Tunnels {
  import opened Prelude
  import opened AllowList

  type TenantOf = string -> string

  /** A live tunnel: the handshake it came from, its key, when it registered, which list admitted it. */
  datatype Tunnel = Tunnel(conn: nat, spki: Spki, since: nat, admitted: nat)

  /** A handshake between its lookup and its registration. */
  datatype Handshake = Handshake(svid: Svid, spki: Spki, admitted: nat)

  /** A reconcile: when it read the list, which list it read, and the entries it has come by. */
  datatype Sweep = Sweep(began: nat, basis: nat, allowed: set<Svid>, visited: set<Svid>)

  /** lists is every list so far, completed the start of every finished sweep. */
  datatype State = State(
    now: nat,
    list: map<Spki, NodeEntry>,
    tenant: string,
    loaded: bool,
    replaced: nat,
    tunnels: map<Svid, Tunnel>,
    handshakes: map<nat, Handshake>,
    sweeps: map<nat, Sweep>,
    lists: seq<map<Spki, NodeEntry>>,
    completed: set<nat>)

  datatype Step =
    | Replace(snapshot: Snapshot)
    | Connect(h: nat, svid: Svid, spki: Spki)
    | Register(h: nat)
    | GiveUp(h: nat)
    | BeginSweep(r: nat)
    | Visit(r: nat, svid: Svid)
    | EndSweep(r: nat)
    | Reap(svid: Svid, conn: nat)

  function Init(): State {
    State(1, map[], "", false, 0, map[], map[], map[], [], {})
  }

  /** Which list is current, counting from the first. */
  function Newest(s: State): nat {
    if s.lists == [] then 0 else |s.lists| - 1
  }

  /**
   * A sweep may come by any entry, in any order, but once only, and may end only when
   * it has come by every entry registered before it began and still there.
   */
  ghost predicate Enabled(tenantOf: TenantOf, ours: string, s: State, step: Step) {
    match step
    case Replace(snapshot) => IsSnapshot(tenantOf, ours, snapshot)
    case Connect(h, _, _) => h !in s.handshakes
    case Register(h) => h in s.handshakes
    case GiveUp(h) => h in s.handshakes
    case BeginSweep(r) => r !in s.sweeps
    case Visit(r, svid) => r in s.sweeps && svid !in s.sweeps[r].visited
    case EndSweep(r) =>
      r in s.sweeps &&
      forall v :: v in s.tunnels && s.tunnels[v].since < s.sweeps[r].began ==> v in s.sweeps[r].visited
    case Reap(_, _) => true
  }

  function Act(tenantOf: TenantOf, ours: string, s: State, step: Step): State
    requires Enabled(tenantOf, ours, s, step)
  {
    match step
    case Replace(snapshot) =>
      if !Accepts(s.loaded, s.tenant, snapshot.tenant) then s
      else
        var list := Index(snapshot.nodes);
        s.(list := list, tenant := snapshot.tenant, loaded := true, replaced := s.now, lists := s.lists + [list])
    case Connect(h, svid, spki) =>
      if tenantOf(svid) != ours || spki !in s.list then s
      else s.(handshakes := s.handshakes[h := Handshake(svid, spki, Newest(s))])
    case Register(h) =>
      var e := s.handshakes[h];
      s.(tunnels := s.tunnels[e.svid := Tunnel(h, e.spki, s.now, e.admitted)], handshakes := s.handshakes - {h})
    case GiveUp(h) => s.(handshakes := s.handshakes - {h})
    case BeginSweep(r) =>
      if !s.loaded then s
      else s.(sweeps := s.sweeps[r := Sweep(s.now, Newest(s), Svids(s.list), {})])
    case Visit(r, svid) =>
      var sweep := s.sweeps[r];
      s.(sweeps := s.sweeps[r := sweep.(visited := sweep.visited + {svid})],
         tunnels := if svid in sweep.allowed then s.tunnels else s.tunnels - {svid})
    case EndSweep(r) => s.(sweeps := s.sweeps - {r}, completed := s.completed + {s.sweeps[r].began})
    case Reap(svid, conn) =>
      if svid in s.tunnels && s.tunnels[svid].conn == conn then s.(tunnels := s.tunnels - {svid}) else s
  }

  function Apply(tenantOf: TenantOf, ours: string, s: State, step: Step): State
    requires Enabled(tenantOf, ours, s, step)
  {
    Act(tenantOf, ours, s, step).(now := s.now + 1)
  }

  /** What a step does, where it is enabled. */
  ghost function Next(tenantOf: TenantOf, ours: string): (State, Step) -> Option<State> {
    (s, step) => if Enabled(tenantOf, ours, s, step) then Some(Apply(tenantOf, ours, s, step)) else None
  }

  ghost predicate IsRun(tenantOf: TenantOf, ours: string, states: seq<State>, steps: seq<Step>) {
    && |states| == |steps| + 1
    && states[0] == Init()
    && forall i :: 0 <= i < |steps| ==>
         Enabled(tenantOf, ours, states[i], steps[i]) && states[i + 1] == Apply(tenantOf, ours, states[i], steps[i])
  }

  // ---------------------------------------------------------------- invariant

  ghost predicate Lists(s: State) {
    && (s.loaded <==> |s.lists| > 0)
    && (s.loaded ==> s.list == s.lists[|s.lists| - 1])
    && (!s.loaded ==> s.list == map[] && s.handshakes == map[] && s.tunnels == map[] && s.sweeps == map[])
    && s.replaced < s.now
  }

  /** One tenant throughout: the list's, and ours for whoever is let in. */
  ghost predicate OneTenant(tenantOf: TenantOf, ours: string, s: State) {
    && (s.loaded ==> TenantOk(ours, s.tenant))
    && (forall k :: k in s.list ==> s.list[k].spki == k && tenantOf(s.list[k].svid) == s.tenant)
    && (forall v :: v in s.tunnels ==> tenantOf(v) == ours)
    && (forall h :: h in s.handshakes ==> tenantOf(s.handshakes[h].svid) == ours)
  }

  /** Whoever is in held a key some list admitted. */
  ghost predicate Admitted(s: State) {
    && (forall v :: v in s.tunnels ==>
          s.tunnels[v].admitted < |s.lists| && s.tunnels[v].spki in s.lists[s.tunnels[v].admitted] &&
            s.tunnels[v].since < s.now)
    && (forall h :: h in s.handshakes ==>
          s.handshakes[h].admitted < |s.lists| && s.handshakes[h].spki in s.lists[s.handshakes[h].admitted])
  }

  ghost predicate SweepOk(s: State, sweep: Sweep) {
    && sweep.began < s.now && sweep.basis < |s.lists| && sweep.allowed == Svids(s.lists[sweep.basis])
    && (s.replaced < sweep.began ==> sweep.basis == |s.lists| - 1)
    && (forall v :: v in s.tunnels && s.tunnels[v].since < sweep.began && v in sweep.visited ==> v in sweep.allowed)
  }

  ghost predicate Sweeps(s: State) {
    forall r :: r in s.sweeps ==> SweepOk(s, s.sweeps[r])
  }

  /** A finished sweep has dealt with every tunnel older than it, by the list of its time. */
  ghost predicate Completed(s: State) {
    forall b, v :: b in s.completed && v in s.tunnels && s.tunnels[v].since < b && s.replaced < b ==> v in Svids(s.list)
  }

  ghost predicate CompletedInPast(s: State) {
    forall b :: b in s.completed ==> b < s.now
  }

  ghost predicate Inv(tenantOf: TenantOf, ours: string, s: State) {
    && Lists(s) && OneTenant(tenantOf, ours, s) && Admitted(s) && Sweeps(s) && Completed(s) && CompletedInPast(s)
  }

  // -------------------------------------------------------------------- steps

  lemma StepKeepsLists(tenantOf: TenantOf, ours: string, s: State, step: Step)
    requires Inv(tenantOf, ours, s) && Enabled(tenantOf, ours, s, step)
    ensures Lists(Apply(tenantOf, ours, s, step)) && CompletedInPast(Apply(tenantOf, ours, s, step))
  {
    hide OneTenant, Admitted, Completed, Index, Svids, IsSnapshot;
  }

  lemma StepKeepsTenant(tenantOf: TenantOf, ours: string, s: State, step: Step)
    requires Inv(tenantOf, ours, s) && Enabled(tenantOf, ours, s, step)
    ensures OneTenant(tenantOf, ours, Apply(tenantOf, ours, s, step))
  {
    hide Lists, Admitted, Completed, Sweeps, CompletedInPast, Index, Svids, DistinctKeys;
    if step.Replace? {
      IndexHoldsNodes(step.snapshot.nodes);
    }
  }

  lemma StepKeepsAdmitted(tenantOf: TenantOf, ours: string, s: State, step: Step)
    requires Inv(tenantOf, ours, s) && Enabled(tenantOf, ours, s, step)
    ensures Admitted(Apply(tenantOf, ours, s, step))
  {
    hide OneTenant, Completed, Sweeps, CompletedInPast, Index, Svids, IsSnapshot, Admitted;
    if step.Replace? {
      ReplaceKeepsAdmitted(tenantOf, ours, s, step.snapshot);
    } else if step.Connect? || step.Register? {
      HandshakeKeepsAdmitted(tenantOf, ours, s, step);
    } else {
      LeavingKeepsAdmitted(s, Apply(tenantOf, ours, s, step));
    }
  }

  lemma HandshakeKeepsAdmitted(tenantOf: TenantOf, ours: string, s: State, step: Step)
    requires Lists(s) && Admitted(s) && Enabled(tenantOf, ours, s, step) && (step.Connect? || step.Register?)
    ensures Admitted(Apply(tenantOf, ours, s, step))
  {
    hide Index, Svids;
  }

  lemma LeavingKeepsAdmitted(s: State, s': State)
    requires Admitted(s) && s'.lists == s.lists && s'.now >= s.now
    requires forall v :: v in s'.tunnels ==> v in s.tunnels && s'.tunnels[v] == s.tunnels[v]
    requires forall h :: h in s'.handshakes ==> h in s.handshakes && s'.handshakes[h] == s.handshakes[h]
    ensures Admitted(s')
  {
  }

  lemma ReplaceKeepsAdmitted(tenantOf: TenantOf, ours: string, s: State, snapshot: Snapshot)
    requires Lists(s) && Admitted(s) && Enabled(tenantOf, ours, s, Replace(snapshot))
    ensures Admitted(Apply(tenantOf, ours, s, Replace(snapshot)))
  {
    hide Index, IsSnapshot;
  }

  lemma StepKeepsSweeps(tenantOf: TenantOf, ours: string, s: State, step: Step)
    requires Inv(tenantOf, ours, s) && Enabled(tenantOf, ours, s, step)
    ensures Sweeps(Apply(tenantOf, ours, s, step))
  {
    hide OneTenant, Admitted, Completed, CompletedInPast, Index, Svids, IsSnapshot;
    if step.Replace? || step.BeginSweep? || step.EndSweep? {
      ListStepKeepsSweeps(tenantOf, ours, s, step);
    } else {
      TunnelStepKeepsSweeps(tenantOf, ours, s, step);
    }
  }

  lemma ListStepKeepsSweeps(tenantOf: TenantOf, ours: string, s: State, step: Step)
    requires Lists(s) && Sweeps(s) && Enabled(tenantOf, ours, s, step)
    requires step.Replace? || step.BeginSweep? || step.EndSweep?
    ensures Sweeps(Apply(tenantOf, ours, s, step))
  {
    hide Index, Svids, IsSnapshot;
  }

  lemma TunnelStepKeepsSweeps(tenantOf: TenantOf, ours: string, s: State, step: Step)
    requires Lists(s) && Sweeps(s) && Enabled(tenantOf, ours, s, step)
    requires !step.Replace? && !step.BeginSweep? && !step.EndSweep?
    ensures Sweeps(Apply(tenantOf, ours, s, step))
  {
    hide Index, Svids, IsSnapshot;
  }

  lemma StepKeepsCompleted(tenantOf: TenantOf, ours: string, s: State, step: Step)
    requires Inv(tenantOf, ours, s) && Enabled(tenantOf, ours, s, step)
    ensures Completed(Apply(tenantOf, ours, s, step))
  {
    hide OneTenant, Admitted, Index, Svids, IsSnapshot;
  }

  lemma {:induction false} RunKeepsInv(tenantOf: TenantOf, ours: string, states: seq<State>, steps: seq<Step>, n: nat)
    requires IsRun(tenantOf, ours, states, steps) && n < |states|
    ensures Inv(tenantOf, ours, states[n])
  {
    if n > 0 {
      var s, step := states[n - 1], steps[n - 1];
      RunKeepsInv(tenantOf, ours, states, steps, n - 1);
      hide Inv, Enabled;
      StepKeepsLists(tenantOf, ours, s, step);
      StepKeepsTenant(tenantOf, ours, s, step);
      StepKeepsAdmitted(tenantOf, ours, s, step);
      StepKeepsSweeps(tenantOf, ours, s, step);
      StepKeepsCompleted(tenantOf, ours, s, step);
      InvFrom(tenantOf, ours, states[n]);
    }
  }

  lemma InvFrom(tenantOf: TenantOf, ours: string, s: State)
    requires Lists(s) && OneTenant(tenantOf, ours, s) && Admitted(s) && Sweeps(s) && Completed(s) && CompletedInPast(s)
    ensures Inv(tenantOf, ours, s)
  {
  }

  // --------------------------------------------------------------------- runs

  /**
   * How stale a revocation can be: a live tunnel whose SVID is off the list outlived
   * only reconciles that began before it registered or before the list last changed.
   */
  lemma RevocationIsBounded(tenantOf: TenantOf, ours: string, states: seq<State>, steps: seq<Step>, n: nat, svid: Svid)
    requires IsRun(tenantOf, ours, states, steps) && n < |states|
    requires svid in states[n].tunnels && svid !in Svids(states[n].list)
    ensures forall b :: b in states[n].completed ==> b <= Max(states[n].tunnels[svid].since, states[n].replaced)
  {
    RunKeepsInv(tenantOf, ours, states, steps, n);
  }

  /** No tunnel, and no handshake past its lookup, before the first snapshot. */
  lemma NoTunnelBeforeSnapshot(tenantOf: TenantOf, ours: string, states: seq<State>, steps: seq<Step>, n: nat)
    requires IsRun(tenantOf, ours, states, steps) && n < |states| && !states[n].loaded
    ensures states[n].tunnels == map[] && states[n].handshakes == map[]
  {
    RunKeepsInv(tenantOf, ours, states, steps, n);
  }

  /** Every tunnel is of our tenant and held a key that some list so far admitted. */
  lemma TunnelsWereAdmitted(tenantOf: TenantOf, ours: string, states: seq<State>, steps: seq<Step>, n: nat, svid: Svid)
    requires IsRun(tenantOf, ours, states, steps) && n < |states| && svid in states[n].tunnels
    ensures tenantOf(svid) == ours
    ensures var e := states[n].tunnels[svid]; e.admitted < |states[n].lists| && e.spki in states[n].lists[e.admitted]
  {
    RunKeepsInv(tenantOf, ours, states, steps, n);
  }

  /** Once loaded, the tenant is what it is, and lists are only ever added. */
  ghost predicate Continues(s: State, s': State) {
    && (s.loaded ==> s'.loaded && s'.tenant == s.tenant)
    && s.lists <= s'.lists
  }

  lemma {:induction false} TenantIsForGood(tenantOf: TenantOf, ours: string, states: seq<State>, steps: seq<Step>,
                                           i: nat, j: nat)
    requires IsRun(tenantOf, ours, states, steps) && i <= j < |states|
    ensures Continues(states[i], states[j])
    decreases j
  {
    hide Apply, Enabled, Continues;
    if i < j {
      TenantIsForGood(tenantOf, ours, states, steps, i, j - 1);
      StepContinues(tenantOf, ours, states[j - 1], steps[j - 1]);
      ContinuesOn(states[i], states[j - 1], states[j]);
    } else {
      ContinuesItself(states[i]);
    }
  }

  lemma StepContinues(tenantOf: TenantOf, ours: string, s: State, step: Step)
    requires Enabled(tenantOf, ours, s, step)
    ensures Continues(s, Apply(tenantOf, ours, s, step))
  {
    hide Enabled, IsSnapshot, Index;
  }

  lemma ContinuesOn(s: State, s': State, s'': State)
    requires Continues(s, s') && Continues(s', s'')
    ensures Continues(s, s'')
  {
  }

  lemma ContinuesItself(s: State)
    ensures Continues(s, s)
  {
  }

  /**
   * A tunnel only goes down because its own connection died or because a reconcile
   * read a list without its SVID; a node that stays listed is never swept away.
   */
  lemma GoneMeansDeadOrDelisted(tenantOf: TenantOf, ours: string, states: seq<State>, steps: seq<Step>, n: nat,
                                svid: Svid)
    requires IsRun(tenantOf, ours, states, steps) && n < |steps|
    requires svid in states[n].tunnels && svid !in states[n + 1].tunnels
    ensures || steps[n] == Reap(svid, states[n].tunnels[svid].conn)
            || exists r, k :: steps[n] == Visit(r, svid) && r in states[n].sweeps && k == states[n].sweeps[r].basis &&
                              k < |states[n].lists| && svid !in Svids(states[n].lists[k])
  {
    RunKeepsInv(tenantOf, ours, states, steps, n);
    hide Lists, OneTenant, Admitted, Completed, CompletedInPast, SweepOk, Svids, Apply;
    LosingATunnel(tenantOf, ours, states[n], steps[n], svid);
    if steps[n].Visit? {
      SweepReadItsList(states[n], steps[n].r);
    }
  }

  lemma LosingATunnel(tenantOf: TenantOf, ours: string, s: State, step: Step, svid: Svid)
    requires Enabled(tenantOf, ours, s, step)
    requires svid in s.tunnels && svid !in Apply(tenantOf, ours, s, step).tunnels
    ensures || step == Reap(svid, s.tunnels[svid].conn)
            || (step.Visit? && step.svid == svid && step.r in s.sweeps && svid !in s.sweeps[step.r].allowed)
  {
    hide Index, Svids, IsSnapshot;
  }

  lemma SweepReadItsList(s: State, r: nat)
    requires Sweeps(s) && r in s.sweeps
    ensures s.sweeps[r].basis < |s.lists| && s.sweeps[r].allowed == Svids(s.lists[s.sweeps[r].basis])
  {
    assert SweepOk(s, s.sweeps[r]);
  }

  // ------------------------------------------------------------------ a limit

  const LISTED := NodeEntry("node", "key", "", "", "")

  lemma ExtendRun(tenantOf: TenantOf, ours: string, states: seq<State>, steps: seq<Step>, step: Step)
    requires IsRun(tenantOf, ours, states, steps) && Enabled(tenantOf, ours, states[|steps|], step)
    ensures IsRun(tenantOf, ours, states + [Apply(tenantOf, ours, states[|steps|], step)], steps + [step])
  {
    hide Enabled, Apply;
  }

  /**
   * The bound cannot be tightened: a handshake that looked its key up before the
   * revocation may register after a reconcile that enforced it, and stays.
   */
  lemma LateRegistrationOutlivesReconcile() returns (states: seq<State>, steps: seq<Step>)
    ensures var tenantOf := (svid: string) => "t";
            && IsRun(tenantOf, "t", states, steps)
            && var s := states[|steps|];
               "node" in s.tunnels && s.list == map[] && exists b :: b in s.completed && b > s.replaced
  {
    var tenantOf := (svid: string) => "t";
    var list: map<Spki, NodeEntry> := map["key" := LISTED];
    assert Index([]) == map[] && [LISTED][..0] == [] && Index([LISTED]) == list;
    assert Svids(map[]) == {};
    states, steps := [Init()], [];
    assert IsRun(tenantOf, "t", states, steps);
    hide IsRun, Index, Svids;
    states, steps := Then(tenantOf, states, steps, Replace(Snapshot("t", [LISTED])));
    states, steps := Then(tenantOf, states, steps, Connect(0, "node", "key"));
    states, steps := Then(tenantOf, states, steps, Replace(Snapshot("t", [])));
    var s := states[|steps|];
    assert s.handshakes[0].svid == "node" && s.now == 4 && s.replaced == 3 && s.list == map[] && s.tunnels == map[];
    states, steps := SweepThenRegister(states, steps);
  }

  /** An empty list, a sweep of nothing, and then the registration of a handshake let in before. */
  lemma SweepThenRegister(before: seq<State>, done: seq<Step>) returns (states: seq<State>, steps: seq<Step>)
    requires var tenantOf := (svid: string) => "t"; IsRun(tenantOf, "t", before, done)
    requires var s := before[|done|];
             && s.loaded && s.list == map[] && s.tunnels == map[] && s.sweeps == map[]
             && 0 in s.handshakes && s.handshakes[0].svid == "node" && s.replaced < s.now
    ensures var tenantOf := (svid: string) => "t"; IsRun(tenantOf, "t", states, steps)
    ensures var s := states[|steps|];
            "node" in s.tunnels && s.list == map[] && exists b :: b in s.completed && b > s.replaced
  {
    var tenantOf := (svid: string) => "t";
    states, steps := before, done;
    var began := states[|steps|].now;
    hide IsRun, Index, Svids;
    states, steps := Then(tenantOf, states, steps, BeginSweep(0));
    states, steps := Then(tenantOf, states, steps, EndSweep(0));
    states, steps := Then(tenantOf, states, steps, Register(0));
    assert began in states[|steps|].completed;
  }

  lemma Then(tenantOf: TenantOf, states: seq<State>, steps: seq<Step>, step: Step)
    returns (more: seq<State>, done: seq<Step>)
    requires IsRun(tenantOf, "t", states, steps) && Enabled(tenantOf, "t", states[|steps|], step)
    ensures IsRun(tenantOf, "t", more, done) && |done| == |steps| + 1 && |more| == |done| + 1
    ensures more[|done|] == Apply(tenantOf, "t", states[|steps|], step)
  {
    hide Enabled, Apply;
    ExtendRun(tenantOf, "t", states, steps, step);
    more, done := states + [Apply(tenantOf, "t", states[|steps|], step)], steps + [step];
  }
}
