/** The exact conditions of DrainRaces, for the nodes of whole clusters. */
module ClusterRaces {
  import opened Base
  import opened PoolLookup
  import opened DrainCluster
  import H = NodeHandshake
  import S = DrainSafety
  import R = DrainRaces

  /** All races of the run, on whatever node, are of the given kinds. */
  predicate Within(kinds: set<H.Race>, ss: seq<Cluster>, acts: seq<Action>) {
    && |ss| == |acts| + 1
    && forall i {:trigger acts[i]} :: 0 <= i < |acts| ==>
         acts[i].node in ss[i].nodes && H.Admits(kinds, ss[i].nodes[acts[i].node], acts[i].step)
  }

  predicate Reaches(kinds: set<H.Race>, cfg: Config, ss: seq<Cluster>, acts: seq<Action>, n: string, r: H.NodeRecord) {
    && WellFormed(cfg) && IsRun(PoolsOf(cfg), ss, acts) && Within(kinds, ss, acts)
    && n in ss[|acts|].nodes && ss[|acts|].nodes[n] == r
  }

  ghost predicate CanReach(kinds: set<H.Race>, r: H.NodeRecord) {
    exists cfg, ss, acts, n :: Reaches(kinds, cfg, ss, acts, n, r)
  }

  /** The records nodes of any cluster can have in runs with races of the given kinds. */
  ghost function Reached(kinds: set<H.Race>): iset<H.NodeRecord> { iset r | CanReach(kinds, r) }

  /** Seen from one node, a cluster run is a run of the handshake. */
  lemma {:induction false} NodeRun(kinds: set<H.Race>, p: Pools, ss: seq<Cluster>, acts: seq<Action>, k: nat, n: string)
    returns (rs: seq<H.NodeRecord>, steps: seq<H.Step>)
    requires IsRun(p, ss, acts) && Within(kinds, ss, acts) && k < |ss| && n in ss[k].nodes
    ensures R.Reaches(kinds, rs, steps, ss[k].nodes[n])
  {
    if k == 0 {
      rs, steps := [H.FRESH], [];
    } else {
      assert ss[k] == Act(ss[k - 1], acts[k - 1]);
      rs, steps := NodeRun(kinds, p, ss, acts, k - 1, n);
      if acts[k - 1].node == n {
        R.ReachesOneMore(kinds, rs, steps, ss[k - 1].nodes[n], acts[k - 1].step);
        rs, steps := rs + [ss[k].nodes[n]], steps + [acts[k - 1].step];
      }
    }
  }

  // ----- a cluster of one node -----

  const LONE := Config([], [NodeInfo("node", map[])])

  const LONE_POOLS := Pools(map["node" := View(1, ["node"])], true)

  lemma LoneView()
    ensures WellFormed(LONE) && PoolsOf(LONE) == LONE_POOLS
  {
    var node := NodeInfo("node", map[]);
    assert NodeNamed(LONE.nodes, "node") == Some(node);
    assert Selecting([], node) == [];
    assert NamesUnselected([], [node]) == ["node"] by {
      assert [node][..0] == [] && NamesUnselected([], []) == [];
    }
    assert Lookup(LONE, node) == Ok((DEFAULT_POOL, ["node"]));
    assert ViewOf(LONE, LONE.nodes[0].name) == Some(View(1, ["node"]));
    assert PoolsOf(LONE).views == LONE_POOLS.views;
  }

  predicate LoneReaches(kinds: set<H.Race>, ss: seq<Cluster>, acts: seq<Action>, r: H.NodeRecord) {
    Reaches(kinds, LONE, ss, acts, "node", r) && ss[|acts|].nodes.Keys == {"node"}
  }

  ghost predicate LoneCanReach(kinds: set<H.Race>, r: H.NodeRecord) {
    exists ss, acts :: LoneReaches(kinds, ss, acts, r)
  }

  ghost function LoneReached(kinds: set<H.Race>): iset<H.NodeRecord> { iset r | LoneCanReach(kinds, r) }

  /** What DrainRaces lets a lone node do, the cluster of one node lets it do. */
  lemma LoneAct(s: Cluster, a: H.Step)
    requires s.nodes.Keys == {"node"} && R.LoneStep(s.nodes["node"], a) && Inv(LONE_POOLS, s)
    ensures CanAct(LONE_POOLS, s, Action("node", a))
  {
    assert s.lock.Some? ==> s.lock == Some("node");
  }

  lemma LoneInv(kinds: set<H.Race>, ss: seq<Cluster>, acts: seq<Action>, r: H.NodeRecord)
    requires LoneReaches(kinds, ss, acts, r)
    ensures IsRun(LONE_POOLS, ss, acts) && Within(kinds, ss, acts) && Inv(LONE_POOLS, ss[|acts|])
  {
    LoneView();
    PoolsOfIsConsistent(LONE);
    RunKeepsInv(LONE_POOLS, ss, acts, |acts|);
  }

  lemma LoneFromRun(kinds: set<H.Race>, ss: seq<Cluster>, acts: seq<Action>)
    requires IsRun(LONE_POOLS, ss, acts) && Within(kinds, ss, acts) && ss[|acts|].nodes.Keys == {"node"}
    ensures LoneReaches(kinds, ss, acts, ss[|acts|].nodes["node"])
  {
    LoneView();
  }

  lemma LoneOneMore(kinds: set<H.Race>, ss: seq<Cluster>, acts: seq<Action>, r: H.NodeRecord, a: H.Step)
    requires LoneReaches(kinds, ss, acts, r) && R.LoneStep(r, a) && H.Admits(kinds, r, a)
    ensures LoneCanReach(kinds, H.Next(r, a))
  {
    LoneInv(kinds, ss, acts, r);
    var s, act := ss[|acts|], Action("node", a);
    LoneAct(s, a);
    RunOneMore(kinds, LONE_POOLS, ss, acts, act);
    LoneFromRun(kinds, ss + [Act(s, act)], acts + [act]);
  }

  lemma RunOneMore(kinds: set<H.Race>, p: Pools, ss: seq<Cluster>, acts: seq<Action>, a: Action)
    requires IsRun(p, ss, acts) && Within(kinds, ss, acts) && CanAct(p, ss[|acts|], a)
    requires H.Admits(kinds, ss[|acts|].nodes[a.node], a.step)
    ensures IsRun(p, ss + [Act(ss[|acts|], a)], acts + [a]) && Within(kinds, ss + [Act(ss[|acts|], a)], acts + [a])
  {
  }

  lemma LoneIsClosed(kinds: set<H.Race>)
    ensures R.Closed(kinds, LoneReached(kinds))
  {
    var s := Cluster(map["node" := H.FRESH], None);
    LoneView();
    assert LoneReaches(kinds, [s], [], H.FRESH);
    forall r, a | r in LoneReached(kinds) && R.LoneStep(r, a) && H.Admits(kinds, r, a)
      ensures H.Next(r, a) in LoneReached(kinds)
    {
      var ss, acts :| LoneReaches(kinds, ss, acts, r);
      LoneOneMore(kinds, ss, acts, r, a);
    }
  }

  lemma ClustersSpan(kinds: set<H.Race>)
    ensures R.Spans(kinds, Reached(kinds))
  {
    forall r | r in Reached(kinds) ensures r in R.Reached(kinds) {
      var cfg, ss, acts, n :| Reaches(kinds, cfg, ss, acts, n, r);
      var rs, steps := NodeRun(kinds, PoolsOf(cfg), ss, acts, |acts|, n);
    }
    LoneIsClosed(kinds);
    forall r | r in LoneReached(kinds) ensures r in Reached(kinds) {
      var ss, acts :| LoneReaches(kinds, ss, acts, r);
      assert Reaches(kinds, LONE, ss, acts, "node", r);
    }
    assert LoneReached(kinds) <= Reached(kinds);
  }

  /** The four promises, on every node of every cluster, with the exact set of races each of them survives. */
  lemma ClusterPromises(kinds: set<H.Race>)
    ensures (forall r :: r in Reached(kinds) ==> S.RebootNeedsFullDrain(r)) <==> kinds == {}
    ensures (forall r :: r in Reached(kinds) ==> S.CompletionSeesNoRequest(r)) <==> !(S.UNNOTICED <= kinds)
    ensures (forall r :: r in Reached(kinds) ==> S.CompleteIsStanding(r)) <==> R.KeepsStanding(kinds)
    ensures (forall r :: r in Reached(kinds) ==> S.ApplyNeedsStandingDrain(r)) <==> R.KeepsStanding(kinds)
  {
    ClustersSpan(kinds);
    R.RebootsAreSafeIff(kinds, Reached(kinds));
    R.CompletionSeesNoRequestIff(kinds, Reached(kinds));
    R.CompleteIsStandingIff(kinds, Reached(kinds));
    R.ApplyNeedsStandingDrainIff(kinds, Reached(kinds));
  }

  /** In a cluster run without races every reboot finds all pods drained, or the only node there is. */
  lemma ClusterRebootsNeedFullDrain(cfg: Config, ss: seq<Cluster>, acts: seq<Action>, k: nat)
    requires WellFormed(cfg) && IsRun(PoolsOf(cfg), ss, acts) && Within({}, ss, acts) && k < |acts| && acts[k].step == H.Reboot
    ensures var r := ss[k].nodes[acts[k].node];
      H.StandingDrain(r) && (r.drainedAs == Some(H.WholeNode) || (r.drainedAs == Some(H.Waived) && |cfg.nodes| == 1))
  {
    var rs, steps := NodeRun({}, PoolsOf(cfg), ss, acts, k, acts[k].node);
    S.CleanRunsRebootDrainedNodes(rs, steps, |steps|);
    PoolsOfIsConsistent(cfg);
    WaiversNeedOneNode(PoolsOf(cfg), ss, acts, k);
  }
}
