/**
 The drain controller over a whole cluster: one NodeHandshake per node that has a NodeState, the
 mutex around tryDrainNode, and the slot count that reads the other nodes one by one.
 */
module DrainCluster {
  import opened Base
  import opened PoolLookup
  import Text
  import H = NodeHandshake

  /** Nodes without a SriovNetworkNodeState are absent from `nodes`; `lock` is drainCheckMutex. */
  datatype Cluster = Cluster(nodes: map<string, H.NodeRecord>, lock: Option<string>)

  datatype Action = Action(node: string, step: H.Step)

  /** The limit and the node list of every node that has an answer, and whether there is only one node. */
  datatype Pools = Pools(views: map<string, View>, single: bool)

  /** What the pools of a cluster come to. */
  function PoolsOf(cfg: Config): Pools {
    Pools(map i | 0 <= i < |cfg.nodes| && ViewOf(cfg, cfg.nodes[i].name).Some? :: cfg.nodes[i].name := ViewOf(cfg, cfg.nodes[i].name).value,
          |cfg.nodes| == 1)
  }

  predicate Distinct(names: seq<string>) { forall i, j :: 0 <= i < j < |names| ==> names[i] != names[j] }

  /** Views partition the nodes that have one. */
  predicate Consistent(p: Pools) {
    && (forall n :: n in p.views ==> p.views[n].limit >= -1 && n in p.views[n].members && Distinct(p.views[n].members))
    && (forall n, m :: n in p.views && m in p.views && m in p.views[n].members ==> p.views[m] == p.views[n])
  }

  predicate IsBusy(s: Cluster, n: string) { n in s.nodes && H.Busy(s.nodes[n].current) }

  predicate HoldsLock(w: H.Worker) { w.Counting? || w.Marked? }

  /** The count tryDrainNode compares with the limit leaves room for one more node. */
  predicate HasRoom(limit: int, tally: nat) { limit == -1 || tally < limit }

  predicate CanAct(p: Pools, s: Cluster, a: Action) {
    && a.node in s.nodes
    && H.CanStep(s.nodes[a.node], a.step)
    && var w := s.nodes[a.node].worker;
       var known := a.node in p.views;
       match a.step
       case Enter => s.lock.None? && known
       case CountOne(busy, isSelf) =>
         && known && w.next < |p.views[a.node].members|
         && busy == IsBusy(s, p.views[a.node].members[w.next])
         && isSelf == (p.views[a.node].members[w.next] == a.node)
       case Pend => known && w.next == |p.views[a.node].members| && !HasRoom(p.views[a.node].limit, w.tally)
       case Mark => known && w.next == |p.views[a.node].members| && HasRoom(p.views[a.node].limit, w.tally)
       case Resume => known && w.next == |p.views[a.node].members|
       case FinishDrain(single) => single == p.single
       case _ => true
  }

  function Act(s: Cluster, a: Action): Cluster
    requires a.node in s.nodes && H.CanStep(s.nodes[a.node], a.step)
  {
    var r := H.Next(s.nodes[a.node], a.step);
    Cluster(s.nodes[a.node := r],
            if HoldsLock(r.worker) then Some(a.node)
            else if HoldsLock(s.nodes[a.node].worker) then None
            else s.lock)
  }

  predicate Fresh(s: Cluster) {
    s.lock.None? && forall n :: n in s.nodes ==> s.nodes[n] == H.FRESH
  }

  predicate IsRun(p: Pools, ss: seq<Cluster>, acts: seq<Action>) {
    && |ss| == |acts| + 1
    && Fresh(ss[0])
    && forall i {:trigger acts[i]} :: 0 <= i < |acts| ==> CanAct(p, ss[i], acts[i]) && ss[i + 1] == Act(ss[i], acts[i])
  }

  /** The nodes of a list whose NodeState says Draining or DrainComplete. */
  function BusyNodes(s: Cluster, names: seq<string>): (r: set<string>) {
    set n | n in names && IsBusy(s, n)
  }

  predicate LockInv(s: Cluster) {
    && (s.lock.Some? ==> s.lock.value in s.nodes)
    && forall n :: n in s.nodes ==> (HoldsLock(s.nodes[n].worker) <==> s.lock == Some(n))
  }

  /** A running count is never below the number of nodes that are busy now among those already read. */
  predicate TallyOk(p: Pools, s: Cluster, n: string, w: H.Worker)
    requires w.Counting?
  {
    && n in p.views
    && w.next <= |p.views[n].members|
    && |BusyNodes(s, p.views[n].members[..w.next])| <= w.tally
  }

  predicate TallyInv(p: Pools, s: Cluster) {
    forall n :: n in s.nodes && s.nodes[n].worker.Counting? ==> TallyOk(p, s, n, s.nodes[n].worker)
  }

  /** No pool with a limit has more busy nodes than the limit. */
  predicate SlotsRespected(p: Pools, s: Cluster) {
    forall n :: n in s.nodes && n in p.views && p.views[n].limit != -1 ==>
      |BusyNodes(s, p.views[n].members)| <= p.views[n].limit
  }

  predicate HandshakeInv(s: Cluster) { forall n :: n in s.nodes ==> H.Inv(s.nodes[n]) }

  predicate Inv(p: Pools, s: Cluster) {
    LockInv(s) && HandshakeInv(s) && TallyInv(p, s) && SlotsRespected(p, s)
  }

  lemma SubsetSize<T>(a: set<T>, b: set<T>)
    requires a <= b
    ensures |a| <= |b|
  {
    if a != {} {
      var x :| x in a;
      SubsetSize(a - {x}, b - {x});
    }
  }

  /** Only Mark makes a node busy. */
  lemma OnlyMarkAddsBusy(p: Pools, s: Cluster, a: Action, names: seq<string>)
    requires Inv(p, s) && CanAct(p, s, a)
    ensures var s' := Act(s, a);
      if a.step == H.Mark then BusyNodes(s', names) <= BusyNodes(s, names) + {a.node}
      else BusyNodes(s', names) <= BusyNodes(s, names)
  {
    var r := s.nodes[a.node];
    assert H.Inv(r);
    assert a.step == H.Mark || (H.Busy(H.Next(r, a.step).current) ==> H.Busy(r.current));
  }

  /** Reading one more node keeps the count at or above what is busy among the nodes read. */
  lemma CountingOneMore(s: Cluster, names: seq<string>, k: nat, tally: nat)
    requires k < |names| && |BusyNodes(s, names[..k])| <= tally
    ensures |BusyNodes(s, names[..k + 1])| <= tally + (if IsBusy(s, names[k]) then 1 else 0)
  {
    var x := names[k];
    assert names[..k + 1] == names[..k] + [x];
    var more := if IsBusy(s, x) then {x} else {};
    assert BusyNodes(s, names[..k + 1]) == BusyNodes(s, names[..k]) + more;
  }

  /** A worker that is counting after a step was counting before, or has just taken the lock. */
  lemma CountingBefore(r: H.NodeRecord, step: H.Step)
    requires H.CanStep(r, step) && H.Next(r, step).worker.Counting?
    ensures step.Enter? || r.worker.Counting?
    ensures var w := H.Next(r, step).worker;
      match step
      case Enter => w.next == 0
      case CountOne(busy, _) => w.next == r.worker.next + 1 && w.tally == r.worker.tally + if busy then 1 else 0
      case _ => w == r.worker
  {
  }

  /** A count in progress stays an upper bound whatever else happens, because nothing is marked meanwhile. */
  lemma TallySurvives(p: Pools, s: Cluster, a: Action, n: string, w: H.Worker)
    requires Inv(p, s) && CanAct(p, s, a) && a.step != H.Mark
    requires w.Counting? && TallyOk(p, s, n, w)
    ensures TallyOk(p, Act(s, a), n, w)
  {
    var names := p.views[n].members[..w.next];
    OnlyMarkAddsBusy(p, s, a, names);
    SubsetSize(BusyNodes(Act(s, a), names), BusyNodes(s, names));
  }

  /** The acting worker's own count. */
  lemma OwnTally(p: Pools, s: Cluster, a: Action)
    requires Inv(p, s) && CanAct(p, s, a) && H.Next(s.nodes[a.node], a.step).worker.Counting?
    ensures TallyOk(p, s, a.node, H.Next(s.nodes[a.node], a.step).worker)
  {
    var w := s.nodes[a.node].worker;
    CountingBefore(s.nodes[a.node], a.step);
    if a.step.Enter? {
      assert BusyNodes(s, p.views[a.node].members[..0]) == {};
    } else if a.step.CountOne? {
      CountingOneMore(s, p.views[a.node].members, w.next, w.tally);
    }
  }

  lemma TallyStep(p: Pools, s: Cluster, a: Action)
    requires Inv(p, s) && CanAct(p, s, a)
    ensures TallyInv(p, Act(s, a))
  {
    var s' := Act(s, a);
    forall n | n in s'.nodes && s'.nodes[n].worker.Counting?
      ensures TallyOk(p, s', n, s'.nodes[n].worker)
    {
      if n == a.node {
        CountingBefore(s.nodes[n], a.step);
        OwnTally(p, s, a);
      }
      TallySurvives(p, s, a, n, s'.nodes[n].worker);
    }
  }

  lemma SlotsStep(p: Pools, s: Cluster, a: Action)
    requires Consistent(p) && Inv(p, s) && CanAct(p, s, a)
    ensures SlotsRespected(p, Act(s, a))
  {
    var s' := Act(s, a);
    forall n | n in s'.nodes && n in p.views && p.views[n].limit != -1
      ensures |BusyNodes(s', p.views[n].members)| <= p.views[n].limit
    {
      var v := p.views[n];
      OnlyMarkAddsBusy(p, s, a, v.members);
      if a.step == H.Mark && a.node in v.members {
        assert p.views[a.node] == v;
        assert v.members[..|v.members|] == v.members;
        SubsetSize(BusyNodes(s', v.members), BusyNodes(s, v.members) + {a.node});
      } else {
        SubsetSize(BusyNodes(s', v.members), BusyNodes(s, v.members));
      }
    }
  }

  lemma ActKeepsInv(p: Pools, s: Cluster, a: Action)
    requires Consistent(p) && Inv(p, s) && CanAct(p, s, a)
    ensures Inv(p, Act(s, a))
  {
    H.StepKeepsInv(s.nodes[a.node], a.step);
    TallyStep(p, s, a);
    SlotsStep(p, s, a);
    var s' := Act(s, a);
    assert HandshakeInv(s');
    assert LockInv(s');
  }

  lemma FreshKeepsInv(p: Pools, s: Cluster)
    requires Consistent(p) && Fresh(s)
    ensures Inv(p, s)
  {
    forall n | n in s.nodes && n in p.views ensures BusyNodes(s, p.views[n].members) == {} {
    }
    SlotsWithNobodyBusy(p, s);
  }

  lemma SlotsWithNobodyBusy(p: Pools, s: Cluster)
    requires Consistent(p) && forall n :: n in s.nodes && n in p.views ==> BusyNodes(s, p.views[n].members) == {}
    ensures SlotsRespected(p, s)
  {
  }

  lemma LimitRange(p: PoolConfig, n: nat)
    ensures MaxUnavailable(p, n).Ok? ==> MaxUnavailable(p, n).value >= -1
  {
    if p.maxUnavailable.Some? && p.maxUnavailable.value.Percent? && MaxUnavailable(p, n).Ok? {
      var t := p.maxUnavailable.value.text;
      ShareBounds(Text.Atoi(t[..|t| - 1]).value, n);
    }
  }

  /** The pools of a cluster partition its nodes. */
  lemma PoolsOfIsConsistent(cfg: Config)
    requires WellFormed(cfg)
    ensures Consistent(PoolsOf(cfg))
  {
    var p := PoolsOf(cfg);
    forall n | n in p.views ensures ViewOf(cfg, n) == Some(p.views[n]) && SoundView(n, p.views[n]) {
      ViewIsSound(cfg, n);
    }
    forall n, m | n in p.views && m in p.views && m in p.views[n].members ensures p.views[m] == p.views[n] {
      LookupPartitions(cfg, n, m);
    }
  }

  predicate SoundView(n: string, v: View) { v.limit >= -1 && n in v.members && Distinct(v.members) }

  lemma ViewIsSound(cfg: Config, n: string)
    requires WellFormed(cfg) && ViewOf(cfg, n).Some?
    ensures SoundView(n, ViewOf(cfg, n).value)
  {
    var (pool, members) := Lookup(cfg, NodeNamed(cfg.nodes, n).value).value;
    LimitRange(pool, |members|);
    LookupPartitions(cfg, n, n);
    MembersDistinct(cfg, NodeNamed(cfg.nodes, n).value);
  }

  /** The invariant in every state of every run. */
  lemma {:induction false} RunKeepsInv(p: Pools, ss: seq<Cluster>, acts: seq<Action>, k: nat)
    requires Consistent(p) && IsRun(p, ss, acts) && k < |ss|
    ensures Inv(p, ss[k])
  {
    if k == 0 {
      FreshKeepsInv(p, ss[0]);
    } else {
      RunKeepsInv(p, ss, acts, k - 1);
      ActKeepsInv(p, ss[k - 1], acts[k - 1]);
    }
  }

  /**
   Drain slots: in every run and every interleaving of 50 workers and all daemons, no pool with a
   limit ever has more nodes Draining or DrainComplete than the limit.
   */
  lemma SlotsNeverExceeded(cfg: Config, ss: seq<Cluster>, acts: seq<Action>, k: nat)
    requires WellFormed(cfg) && IsRun(PoolsOf(cfg), ss, acts) && k < |ss|
    ensures forall n :: n in ss[k].nodes && ViewOf(cfg, n).Some? && ViewOf(cfg, n).value.limit != -1 ==>
      |BusyNodes(ss[k], ViewOf(cfg, n).value.members)| <= ViewOf(cfg, n).value.limit
  {
    PoolsOfIsConsistent(cfg);
    RunKeepsInv(PoolsOf(cfg), ss, acts, k);
    forall n | n in ss[k].nodes && ViewOf(cfg, n).Some? ensures PoolsOf(cfg).views[n] == ViewOf(cfg, n).value {
      ViewIsListed(cfg, n);
    }
  }

  lemma ViewIsListed(cfg: Config, n: string)
    requires ViewOf(cfg, n).Some?
    ensures n in PoolsOf(cfg).views && PoolsOf(cfg).views[n] == ViewOf(cfg, n).value
  {
    var node := NodeNamed(cfg.nodes, n).value;
    var i :| 0 <= i < |cfg.nodes| && cfg.nodes[i] == node;
    assert cfg.nodes[i].name == n;
  }

  /** A whole-node drain is waived only in a cluster of one node. */
  lemma {:induction false} WaiversNeedOneNode(p: Pools, ss: seq<Cluster>, acts: seq<Action>, k: nat)
    requires Consistent(p) && IsRun(p, ss, acts) && k < |ss|
    ensures forall n :: n in ss[k].nodes && ss[k].nodes[n].drainedAs == Some(H.Waived) ==> p.single
  {
    if k > 0 {
      WaiversNeedOneNode(p, ss, acts, k - 1);
      assert CanAct(p, ss[k - 1], acts[k - 1]);
    }
  }
}
