/** Drain slots in the words of the pool objects: how many nodes of each pool can be busy at once. */
module DrainLimits {
  import opened Base
  import opened Text
  import opened PoolLookup
  import opened DrainCluster
  import H = NodeHandshake

  /** A node that takes a slot has an answer to which pool it belongs. */
  lemma {:induction false} BusyNodesAreKnown(p: Pools, ss: seq<Cluster>, acts: seq<Action>, k: nat, n: string)
    requires Consistent(p) && IsRun(p, ss, acts) && k < |ss| && IsBusy(ss[k], n)
    ensures n in p.views
  {
    if k > 0 {
      var s, a := ss[k - 1], acts[k - 1];
      assert CanAct(p, s, a) && ss[k] == Act(s, a);
      RunKeepsInv(p, ss, acts, k - 1);
      OnlyMarkAddsBusy(p, s, a, [n]);
      assert n in BusyNodes(ss[k], [n]);
      if n in BusyNodes(s, [n]) {
        BusyNodesAreKnown(p, ss, acts, k - 1, n);
      }
    }
  }

  lemma KnownIsListed(cfg: Config, n: string)
    requires n in PoolsOf(cfg).views
    ensures ViewOf(cfg, n).Some?
  {
  }

  /** If every busy node of a list sees that list with that limit, no more than that many are busy. */
  lemma BoundedBy(cfg: Config, ss: seq<Cluster>, acts: seq<Action>, k: nat, names: seq<string>, limit: nat)
    requires WellFormed(cfg) && IsRun(PoolsOf(cfg), ss, acts) && k < |ss|
    requires forall n :: n in names && ViewOf(cfg, n).Some? ==> ViewOf(cfg, n).value == View(limit, names)
    ensures |BusyNodes(ss[k], names)| <= limit
  {
    PoolsOfIsConsistent(cfg);
    SlotsNeverExceeded(cfg, ss, acts, k);
    if n :| n in BusyNodes(ss[k], names) {
      BusyNodesAreKnown(PoolsOf(cfg), ss, acts, k, n);
      KnownIsListed(cfg, n);
    } else {
      assert BusyNodes(ss[k], names) == {};
    }
  }

  /** In every state of every run at most one of the nodes that no pool selects is Draining or DrainComplete. */
  lemma AtMostOneWithoutPool(cfg: Config, ss: seq<Cluster>, acts: seq<Action>, k: nat)
    requires WellFormed(cfg) && IsRun(PoolsOf(cfg), ss, acts) && k < |ss|
    ensures |BusyNodes(ss[k], NamesUnselected(cfg.pools, cfg.nodes))| <= 1
  {
    var names := NamesUnselected(cfg.pools, cfg.nodes);
    forall n | n in names && ViewOf(cfg, n).Some? ensures ViewOf(cfg, n).value == View(1, names) {
      ViewWithoutPool(cfg, n);
    }
    BoundedBy(cfg, ss, acts, k, names, 1);
  }

  /** What tryDrainNode works with for such a node. */
  lemma ViewWithoutPool(cfg: Config, n: string)
    requires WellFormed(cfg) && n in NamesUnselected(cfg.pools, cfg.nodes)
    ensures ViewOf(cfg, n).Some? <==> SelectorsOk(cfg.pools)
    ensures ViewOf(cfg, n).Some? ==> ViewOf(cfg, n).value == View(1, NamesUnselected(cfg.pools, cfg.nodes))
  {
    var i :| 0 <= i < |cfg.nodes| && cfg.nodes[i].name == n && Selecting(cfg.pools, cfg.nodes[i]) == [];
    NodeNamedIs(cfg.nodes, i);
  }

  /** A pool alone in selecting a node decides the node's limit. */
  lemma ViewInPool(cfg: Config, pool: PoolConfig, n: string)
    requires WellFormed(cfg) && pool in cfg.pools && Considered(pool) && n in NamesSelected(pool, cfg.nodes)
    requires ViewOf(cfg, n).Some?
    ensures var names := NamesSelected(pool, cfg.nodes);
      MaxUnavailable(pool, |names|).Ok? && ViewOf(cfg, n).value == View(MaxUnavailable(pool, |names|).value, names)
  {
    PoolListAgrees(cfg, pool, n);
  }

  /** At most v nodes of a pool whose setting is the number v. */
  lemma AtMostNumber(cfg: Config, pool: PoolConfig, v: nat, ss: seq<Cluster>, acts: seq<Action>, k: nat)
    requires WellFormed(cfg) && IsRun(PoolsOf(cfg), ss, acts) && k < |ss|
    requires pool in cfg.pools && Considered(pool) && pool.maxUnavailable == Some(Number(v))
    ensures |BusyNodes(ss[k], NamesSelected(pool, cfg.nodes))| <= v
  {
    var names := NamesSelected(pool, cfg.nodes);
    NumberLimit(pool, |names|, v);
    forall n | n in names && ViewOf(cfg, n).Some? ensures ViewOf(cfg, n).value == View(v, names) {
      ViewInPool(cfg, pool, n);
    }
    BoundedBy(cfg, ss, acts, k, names, v);
  }

  /** At most the given percentage of the nodes of a pool whose setting is a percentage. */
  lemma AtMostPercent(cfg: Config, pool: PoolConfig, percent: nat, ss: seq<Cluster>, acts: seq<Action>, k: nat)
    requires WellFormed(cfg) && IsRun(PoolsOf(cfg), ss, acts) && k < |ss|
    requires pool in cfg.pools && Considered(pool) && pool.maxUnavailable == Some(Percent(Itoa(percent) + "%"))
    ensures 100 * |BusyNodes(ss[k], NamesSelected(pool, cfg.nodes))| <= percent * |NamesSelected(pool, cfg.nodes)|
  {
    var names := NamesSelected(pool, cfg.nodes);
    PercentLimit(pool, |names|, percent);
    var limit := if 1 <= percent <= 100 then MaxUnavailable(pool, |names|).value else 0;
    forall n | n in names && ViewOf(cfg, n).Some? ensures ViewOf(cfg, n).value == View(limit, names) {
      ViewInPool(cfg, pool, n);
    }
    BoundedBy(cfg, ss, acts, k, names, limit);
    Share(|BusyNodes(ss[k], names)|, limit, percent, |names|);
  }

  lemma Share(busy: nat, limit: nat, percent: nat, n: nat)
    requires busy <= limit && (100 * limit <= percent * n || limit == 0)
    ensures 100 * busy <= percent * n
  {
  }
}
