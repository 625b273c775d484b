/** Which nodes share a drain budget, and how large the budget is. */
module PoolLookup {
  import opened Base
  import opened Text

  datatype Operator = In | NotIn | Exists | DoesNotExist

  datatype Requirement = Requirement(key: string, op: Operator, values: set<string>)

  /** A Kubernetes label selector after matchLabels has been folded into requirements. */
  datatype Selector = Selector(requirements: seq<Requirement>)

  datatype Limit = Number(value: int) | Percent(text: string)

  datatype PoolConfig = PoolConfig(
    name: string, offloadName: string, selector: Option<Selector>, maxUnavailable: Option<Limit>)

  datatype NodeInfo = NodeInfo(name: string, labels: map<string, string>)

  datatype Config = Config(pools: seq<PoolConfig>, nodes: seq<NodeInfo>)

  const DEFAULT_POOL := PoolConfig("", "", Some(Selector([])), Some(Number(1)))

  /** What tryDrainNode works with: the limit (-1 for none) and the names it counts over. */
  datatype View = View(limit: int, members: seq<string>)

  predicate ValidRequirement(q: Requirement) {
    if q.op == In || q.op == NotIn then q.values != {} else q.values == {}
  }

  predicate ValidSelector(s: Selector) {
    forall i :: 0 <= i < |s.requirements| ==> ValidRequirement(s.requirements[i])
  }

  predicate MeetsOne(q: Requirement, labels: map<string, string>) {
    match q.op
    case In => q.key in labels && labels[q.key] in q.values
    case NotIn => q.key !in labels || labels[q.key] !in q.values
    case Exists => q.key in labels
    case DoesNotExist => q.key !in labels
  }

  predicate Matches(s: Selector, labels: map<string, string>) {
    forall i :: 0 <= i < |s.requirements| ==> MeetsOne(s.requirements[i], labels)
  }

  /** A pool with no selector selects every node. */
  function SelectorOf(p: PoolConfig): Selector {
    if p.selector.Some? then p.selector.value else Selector([])
  }

  /** Hardware-offload pool objects take no part in draining. */
  predicate Considered(p: PoolConfig) { p.offloadName == "" }

  predicate Selects(p: PoolConfig, node: NodeInfo) { Considered(p) && Matches(SelectorOf(p), node.labels) }

  predicate WellFormed(cfg: Config) {
    forall i, j :: 0 <= i < j < |cfg.nodes| ==> cfg.nodes[i].name != cfg.nodes[j].name
  }

  predicate SelectorsOk(pools: seq<PoolConfig>) {
    forall i :: 0 <= i < |pools| && Considered(pools[i]) ==> ValidSelector(SelectorOf(pools[i]))
  }

  /** The pools that select a node, in list order. */
  function Selecting(pools: seq<PoolConfig>, node: NodeInfo): (r: seq<PoolConfig>)
    ensures forall p :: p in r <==> p in pools && Selects(p, node)
  {
    if pools == [] then []
    else
      var rest := Selecting(pools[..|pools| - 1], node);
      var last := pools[|pools| - 1];
      assert pools == pools[..|pools| - 1] + [last];
      if Selects(last, node) then rest + [last] else rest
  }

  /** A pool selects a node exactly when it is no hardware-offload object and its selector, if any, matches. */
  lemma SelectingMeans(pools: seq<PoolConfig>, node: NodeInfo, p: PoolConfig)
    ensures p in Selecting(pools, node) <==>
      p in pools && p.offloadName == "" && (p.selector.Some? ==> Matches(p.selector.value, node.labels))
  {
  }

  /** Requirements come in opposite pairs, and the positive one of each asks for the label. */
  lemma RequirementsMean(key: string, values: set<string>, labels: map<string, string>)
    ensures MeetsOne(Requirement(key, In, values), labels) <==> exists v :: v in values && key in labels && labels[key] == v
    ensures MeetsOne(Requirement(key, NotIn, values), labels) <==> !MeetsOne(Requirement(key, In, values), labels)
    ensures MeetsOne(Requirement(key, Exists, {}), labels) <==> key in labels.Keys
    ensures MeetsOne(Requirement(key, DoesNotExist, {}), labels) <==> !MeetsOne(Requirement(key, Exists, {}), labels)
  {
  }

  /** Names, in list order, of the nodes a pool selects. */
  function NamesSelected(p: PoolConfig, nodes: seq<NodeInfo>): (r: seq<string>)
    ensures forall n :: n in r <==> exists i :: 0 <= i < |nodes| && nodes[i].name == n && Matches(SelectorOf(p), nodes[i].labels)
  {
    if nodes == [] then []
    else
      var k := |nodes| - 1;
      var rest := NamesSelected(p, nodes[..k]);
      if Matches(SelectorOf(p), nodes[k].labels) then rest + [nodes[k].name] else rest
  }

  /** Names, in list order, of the nodes no pool selects. */
  function NamesUnselected(pools: seq<PoolConfig>, nodes: seq<NodeInfo>): (r: seq<string>)
    ensures forall n :: n in r <==> exists i :: 0 <= i < |nodes| && nodes[i].name == n && Selecting(pools, nodes[i]) == []
  {
    if nodes == [] then []
    else
      var k := |nodes| - 1;
      var rest := NamesUnselected(pools, nodes[..k]);
      if Selecting(pools, nodes[k]) == [] then rest + [nodes[k].name] else rest
  }

  /** The specification of findNodePoolConfig. */
  function Lookup(cfg: Config, node: NodeInfo): Outcome<(PoolConfig, seq<string>)> {
    var hits := Selecting(cfg.pools, node);
    if !SelectorsOk(cfg.pools) || |hits| > 1 then Error
    else if |hits| == 1 then Ok((hits[0], NamesSelected(hits[0], cfg.nodes)))
    else Ok((DEFAULT_POOL, NamesUnselected(cfg.pools, cfg.nodes)))
  }

  /** findNodePoolConfig: one pass over the pools, then a list of the nodes that count. */
  method FindNodePoolConfig(cfg: Config, node: NodeInfo) returns (r: Outcome<(PoolConfig, seq<string>)>)
    requires WellFormed(cfg)
    ensures r == Lookup(cfg, node)
  {
    var ok, selected, nodesInPools := ScanPools(cfg, node);
    if !ok || |selected| > 1 {
      return Error;
    } else if |selected| == 1 {
      return Ok((selected[0], NamesSelected(selected[0], cfg.nodes)));
    }
    assert cfg.pools[..|cfg.pools|] == cfg.pools;
    var names: seq<string> := [];
    for k := 0 to |cfg.nodes|
      invariant names == NamesUnselected(cfg.pools, cfg.nodes[..k])
    {
      assert cfg.nodes[..k + 1][..k] == cfg.nodes[..k];
      if cfg.nodes[k].name !in nodesInPools {
        names := names + [cfg.nodes[k].name];
      }
    }
    assert cfg.nodes[..|cfg.nodes|] == cfg.nodes;
    return Ok((DEFAULT_POOL, names));
  }

  /** Exactly the nodes that one of the first n pools selects are among `names`. */
  predicate Pooled(cfg: Config, n: nat, names: set<string>)
    requires n <= |cfg.pools|
  {
    forall k :: 0 <= k < |cfg.nodes| ==> (cfg.nodes[k].name in names <==> Selecting(cfg.pools[..n], cfg.nodes[k]) != [])
  }

  lemma SelectingStep(pools: seq<PoolConfig>, i: nat, node: NodeInfo)
    requires i < |pools|
    ensures Selecting(pools[..i + 1], node) ==
      if Selects(pools[i], node) then Selecting(pools[..i], node) + [pools[i]] else Selecting(pools[..i], node)
  {
    assert pools[..i + 1][..i] == pools[..i];
  }

  lemma PooledStep(cfg: Config, i: nat, names: set<string>, listed: seq<string>)
    requires WellFormed(cfg) && i < |cfg.pools| && Pooled(cfg, i, names)
    requires listed == if Considered(cfg.pools[i]) then NamesSelected(cfg.pools[i], cfg.nodes) else []
    ensures Pooled(cfg, i + 1, names + (set n | n in listed))
  {
    forall k | 0 <= k < |cfg.nodes|
      ensures cfg.nodes[k].name in names + (set n | n in listed) <==> Selecting(cfg.pools[..i + 1], cfg.nodes[k]) != []
    {
      SelectingStep(cfg.pools, i, cfg.nodes[k]);
    }
  }

  /** The pass over the pools: those that select the node, and every node some pool selects. */
  method ScanPools(cfg: Config, node: NodeInfo) returns (ok: bool, selected: seq<PoolConfig>, nodesInPools: set<string>)
    requires WellFormed(cfg)
    ensures ok <==> SelectorsOk(cfg.pools)
    ensures ok ==> selected == Selecting(cfg.pools, node)
    ensures ok ==> Pooled(cfg, |cfg.pools|, nodesInPools)
  {
    selected, nodesInPools := [], {};
    for i := 0 to |cfg.pools|
      invariant SelectorsOk(cfg.pools[..i])
      invariant selected == Selecting(cfg.pools[..i], node)
      invariant Pooled(cfg, i, nodesInPools)
    {
      var npc := cfg.pools[i];
      SelectingStep(cfg.pools, i, node);
      if npc.offloadName != "" {
        PooledStep(cfg, i, nodesInPools, []);
        assert nodesInPools + (set n: string | n in []) == nodesInPools;
        continue;
      }
      if !ValidSelector(SelectorOf(npc)) {
        return false, selected, nodesInPools;
      }
      if Matches(SelectorOf(npc), node.labels) {
        selected := selected + [npc];
      }
      var listed := NamesSelected(npc, cfg.nodes);
      PooledStep(cfg, i, nodesInPools, listed);
      nodesInPools := nodesInPools + (set n | n in listed);
    }
    assert cfg.pools[..|cfg.pools|] == cfg.pools;
    return true, selected, nodesInPools;
  }

  /** SriovNetworkPoolConfig.MaxUnavailable; -1 means no limit. */
  function MaxUnavailable(p: PoolConfig, numOfNodes: nat): Outcome<int> {
    match p.maxUnavailable
    case None => Ok(-1)
    case Some(Number(v)) => if v < 0 then Error else Ok(v)
    case Some(Percent(t)) =>
      if t == [] || t[|t| - 1] != '%' then Error
      else match Atoi(t[..|t| - 1])
           case None => Error
           case Some(v) => if v > 100 || v < 1 then Error else Ok(v * numOfNodes / 100)
  }

  lemma ShareBounds(v: nat, n: nat)
    requires v <= 100
    ensures var m := v * n / 100; 0 <= m <= n && 100 * m <= v * n < 100 * (m + 1)
  {
    var share := v * n;
    assert 0 <= (100 - v) * n == 100 * n - share;
  }

  /** A plain number is the limit itself, whatever the number of nodes; a negative one is refused; no setting is no limit. */
  lemma NumberLimit(p: PoolConfig, n: nat, v: int)
    ensures p.maxUnavailable == Some(Number(v)) && v >= 0 ==> MaxUnavailable(p, n) == Ok(v)
    ensures p.maxUnavailable == Some(Number(v)) && v < 0 ==> MaxUnavailable(p, n) == Error
    ensures p.maxUnavailable == None ==> MaxUnavailable(p, n) == Ok(-1)
  {
  }

  /** A text that does not end in a percent sign is refused. */
  lemma TextLimit(p: PoolConfig, n: nat, t: string)
    requires p.maxUnavailable == Some(Percent(t)) && (t == "" || t[|t| - 1] != '%')
    ensures MaxUnavailable(p, n) == Error
  {
  }

  /** A percentage limit is the floor of that share of the nodes, so it lies between 0 and the node count. */
  lemma PercentLimit(p: PoolConfig, n: nat, percent: nat)
    requires p.maxUnavailable == Some(Percent(Itoa(percent) + "%"))
    ensures MaxUnavailable(p, n).Ok? <==> 1 <= percent <= 100
    ensures 1 <= percent <= 100 ==>
      var m := MaxUnavailable(p, n).value; 0 <= m <= n && 100 * m <= percent * n < 100 * (m + 1)
  {
    var t := Itoa(percent) + "%";
    assert t[..|t| - 1] == Itoa(percent);
    assert IsDigit(Itoa(percent)[0]);
    if percent <= 100 {
      AtoiOfItoa(percent);
      ShareBounds(percent, n);
    }
  }

  /** The pool and limit tryDrainNode computes for a node by name. */
  function ViewOf(cfg: Config, name: string): Option<View> {
    match NodeNamed(cfg.nodes, name)
    case None => None
    case Some(node) =>
      match Lookup(cfg, node)
      case Ok((pool, members)) =>
        (match MaxUnavailable(pool, |members|)
         case Ok(limit) => Some(View(limit, members))
         case _ => None)
      case _ => None
  }

  function NodeNamed(nodes: seq<NodeInfo>, name: string): (r: Option<NodeInfo>)
    ensures r.None? <==> forall i :: 0 <= i < |nodes| ==> nodes[i].name != name
    ensures r.Some? ==> r.value in nodes && r.value.name == name
  {
    if nodes == [] then None else if nodes[0].name == name then Some(nodes[0]) else NodeNamed(nodes[1..], name)
  }

  lemma NodeNamedIs(nodes: seq<NodeInfo>, i: nat)
    requires forall a, b :: 0 <= a < b < |nodes| ==> nodes[a].name != nodes[b].name
    requires i < |nodes|
    ensures NodeNamed(nodes, nodes[i].name) == Some(nodes[i])
  {
  }

  /**
   Pools partition the nodes they answer for: a node with an answer is in its own list, and
   any node of that list that also has an answer gets the same pool and the same list.
   */
  lemma LookupPartitions(cfg: Config, n: string, m: string)
    requires WellFormed(cfg)
    requires NodeNamed(cfg.nodes, n).Some? && Lookup(cfg, NodeNamed(cfg.nodes, n).value).Ok?
    ensures var (pool, members) := Lookup(cfg, NodeNamed(cfg.nodes, n).value).value;
      && n in members
      && (m in members ==>
            && NodeNamed(cfg.nodes, m).Some?
            && var theirs := Lookup(cfg, NodeNamed(cfg.nodes, m).value); (theirs.Ok? ==> theirs.value == (pool, members)))
  {
    var node := NodeNamed(cfg.nodes, n).value;
    var hits := Selecting(cfg.pools, node);
    if |hits| == 1 {
      assert hits[0] in hits;
      if m in NamesSelected(hits[0], cfg.nodes) { PoolListAgrees(cfg, hits[0], m); }
    } else {
      if m in NamesUnselected(cfg.pools, cfg.nodes) { DefaultListAgrees(cfg, m); }
    }
  }

  lemma PoolListAgrees(cfg: Config, pool: PoolConfig, m: string)
    requires WellFormed(cfg) && pool in cfg.pools && Considered(pool) && m in NamesSelected(pool, cfg.nodes)
    ensures NodeNamed(cfg.nodes, m).Some?
    ensures var theirs := Lookup(cfg, NodeNamed(cfg.nodes, m).value);
      theirs.Ok? ==> theirs.value == (pool, NamesSelected(pool, cfg.nodes))
  {
    var i :| 0 <= i < |cfg.nodes| && cfg.nodes[i].name == m && Matches(SelectorOf(pool), cfg.nodes[i].labels);
    NodeNamedIs(cfg.nodes, i);
    assert pool in Selecting(cfg.pools, cfg.nodes[i]);
  }

  lemma DefaultListAgrees(cfg: Config, m: string)
    requires WellFormed(cfg) && m in NamesUnselected(cfg.pools, cfg.nodes)
    ensures NodeNamed(cfg.nodes, m).Some?
    ensures var theirs := Lookup(cfg, NodeNamed(cfg.nodes, m).value);
      theirs.Ok? ==> theirs.value == (DEFAULT_POOL, NamesUnselected(cfg.pools, cfg.nodes))
  {
    var i :| 0 <= i < |cfg.nodes| && cfg.nodes[i].name == m && Selecting(cfg.pools, cfg.nodes[i]) == [];
    NodeNamedIs(cfg.nodes, i);
  }

  /** A node matched by some pool never appears in the default list. */
  lemma DefaultListExcludesPooled(cfg: Config, n: string, m: NodeInfo)
    requires WellFormed(cfg)
    requires NodeNamed(cfg.nodes, n).Some? && Selecting(cfg.pools, NodeNamed(cfg.nodes, n).value) == []
    requires Lookup(cfg, NodeNamed(cfg.nodes, n).value).Ok?
    requires m in cfg.nodes
    ensures m.name in Lookup(cfg, NodeNamed(cfg.nodes, n).value).value.1 <==> Selecting(cfg.pools, m) == []
  {
    var i :| 0 <= i < |cfg.nodes| && cfg.nodes[i] == m;
  }

  lemma MembersDistinct(cfg: Config, node: NodeInfo)
    requires WellFormed(cfg) && Lookup(cfg, node).Ok?
    ensures forall i, j :: 0 <= i < j < |Lookup(cfg, node).value.1| ==>
      Lookup(cfg, node).value.1[i] != Lookup(cfg, node).value.1[j]
  {
    var hits := Selecting(cfg.pools, node);
    if |hits| == 1 { SelectedDistinct(hits[0], cfg.nodes); } else { UnselectedDistinct(cfg.pools, cfg.nodes); }
  }

  lemma SelectedDistinct(p: PoolConfig, nodes: seq<NodeInfo>)
    requires forall i, j :: 0 <= i < j < |nodes| ==> nodes[i].name != nodes[j].name
    ensures forall i, j :: 0 <= i < j < |NamesSelected(p, nodes)| ==> NamesSelected(p, nodes)[i] != NamesSelected(p, nodes)[j]
  {
    if nodes != [] {
      var k := |nodes| - 1;
      SelectedDistinct(p, nodes[..k]);
      assert nodes[k].name !in NamesSelected(p, nodes[..k]);
    }
  }

  lemma UnselectedDistinct(pools: seq<PoolConfig>, nodes: seq<NodeInfo>)
    requires forall i, j :: 0 <= i < j < |nodes| ==> nodes[i].name != nodes[j].name
    ensures forall i, j :: 0 <= i < j < |NamesUnselected(pools, nodes)| ==>
      NamesUnselected(pools, nodes)[i] != NamesUnselected(pools, nodes)[j]
  {
    if nodes != [] {
      var k := |nodes| - 1;
      UnselectedDistinct(pools, nodes[..k]);
      assert nodes[k].name !in NamesUnselected(pools, nodes[..k]);
    }
  }
}
