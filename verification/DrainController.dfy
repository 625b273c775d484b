/** tryDrainNode as the operator executes it: API call by API call, with everybody else running in between. */
module DrainController {
  import opened Base
  import opened PoolLookup
  import opened DrainCluster
  import H = NodeHandshake

  datatype Verdict = Granted | Waiting | Failed

  /**
   What surrounds the API calls of the critical section: what the rest of the system does before each, and which
   of them fail.  Call 0 lists pools and nodes, call i + 1 reads the i-th member, the next one annotates the node
   or writes the pending condition, and the last one resets the condition.
   */
  datatype Luck = Luck(sched: seq<seq<Action>>, fails: set<nat>)

  const CALM := Luck([], {})

  function Before(luck: Luck, i: nat): seq<Action> { if i < |luck.sched| then luck.sched[i] else [] }

  predicate IsDaemonStep(a: H.Step) {
    a.Observe? || a.Act? || a.WriteNode? || a.WriteState? || a.FinishApply? || a.Reboot? || a.Crash?
  }

  /** The two records agree on everything only the operator writes. */
  predicate SameOperatorSide(a: H.NodeRecord, b: H.NodeRecord) {
    a.worker == b.worker && a.current == b.current && a.completed == b.completed && a.cordoned == b.cordoned && a.drainedAs == b.drainedAs
  }

  lemma DaemonLeavesWorker(r: H.NodeRecord, a: H.Step)
    requires H.CanStep(r, a) && IsDaemonStep(a)
    ensures SameOperatorSide(H.Next(r, a), r)
  {
  }

  class DrainReconcile {
    const pools: Pools
    var cluster: Cluster
    /** The run that led to `cluster`. */
    ghost var past: seq<Cluster>
    ghost var acts: seq<Action>

    ghost predicate Valid()
      reads this
    {
      Consistent(pools) && IsRun(pools, past, acts) && past[|acts|] == cluster
    }

    constructor (cfg: Config, names: set<string>)
      requires WellFormed(cfg)
      ensures Valid() && pools == PoolsOf(cfg) && cluster == Cluster(map n | n in names :: H.FRESH, None)
    {
      PoolsOfIsConsistent(cfg);
      pools := PoolsOf(cfg);
      cluster := Cluster(map n | n in names :: H.FRESH, None);
      past := [Cluster(map n | n in names :: H.FRESH, None)];
      acts := [];
    }

    /** One atomic step. */
    method Take(a: Action)
      requires Valid() && CanAct(pools, cluster, a)
      modifies this
      ensures Valid() && acts == old(acts) + [a] && cluster == Act(old(cluster), a)
    {
      cluster := Act(cluster, a);
      past := past + [cluster];
      acts := acts + [a];
    }

    /** Other workers and any daemon run; the worker of `node` does not. */
    method Interfere(node: string, others: seq<Action>)
      requires Valid() && node in cluster.nodes
      modifies this
      ensures Valid() && old(acts) <= acts && cluster.nodes.Keys == old(cluster.nodes.Keys)
      ensures SameOperatorSide(cluster.nodes[node], old(cluster.nodes[node]))
      ensures others == [] ==> cluster == old(cluster)
    {
      for i := 0 to |others|
        invariant Valid() && old(acts) <= acts && cluster.nodes.Keys == old(cluster.nodes.Keys)
        invariant SameOperatorSide(cluster.nodes[node], old(cluster.nodes[node]))
        invariant i == 0 ==> cluster == old(cluster)
      {
        var a := others[i];
        if (a.node != node || IsDaemonStep(a.step)) && CanAct(pools, cluster, a) {
          if a.node == node { DaemonLeavesWorker(cluster.nodes[node], a.step); }
          Take(a);
        }
      }
    }

    /** One API read of the counting loop. */
    method ReadMember(node: string, view: View, others: seq<Action>) returns (busy: bool)
      requires Valid() && node in cluster.nodes && node in pools.views && pools.views[node] == view
      requires cluster.nodes[node].current == H.Idle
      requires cluster.nodes[node].worker.Counting? && cluster.nodes[node].worker.next < |view.members|
      modifies this
      ensures Valid() && old(acts) <= acts && cluster.nodes.Keys == old(cluster.nodes.Keys)
      ensures cluster.nodes[node].current == H.Idle
      ensures cluster.nodes[node].worker == AfterReading(old(cluster.nodes[node].worker), view.members, node, busy)
      ensures others == [] ==> busy == IsBusy(old(cluster), view.members[old(cluster.nodes[node].worker.next)])
      ensures others == [] ==> SameBusy(old(cluster), cluster)
    {
      Interfere(node, others);
      var m := view.members[cluster.nodes[node].worker.next];
      busy := IsBusy(cluster, m);
      Take(Action(node, H.CountOne(busy, m == node)));
    }

    /** The counting loop: one API read per member, with interference before each; a failed read ends the call. */
    method CountDraining(node: string, req: H.Request, view: View, luck: Luck) returns (ok: bool, current: nat)
      requires Valid() && node in cluster.nodes && node in pools.views && pools.views[node] == view
      requires cluster.nodes[node].worker == H.Counting(req, 0, 0, None) && cluster.nodes[node].current == H.Idle
      modifies this
      ensures Valid() && old(acts) <= acts && cluster.nodes.Keys == old(cluster.nodes.Keys)
      ensures ok ==> cluster.nodes[node].worker == H.Counting(req, |view.members|, current, Some(H.Idle))
      ensures !ok ==> cluster.nodes[node].worker.Free? && cluster.lock != Some(node)
      ensures cluster.nodes[node].current == H.Idle
      ensures luck.fails == {} ==> ok
      ensures luck == CALM ==> current == |BusyNodes(old(cluster), view.members)|
    {
      current := 0;
      ghost var start := cluster;
      for i := 0 to |view.members|
        invariant Valid() && old(acts) <= acts && cluster.nodes.Keys == old(cluster.nodes.Keys)
        invariant cluster.nodes[node].worker == H.Counting(req, i, current, SelfSeen(view.members, i, node))
        invariant cluster.nodes[node].current == H.Idle
        invariant luck == CALM ==> Counted(start, cluster, view.members, i, current)
      {
        if i + 1 in luck.fails {
          Leave(node, H.GiveUp);
          return false, current;
        }
        ghost var before := cluster;
        var busy := ReadMember(node, view, Before(luck, i + 1));
        SelfSeenStep(view.members, i, node);
        if luck == CALM {
          CountedStep(start, before, cluster, view.members, i, current);
        }
        current := current + if busy then 1 else 0;
      }
      assert view.members[..|view.members|] == view.members;
      ok := true;
    }

    /**
     Takes the slot: annotates the NodeState Draining, then resets the condition and leaves the critical section.
     When the second write fails the node stays marked.
     */
    method TakeSlot(node: string, req: H.Request, others: seq<Action>, confirmed: bool)
      requires Valid() && node in cluster.nodes && CanAct(pools, cluster, Action(node, H.Mark))
      requires cluster.nodes[node].worker.req == req
      modifies this
      ensures Valid() && old(acts) <= acts && cluster.nodes.Keys == old(cluster.nodes.Keys)
      ensures cluster.nodes[node].current == H.Draining
      ensures cluster.nodes[node].worker == if confirmed then H.DrainingNode(req == H.RebootRequired) else H.Free
      ensures confirmed ==> !cluster.nodes[node].completed
      ensures SlotsRespected(pools, cluster) && cluster.lock != Some(node)
    {
      MarkNode(node);
      Interfere(node, others);
      Confirm(node, confirmed);
    }

    method Confirm(node: string, confirmed: bool)
      requires Valid() && node in cluster.nodes && cluster.nodes[node].worker.Marked?
      modifies this
      ensures Valid() && old(acts) <= acts && cluster.nodes.Keys == old(cluster.nodes.Keys)
      ensures cluster.nodes[node].current == old(cluster.nodes[node].current)
      ensures cluster.nodes[node].worker ==
        if confirmed then H.DrainingNode(old(cluster.nodes[node].worker.req) == H.RebootRequired) else H.Free
      ensures confirmed ==> !cluster.nodes[node].completed
      ensures SlotsRespected(pools, cluster) && cluster.lock != Some(node)
    {
      Take(Action(node, if confirmed then H.ConfirmMark else H.GiveUp));
      OutOfTheWay(node);
    }

    method MarkNode(node: string)
      requires Valid() && node in cluster.nodes && CanAct(pools, cluster, Action(node, H.Mark))
      modifies this
      ensures Valid() && old(acts) <= acts && cluster.nodes.Keys == old(cluster.nodes.Keys)
      ensures cluster.nodes[node].current == H.Draining
      ensures cluster.nodes[node].worker == H.Marked(old(cluster.nodes[node].worker.req))
    {
      Take(Action(node, H.Mark));
    }

    /** What follows the count. */
    method Decide(node: string, view: View, current: nat, luck: Luck) returns (verdict: Verdict)
      requires Valid() && node in cluster.nodes && node in pools.views && pools.views[node] == view && cluster.nodes[node].current == H.Idle
      requires var w := cluster.nodes[node].worker;
        w.Counting? && w.next == |view.members| && w.tally == current && w.self == Some(H.Idle)
      modifies this
      ensures Valid() && old(acts) <= acts && cluster.nodes.Keys == old(cluster.nodes.Keys)
      ensures verdict == Granted ==>
        cluster.nodes[node].current == H.Draining &&
        cluster.nodes[node].worker == H.DrainingNode(old(cluster.nodes[node].worker.req) == H.RebootRequired)
      ensures verdict != Granted ==> cluster.nodes[node].worker.Free?
      ensures verdict == Waiting ==> cluster.nodes[node].current == H.Idle
      ensures verdict in {Waiting, Granted} ==> !cluster.nodes[node].completed
      ensures verdict == Failed ==> luck.fails != {} && cluster.nodes[node].current in {H.Idle, H.Draining}
      ensures verdict == Waiting ==> !HasRoom(view.limit, current)
      ensures verdict == Granted ==> HasRoom(view.limit, current)
      ensures SlotsRespected(pools, cluster) && cluster.lock != Some(node)
    {
      var next := |view.members| + 1;
      Interfere(node, Before(luck, next));
      if next in luck.fails {
        Leave(node, H.GiveUp);
        verdict := Failed;
      } else if HasRoom(view.limit, current) {
        var req := cluster.nodes[node].worker.req;
        TakeSlot(node, req, Before(luck, next + 1), next + 1 !in luck.fails);
        verdict := if next + 1 !in luck.fails then Granted else Failed;
      } else {
        Leave(node, H.Pend);
        verdict := Waiting;
      }
    }

    /**
     tryDrainNode for a worker that has read a request and found the node Idle.  The node itself
     is Idle until it is marked, because only its own worker changes its current-state.
     */
    method TryDrainNode(node: string, luck: Luck) returns (verdict: Verdict)
      requires Valid() && node in cluster.nodes && cluster.lock.None?
      requires var w := cluster.nodes[node].worker; w.Fetched? && w.req != H.NoRequest && w.phase == H.Idle
      modifies this
      ensures Valid() && old(acts) <= acts && cluster.nodes.Keys == old(cluster.nodes.Keys)
      ensures verdict == Granted ==>
        cluster.nodes[node].current == H.Draining &&
        cluster.nodes[node].worker == H.DrainingNode(old(cluster.nodes[node].worker.req) == H.RebootRequired)
      ensures verdict != Granted ==> cluster.nodes[node].worker.Free?
      ensures verdict == Waiting ==> cluster.nodes[node].current == H.Idle
      ensures verdict in {Waiting, Granted} ==> !cluster.nodes[node].completed
      ensures verdict == Failed ==> cluster.nodes[node].current in {H.Idle, H.Draining}
      ensures SlotsRespected(pools, cluster) && cluster.lock != Some(node)
      ensures node !in pools.views ==> verdict == Failed
      ensures luck.fails == {} && verdict == Failed ==> node !in pools.views
      // left alone, the check is exact
      ensures luck == CALM && verdict != Failed ==>
        var v := pools.views[node];
        (verdict == Waiting <==> v.limit != -1 && |BusyNodes(old(cluster), v.members)| >= v.limit)
    {
      IdleWhenFetched(node);
      if 0 in luck.fails || node !in pools.views {
        Leave(node, H.GiveUp);
        return Failed;
      }
      var req := cluster.nodes[node].worker.req;
      EnterCheck(node);
      verdict := CountAndDecide(node, req, luck);
    }

    /** The critical section, once the mutex is held. */
    method CountAndDecide(node: string, req: H.Request, luck: Luck) returns (verdict: Verdict)
      requires Valid() && node in cluster.nodes && node in pools.views
      requires cluster.nodes[node].worker == H.Counting(req, 0, 0, None) && cluster.nodes[node].current == H.Idle
      modifies this
      ensures Valid() && old(acts) <= acts && cluster.nodes.Keys == old(cluster.nodes.Keys)
      ensures verdict == Granted ==>
        cluster.nodes[node].current == H.Draining && cluster.nodes[node].worker == H.DrainingNode(req == H.RebootRequired)
      ensures verdict != Granted ==> cluster.nodes[node].worker.Free?
      ensures verdict == Waiting ==> cluster.nodes[node].current == H.Idle
      ensures verdict in {Waiting, Granted} ==> !cluster.nodes[node].completed
      ensures verdict == Failed ==> luck.fails != {} && cluster.nodes[node].current in {H.Idle, H.Draining}
      ensures SlotsRespected(pools, cluster) && cluster.lock != Some(node)
      ensures luck == CALM ==>
        (verdict == Waiting <==> !HasRoom(pools.views[node].limit, |BusyNodes(old(cluster), pools.views[node].members)|))
    {
      var ok, current := CountDraining(node, req, pools.views[node], luck);
      if !ok {
        OutOfTheWay(node);
        return Failed;
      }
      verdict := Decide(node, pools.views[node], current, luck);
    }

    /** Outside the critical section the node does not hold the mutex; the slots are respected anywhere. */
    lemma OutOfTheWay(node: string)
      requires Valid() && node in cluster.nodes && !HoldsLock(cluster.nodes[node].worker)
      ensures SlotsRespected(pools, cluster) && cluster.lock != Some(node)
    {
      RunKeepsInv(pools, past, acts, |acts|);
    }

    lemma SlotsHold()
      requires Valid()
      ensures SlotsRespected(pools, cluster)
    {
      RunKeepsInv(pools, past, acts, |acts|);
    }

    lemma IdleWhenFetched(node: string)
      requires Valid() && node in cluster.nodes && cluster.nodes[node].worker.Fetched?
      ensures cluster.nodes[node].worker.phase == cluster.nodes[node].current
    {
      RunKeepsInv(pools, past, acts, |acts|);
    }

    /** Locks drainCheckMutex. */
    method EnterCheck(node: string)
      requires Valid() && CanAct(pools, cluster, Action(node, H.Enter))
      modifies this
      ensures Valid() && old(acts) <= acts && cluster.nodes.Keys == old(cluster.nodes.Keys)
      ensures cluster.nodes[node].worker == H.Counting(old(cluster.nodes[node].worker.req), 0, 0, None)
      ensures cluster.nodes[node].current == H.Idle == old(cluster.nodes[node].current)
      ensures forall names :: BusyNodes(cluster, names) == BusyNodes(old(cluster), names)
    {
      RunKeepsInv(pools, past, acts, |acts|);
      Take(Action(node, H.Enter));
    }

    /** Returns without a slot. */
    method Leave(node: string, step: H.Step)
      requires Valid() && (step == H.GiveUp || step == H.Pend) && CanAct(pools, cluster, Action(node, step))
      requires !cluster.nodes[node].worker.Marked?
      modifies this
      ensures Valid() && old(acts) <= acts && cluster.nodes.Keys == old(cluster.nodes.Keys)
      ensures cluster.nodes[node].worker.Free? && cluster.nodes[node].current == old(cluster.nodes[node].current)
      ensures step == H.Pend ==> !cluster.nodes[node].completed
      ensures SlotsRespected(pools, cluster) && cluster.lock != Some(node)
    {
      Take(Action(node, step));
      OutOfTheWay(node);
    }
  }

  ghost predicate SameBusy(s: Cluster, t: Cluster) { forall n :: IsBusy(t, n) <==> IsBusy(s, n) }

  /** The node's own state, once it is among the members read. */
  function SelfSeen(names: seq<string>, i: nat, node: string): Option<H.Phase>
    requires i <= |names|
  {
    if node in names[..i] then Some(H.Idle) else None
  }

  lemma SelfSeenStep(names: seq<string>, i: nat, node: string)
    requires i < |names|
    ensures SelfSeen(names, i + 1, node) == if names[i] == node then Some(H.Idle) else SelfSeen(names, i, node)
  {
    assert names[..i + 1] == names[..i] + [names[i]];
  }

  /** With nobody else about: the nodes busy at the start still are, and the count is that of the members read. */
  ghost predicate Counted(start: Cluster, now: Cluster, names: seq<string>, i: nat, count: nat)
    requires i <= |names|
  {
    SameBusy(start, now) && count == |BusyNodes(start, names[..i])|
  }

  lemma CountedStep(start: Cluster, before: Cluster, now: Cluster, names: seq<string>, i: nat, count: nat)
    requires i < |names| && Distinct(names) && Counted(start, before, names, i, count) && SameBusy(before, now)
    ensures Counted(start, now, names, i + 1, count + if IsBusy(before, names[i]) then 1 else 0)
  {
    CountExactly(start, names, i);
  }

  function AfterReading(w: H.Worker, names: seq<string>, node: string, busy: bool): H.Worker
    requires w.Counting? && w.next < |names|
  {
    H.Counting(w.req, w.next + 1, w.tally + (if busy then 1 else 0), if names[w.next] == node then Some(H.Idle) else w.self)
  }

  /** Reading the i-th member adds it to the busy set exactly when it is busy. */
  lemma CountExactly(s: Cluster, names: seq<string>, i: nat)
    requires i < |names| && Distinct(names)
    ensures |BusyNodes(s, names[..i + 1])| == |BusyNodes(s, names[..i])| + if IsBusy(s, names[i]) then 1 else 0
  {
    assert names[..i + 1] == names[..i] + [names[i]];
    assert names[i] !in names[..i];
    var before := BusyNodes(s, names[..i]);
    assert BusyNodes(s, names[..i + 1]) == if IsBusy(s, names[i]) then before + {names[i]} else before;
  }
}
