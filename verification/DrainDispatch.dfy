/** The drain controller's Reconcile and its two handlers, API call by API call. */
module DrainDispatch {
  import opened Base
  import opened DrainCluster
  import opened DrainController
  import H = NodeHandshake

  /**
   What happens around the calls: which of them fail, what the rest of the system does before each, the same for
   the critical section of tryDrainNode, and what the orchestrator answers before a drain and after its completion.
   */
  datatype Circumstances = Circumstances(
    fails: set<nat>, sched: seq<seq<Action>>, slot: Luck, before: Outcome<bool>, after: Outcome<bool>)

  const UNDISTURBED := Circumstances({}, [], CALM, Ok(true), Ok(true))

  datatype Result =
    | Settled        // nothing was requested and nothing was going on
    | Unwound        // the drain is undone and the slot is free
    | Standing       // already drained
    | Adopted        // found drained by an earlier call that could not say so
    | Drained        // drained by this call
    | NoSlot         // the pool is at its limit
    | GaveUp         // an error or a requeue
    | Blocked        // still waiting for the mutex

  /** One API call of the worker, or the error that ends the call. */
  method Call(dr: DrainReconcile, node: string, step: H.Step, env: Circumstances, i: nat) returns (ok: bool)
    requires dr.Valid() && node in dr.cluster.nodes && !dr.cluster.nodes[node].worker.Free?
    requires step in {H.Uncordon, H.Release, H.ClearCondition, H.Adopt, H.Cordon, H.Report, H.Publish, H.Settle} || step.FinishDrain?
    requires CanAct(dr.pools, dr.cluster, Action(node, step))
    modifies dr
    ensures dr.Valid() && old(dr.acts) <= dr.acts && dr.cluster.nodes.Keys == old(dr.cluster.nodes.Keys)
    ensures var r, r' := old(dr.cluster.nodes[node]), dr.cluster.nodes[node];
      if ok then SameOperatorSide(r', H.Next(r, step)) else SameOperatorSide(r', r.(worker := H.Free))
    ensures ok <==> i !in env.fails
  {
    dr.Interfere(node, if i < |env.sched| then env.sched[i] else []);
    ok := i !in env.fails;
    dr.Take(Action(node, if ok then step else H.GiveUp));
  }

  method GiveUp(dr: DrainReconcile, node: string)
    requires dr.Valid() && node in dr.cluster.nodes && !dr.cluster.nodes[node].worker.Free?
    modifies dr
    ensures dr.Valid() && old(dr.acts) <= dr.acts && dr.cluster.nodes.Keys == old(dr.cluster.nodes.Keys)
    ensures SameOperatorSide(dr.cluster.nodes[node], old(dr.cluster.nodes[node]).(worker := H.Free))
  {
    dr.Take(Action(node, H.GiveUp));
  }

  /** handleNodeIdleNodeStateDrainingOrCompleted; CompleteDrainNode is the uncordon and the orchestrator's answer. */
  method HandleNodeIdle(dr: DrainReconcile, node: string, env: Circumstances) returns (result: Result)
    requires dr.Valid() && node in dr.cluster.nodes
    requires var w := dr.cluster.nodes[node].worker; w.Fetched? && w.req == H.NoRequest && H.Busy(w.phase)
    modifies dr
    ensures dr.Valid() && old(dr.acts) <= dr.acts && dr.cluster.nodes.Keys == old(dr.cluster.nodes.Keys)
    ensures dr.cluster.nodes[node].worker.Free? && result in {Unwound, GaveUp}
    ensures var r := dr.cluster.nodes[node];
      result == Unwound ==> r.current == H.Idle && !r.cordoned && !r.completed && r.drainedAs.None?
    ensures dr.cluster.nodes[node].current in {H.Idle, old(dr.cluster.nodes[node].current)}
    ensures env.after != Ok(true) ==> dr.cluster.nodes[node].current == old(dr.cluster.nodes[node].current)
    ensures env == UNDISTURBED ==> result == Unwound
  {
    var ok := Call(dr, node, H.Uncordon, env, 1);
    if !ok {
      return GaveUp;
    }
    if env.after != Ok(true) {
      GiveUp(dr, node);
      return GaveUp;
    }
    ok := Call(dr, node, H.Release, env, 2);
    if !ok {
      return GaveUp;
    }
    ok := Call(dr, node, H.ClearCondition, env, 3);
    return if ok then Unwound else GaveUp;
  }

  function ExtentOf(p: Pools, full: bool): H.Extent {
    if full then if p.single then H.Waived else H.WholeNode else H.SriovPods
  }

  /** The drain a request asks for has been made, and the node is cordoned or is the only one. */
  predicate Served(p: Pools, full: bool, r: H.NodeRecord) { r.drainedAs == Some(ExtentOf(p, full)) && H.Secured(r) }

  /** Drainer.DrainNode: ask the orchestrator, then cordon and evict, except for a whole-node drain of the only node. */
  method DrainNode(dr: DrainReconcile, node: string, env: Circumstances) returns (ok: bool)
    requires dr.Valid() && node in dr.cluster.nodes
    requires dr.cluster.nodes[node].worker.DrainingNode? && dr.cluster.nodes[node].current == H.Draining
    modifies dr
    ensures dr.Valid() && old(dr.acts) <= dr.acts && dr.cluster.nodes.Keys == old(dr.cluster.nodes.Keys)
    ensures dr.cluster.nodes[node].current == H.Draining
    ensures !ok ==> dr.cluster.nodes[node].worker.Free?
    ensures var r, full := dr.cluster.nodes[node], old(dr.cluster.nodes[node].worker.full);
      ok ==> r.worker == H.DrainedNode(full) && Served(dr.pools, full, r)
    ensures env.before != Ok(true) ==> !ok && dr.cluster.nodes[node].cordoned == old(dr.cluster.nodes[node].cordoned)
    ensures env == UNDISTURBED ==> ok
  {
    if env.before != Ok(true) {
      GiveUp(dr, node);
      return false;
    }
    var full, single := dr.cluster.nodes[node].worker.full, dr.pools.single;
    if !(full && single) {
      ok := Call(dr, node, H.Cordon, env, 4);
      if !ok {
        return;
      }
    }
    ok := Call(dr, node, H.FinishDrain(single), env, 5);
  }

  /** The end of handleNodeDrainOrReboot: DrainNode, then the condition, then the annotation. */
  method Drain(dr: DrainReconcile, node: string, env: Circumstances) returns (result: Result)
    requires dr.Valid() && node in dr.cluster.nodes
    requires dr.cluster.nodes[node].worker.DrainingNode? && dr.cluster.nodes[node].current == H.Draining
    modifies dr
    ensures dr.Valid() && old(dr.acts) <= dr.acts && dr.cluster.nodes.Keys == old(dr.cluster.nodes.Keys)
    ensures dr.cluster.nodes[node].worker.Free? && result in {Drained, GaveUp}
    ensures var r, full := dr.cluster.nodes[node], old(dr.cluster.nodes[node].worker.full);
      if result == Drained then r.current == H.DrainComplete && r.completed && Served(dr.pools, full, r) else r.current == H.Draining
    ensures env == UNDISTURBED ==> result == Drained
  {
    var ok := DrainNode(dr, node, env);
    if !ok {
      return GaveUp;
    }
    ok := Publish(dr, node, env);
    return if ok then Drained else GaveUp;
  }

  /** The condition first, then the annotation. */
  method Publish(dr: DrainReconcile, node: string, env: Circumstances) returns (ok: bool)
    requires dr.Valid() && node in dr.cluster.nodes
    requires dr.cluster.nodes[node].worker.DrainedNode? && dr.cluster.nodes[node].current == H.Draining
    modifies dr
    ensures dr.Valid() && old(dr.acts) <= dr.acts && dr.cluster.nodes.Keys == old(dr.cluster.nodes.Keys)
    ensures dr.cluster.nodes[node].worker.Free?
    ensures var was, r := old(dr.cluster.nodes[node]), dr.cluster.nodes[node];
      && r.drainedAs == was.drainedAs && r.cordoned == was.cordoned
      && (if ok then r.current == H.DrainComplete && r.completed else r.current == H.Draining)
    ensures env == UNDISTURBED ==> ok
  {
    ok := Call(dr, node, H.Report, env, 6);
    if ok {
      ok := Call(dr, node, H.Publish, env, 7);
    }
  }

  /** A node that has been marked Draining before: adopt the finished drain, or drain again. */
  method ContinueDraining(dr: DrainReconcile, node: string, env: Circumstances) returns (result: Result)
    requires dr.Valid() && node in dr.cluster.nodes && dr.cluster.nodes[node].current == H.Draining
    requires var r := dr.cluster.nodes[node]; r.worker.Fetched? && r.worker.req != H.NoRequest && r.worker.phase == r.current
    modifies dr
    ensures dr.Valid() && old(dr.acts) <= dr.acts && dr.cluster.nodes.Keys == old(dr.cluster.nodes.Keys)
    ensures dr.cluster.nodes[node].worker.Free? && result in {Adopted, Drained, GaveUp}
    ensures dr.cluster.nodes[node].current == if result == GaveUp then H.Draining else H.DrainComplete
    ensures result == Adopted ==> dr.cluster.nodes[node].drainedAs == old(dr.cluster.nodes[node].drainedAs)
    ensures result == Drained ==>
      Served(dr.pools, old(dr.cluster.nodes[node].worker.req) == H.RebootRequired, dr.cluster.nodes[node])
    ensures env == UNDISTURBED ==> result == if old(dr.cluster.nodes[node].completed) then Adopted else Drained
  {
    if dr.cluster.nodes[node].completed {
      var ok := Call(dr, node, H.Adopt, env, 4);
      return if ok then Adopted else GaveUp;
    }
    dr.Take(Action(node, H.Redrain));
    result := Drain(dr, node, env);
  }

  /** handleNodeDrainOrReboot. */
  method HandleNodeDrainOrReboot(dr: DrainReconcile, node: string, env: Circumstances) returns (result: Result)
    requires dr.Valid() && node in dr.cluster.nodes
    requires var r := dr.cluster.nodes[node]; r.worker.Fetched? && r.worker.req != H.NoRequest && r.worker.phase == r.current
    modifies dr
    ensures dr.Valid() && old(dr.acts) <= dr.acts && dr.cluster.nodes.Keys == old(dr.cluster.nodes.Keys)
    ensures result in {Standing, Adopted, Drained, NoSlot, GaveUp, Blocked}
    ensures result == Blocked <==> old(dr.cluster.nodes[node].current) == H.Idle && old(dr.cluster.lock).Some?
    ensures result != Blocked ==> dr.cluster.nodes[node].worker.Free?
    ensures result in {Standing, Adopted, Drained} ==> dr.cluster.nodes[node].current == H.DrainComplete
    ensures result == Standing <==> old(dr.cluster.nodes[node].current) == H.DrainComplete
    ensures result in {Standing, Adopted} ==> dr.cluster.nodes[node].drainedAs == old(dr.cluster.nodes[node].drainedAs)
    ensures result == Drained ==>
      Served(dr.pools, old(dr.cluster.nodes[node].worker.req) == H.RebootRequired, dr.cluster.nodes[node])
    ensures result in {NoSlot, Blocked} ==> dr.cluster.nodes[node].current == H.Idle == old(dr.cluster.nodes[node].current)
    ensures result == GaveUp ==> dr.cluster.nodes[node].current in {H.Draining, old(dr.cluster.nodes[node].current)}
    ensures env == UNDISTURBED && result == GaveUp ==> old(dr.cluster.nodes[node].current) == H.Idle && node !in dr.pools.views
  {
    var phase := dr.cluster.nodes[node].worker.phase;
    if phase == H.DrainComplete {
      dr.Take(Action(node, H.NothingToDo));
      return Standing;
    }
    if phase == H.Draining {
      result := ContinueDraining(dr, node, env);
      return;
    }
    if dr.cluster.lock.Some? {
      return Blocked;
    }
    var verdict := dr.TryDrainNode(node, env.slot);
    if verdict != Granted {
      return if verdict == Waiting then NoSlot else GaveUp;
    }
    result := Drain(dr, node, env);
  }

  /** Reconcile: read the two annotations and dispatch. */
  method Reconcile(dr: DrainReconcile, node: string, env: Circumstances) returns (result: Result, req: H.Request)
    requires dr.Valid() && node in dr.cluster.nodes && dr.cluster.nodes[node].worker.Free?
    modifies dr
    ensures dr.Valid() && old(dr.acts) <= dr.acts && dr.cluster.nodes.Keys == old(dr.cluster.nodes.Keys)
    ensures req == old(dr.cluster.nodes[node].request)
    ensures result in {Settled, Unwound} ==> req == H.NoRequest && dr.cluster.nodes[node].current == H.Idle && !dr.cluster.nodes[node].completed
    ensures result in {Standing, Adopted, Drained} ==> req != H.NoRequest && dr.cluster.nodes[node].current == H.DrainComplete
    ensures result == Drained ==> Served(dr.pools, req == H.RebootRequired, dr.cluster.nodes[node])
    ensures result in {NoSlot, Blocked} ==> req != H.NoRequest && dr.cluster.nodes[node].current == H.Idle
    // a busy node is let go only when the request read was Idle, an idle one is taken only when it was not
    ensures req != H.NoRequest && H.Busy(old(dr.cluster.nodes[node].current)) ==> H.Busy(dr.cluster.nodes[node].current)
    ensures req == H.NoRequest && !H.Busy(old(dr.cluster.nodes[node].current)) ==> !H.Busy(dr.cluster.nodes[node].current)
    // undisturbed, one call goes all the way
    ensures env == UNDISTURBED && req == H.NoRequest ==> result in {Settled, Unwound}
    ensures env == UNDISTURBED && result == GaveUp ==> node !in dr.pools.views
    ensures SlotsRespected(dr.pools, dr.cluster)
  {
    dr.Take(Action(node, H.Fetch));
    var w := dr.cluster.nodes[node].worker;
    req := w.req;
    if w.req == H.NoRequest && w.phase == H.Idle {
      var ok := Call(dr, node, H.Settle, env, 0);
      result := if ok then Settled else GaveUp;
    } else if w.req == H.NoRequest {
      result := HandleNodeIdle(dr, node, env);
    } else {
      result := HandleNodeDrainOrReboot(dr, node, env);
    }
    dr.SlotsHold();
  }
}
