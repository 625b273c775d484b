/** BeforeDrainNode and AfterCompleteDrainNode as written, one API call after the other under mcpPauseMutex. */
module Orchestrator {
  import opened Base
  import opened PoolPause

  /** What others do before the k-th API call of a method, and which calls fail. */
  datatype Weather = Weather(others: seq<seq<Action>>, failing: set<nat>)

  const CALM := Weather([], {})

  predicate Outside(a: Action) { a.Daemon? || a.Rollout? }

  /** Between two calls under the mutex the operator's own writes stay as they are. */
  predicate SamePool(s: Pool, t: Pool, n: string) {
    && n in s.nodes && n in t.nodes && s.mark == t.mark && s.paused == t.paused && s.lock == t.lock
    && s.nodes.Keys == t.nodes.Keys && s.nodes[n].call == t.nodes[n].call
  }

  class OpenshiftOrchestrator {
    var pool: Pool
    /** The run that led to `pool`. */
    ghost var past: seq<Pool>
    ghost var acts: seq<Action>

    ghost predicate Valid()
      reads this
    {
      IsRun(past, acts) && past[|acts|] == pool
    }

    constructor (pool: Pool)
      requires Fresh(pool)
      ensures Valid() && this.pool == pool
    {
      this.pool := pool;
      past := [pool];
      acts := [];
    }

    method Take(a: Action)
      requires Valid() && CanAct(pool, a)
      modifies this
      ensures Valid() && acts == old(acts) + [a] && pool == Act(old(pool), a)
    {
      pool := Act(pool, a);
      past := past + [pool];
      acts := acts + [a];
    }

    method Interfere(n: string, others: seq<Action>)
      requires Valid() && n in pool.nodes
      modifies this
      ensures Valid() && old(acts) <= acts && SamePool(old(pool), pool, n)
      ensures others == [] ==> pool == old(pool)
    {
      for i := 0 to |others|
        invariant Valid() && old(acts) <= acts && SamePool(old(pool), pool, n)
        invariant i == 0 ==> pool == old(pool)
      {
        if Outside(others[i]) && CanAct(pool, others[i]) {
          Take(others[i]);
        }
      }
    }

    /** The k-th API call of the method running for `n`: it happens, or it fails and the method returns. */
    method CallApi(n: string, w: Weather, k: nat) returns (ok: bool, ghost seen: Pool)
      requires Valid() && n in pool.nodes && !pool.nodes[n].call.NoCall?
      modifies this
      ensures Valid() && old(acts) <= acts && SamePool(old(pool), seen, n)
      ensures ok <==> k !in w.failing
      ensures pool == if ok then Step(seen, n) else At(seen, n, NoCall)
      ensures w == CALM ==> seen == old(pool)
    {
      Interfere(n, if k < |w.others| then w.others[k] else []);
      seen := pool;
      ok := k !in w.failing;
      if ok { Take(Proceed(n)); } else { Take(Fail(n)); }
    }

    /** Returns true when the pool is paused under the operator's annotation and the drain may go on. */
    method BeforeDrainNode(n: string, w: Weather) returns (r: Outcome<bool>)
      requires Valid() && CanAct(pool, BeginBefore(n))
      modifies this
      ensures Valid() && old(acts) <= acts && n in pool.nodes && pool.nodes[n].call.NoCall?
      ensures r == Ok(true) ==> pool.paused && pool.mark == PausedMark
      ensures r == Ok(true) ==> (pool.nodes[n].granted <==> pool.nodes[n].requested)
      ensures PausedIsMarked(pool) && GrantedIsPaused(pool)
      // a fresh pause is granted only if no rollout is going on when the pool is read back
      ensures r == Ok(true) && old(pool.mark) != PausedMark ==> pool.spec == pool.status
      // undisturbed: true exactly when the pool already is, or can now be, paused between two rollouts
      ensures w == CALM ==> r.Ok?
      ensures w == CALM ==>
        (r == Ok(true) <==>
          old(pool.mark == PausedMark && pool.paused) ||
          (old(pool.spec) == old(pool.status) && (old(pool.mark) == PausedMark ==> old(pool.spec) != "")))
      ensures w == CALM && r == Ok(false) ==> pool == old(pool)
    {
      ghost var seen;
      var ok;
      var mcp := pool;
      PauseHoldsInEveryRun(past, acts, |acts|);
      Take(BeginBefore(n));
      PauseHoldsInEveryRun(past, acts, |acts|);
      if mcp.mark == PausedMark {
        if !mcp.paused {
          if mcp.spec == "" || mcp.status == "" || mcp.spec != mcp.status {
            return Ok(false);
          }
          ok, seen := CallApi(n, w, 0);
          PauseHoldsInEveryRun(past, acts, |acts|);
          if !ok { return Error; }
        }
        return Ok(true);
      }
      if mcp.spec != mcp.status {
        return Ok(false);
      }
      r := PauseFirst(n, w);
      PauseHoldsInEveryRun(past, acts, |acts|);
    }

    /** Annotate, pause, and look again; a rollout that slipped in is let through. */
    method PauseFirst(n: string, w: Weather) returns (r: Outcome<bool>)
      requires Valid() && n in pool.nodes && pool.nodes[n].call == Annotate
      modifies this
      ensures Valid() && old(acts) <= acts && n in pool.nodes && pool.nodes[n].call.NoCall?
      ensures r == Ok(true) ==> pool.paused && pool.mark == PausedMark
      ensures r == Ok(true) ==> (pool.nodes[n].granted <==> pool.nodes[n].requested)
      ensures r == Ok(true) ==> pool.spec == pool.status
      ensures r == Ok(false) ==> !pool.paused && pool.mark == IdleMark
      ensures w == CALM ==> r.Ok? && (r.value <==> old(pool.spec) == old(pool.status))
    {
      var ok := AnnotateAndPause(n, w);
      if !ok { return Error; }
      r := LookAgain(n, w);
    }

    /** In this order, so that a pool paused by the operator always carries its annotation. */
    method AnnotateAndPause(n: string, w: Weather) returns (ok: bool)
      requires Valid() && n in pool.nodes && pool.nodes[n].call == Annotate
      modifies this
      ensures Valid() && old(acts) <= acts && n in pool.nodes
      ensures if ok then pool.nodes[n].call == ReadBack && pool.paused && pool.mark == PausedMark else pool.nodes[n].call.NoCall?
      ensures w == CALM ==> ok && pool.spec == old(pool.spec) && pool.status == old(pool.status)
    {
      ghost var seen;
      ok, seen := CallApi(n, w, 0);
      if ok {
        ok, seen := CallApi(n, w, 1);
      }
    }

    /** Reads the pool back; a rollout that slipped in reverts the pause. */
    method LookAgain(n: string, w: Weather) returns (r: Outcome<bool>)
      requires Valid() && n in pool.nodes && pool.nodes[n].call == ReadBack && pool.paused && pool.mark == PausedMark
      modifies this
      ensures Valid() && old(acts) <= acts && n in pool.nodes && pool.nodes[n].call.NoCall?
      ensures r == Ok(true) ==> pool.paused && pool.mark == PausedMark
      ensures r == Ok(true) ==> (pool.nodes[n].granted <==> pool.nodes[n].requested)
      ensures r == Ok(true) ==> pool.spec == pool.status
      ensures r == Ok(false) ==> !pool.paused && pool.mark == IdleMark
      ensures w == CALM ==> r.Ok? && (r.value <==> old(pool.spec) == old(pool.status))
    {
      ghost var seen;
      var ok;
      ok, seen := CallApi(n, w, 2);
      if !ok { return Error; }
      if pool.nodes[n].call.NoCall? {
        return Ok(true);
      }
      ok := Revert(n, w);
      return if ok then Ok(false) else Error;
    }

    /** Unpause, then take the annotation back. */
    method Revert(n: string, w: Weather) returns (ok: bool)
      requires Valid() && n in pool.nodes && pool.nodes[n].call == Unpause
      modifies this
      ensures Valid() && old(acts) <= acts && n in pool.nodes && pool.nodes[n].call.NoCall?
      ensures ok ==> !pool.paused && pool.mark == IdleMark
      ensures w == CALM ==> ok
    {
      ghost var seen;
      ok, seen := CallApi(n, w, 3);
      if ok {
        ok, seen := CallApi(n, w, 4);
      }
    }

    /** Unpauses the pool when no other node of it has a request. */
    method AfterCompleteDrainNode(n: string, w: Weather) returns (r: Outcome<bool>)
      requires Valid() && CanAct(pool, BeginAfter(n))
      modifies this
      ensures Valid() && old(acts) <= acts && n in pool.nodes && pool.nodes[n].call.NoCall?
      ensures PausedIsMarked(pool) && GrantedIsPaused(pool)
      ensures w == CALM ==> r == Ok(true)
      ensures w == CALM ==>
        if old(pool).mark == PausedMark && !OthersRequested(old(pool), n)
        then !pool.paused && pool.mark == IdleMark
        else pool.paused == old(pool.paused) && pool.mark == old(pool.mark)
    {
      var mcp := pool;
      Take(BeginAfter(n));
      PauseHoldsInEveryRun(past, acts, |acts|);
      if mcp.mark != PausedMark {
        return Ok(true);
      }
      assert forall m :: m in mcp.nodes ==> mcp.nodes[m].requested == pool.nodes[m].requested;
      r := UnpauseIfLast(n, w);
      PauseHoldsInEveryRun(past, acts, |acts|);
    }

    method UnpauseIfLast(n: string, w: Weather) returns (r: Outcome<bool>)
      requires Valid() && n in pool.nodes && pool.nodes[n].call == ListNodes
      modifies this
      ensures Valid() && old(acts) <= acts && n in pool.nodes && pool.nodes[n].call.NoCall?
      ensures w == CALM ==> r == Ok(true)
      ensures w == CALM ==>
        if OthersRequested(old(pool), n) then pool.paused == old(pool.paused) && pool.mark == old(pool.mark)
        else !pool.paused && pool.mark == IdleMark
    {
      ghost var seen;
      var ok;
      ok, seen := CallApi(n, w, 0);
      if !ok { return Error; }
      if pool.nodes[n].call.NoCall? {
        return Ok(true);
      }
      ok := FinishUnpause(n, w);
      return if ok then Ok(true) else Error;
    }

    method FinishUnpause(n: string, w: Weather) returns (ok: bool)
      requires Valid() && n in pool.nodes && pool.nodes[n].call == FinalUnpause
      modifies this
      ensures Valid() && old(acts) <= acts && n in pool.nodes && pool.nodes[n].call.NoCall?
      ensures ok ==> !pool.paused && pool.mark == IdleMark
      ensures w == CALM ==> ok
    {
      ghost var seen;
      ok, seen := CallApi(n, w, 1);
      if ok {
        ok, seen := CallApi(n, w, 2);
      }
    }
  }
}
