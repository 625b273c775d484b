/**
 Pausing an OpenShift MachineConfigPool around node drains.  Every API call of BeforeDrainNode and
 AfterCompleteDrainNode is a step; the machine-config operator, the config daemons, API failures and
 operator restarts may act between any two of them.
 */
module PoolPause {
  import opened Base

  /** The operator's annotation on the pool. */
  datatype Mark = Absent | IdleMark | PausedMark

  /** The API call a BeforeDrainNode or AfterCompleteDrainNode in flight makes next. */
  datatype Call =
    | NoCall
    | RePause                                                   // annotated earlier, pause missing
    | Annotate | Pause | ReadBack | Unpause | Unannotate        // first node of the pool
    | ListNodes | FinalUnpause | FinalUnannotate                // a node completes its drain

  /** `requested`: the Node's drain annotation is not Idle.  `granted`: BeforeDrainNode has answered true since. */
  datatype Member = Member(requested: bool, granted: bool, call: Call)

  /** `lock` is mcpPauseMutex; `spec` and `status` are the pool's rendered configuration names. */
  datatype Pool = Pool(mark: Mark, paused: bool, spec: string, status: string,
                       lock: Option<string>, nodes: map<string, Member>)

  datatype Action =
    | BeginBefore(node: string)
    | BeginAfter(node: string)
    | Proceed(node: string)
    | Fail(node: string)
    | Restart
    | Daemon(node: string, requested: bool)
    | Rollout(spec: string, status: string)

  predicate Completing(c: Call) { c.ListNodes? || c.FinalUnpause? || c.FinalUnannotate? }

  predicate CanAct(s: Pool, a: Action) {
    match a
    case BeginBefore(n) => n in s.nodes && s.nodes[n].call.NoCall? && s.lock.None?
    // completion runs for a node whose request has been read as Idle since its drain was granted
    case BeginAfter(n) => n in s.nodes && s.nodes[n].call.NoCall? && s.lock.None? && !s.nodes[n].granted
    case Proceed(n) => n in s.nodes && !s.nodes[n].call.NoCall?
    case Fail(n) => n in s.nodes && !s.nodes[n].call.NoCall?
    case Restart => true
    case Daemon(n, _) => n in s.nodes
    case Rollout(_, _) => true
  }

  /** The call of `n` goes on with `c`; the mutex is held exactly while there is a call. */
  function At(s: Pool, n: string, c: Call): Pool
    requires n in s.nodes
  {
    s.(nodes := s.nodes[n := s.nodes[n].(call := c)], lock := if c.NoCall? then None else Some(n))
  }

  /** BeforeDrainNode returns true. */
  function Grant(s: Pool, n: string): Pool
    requires n in s.nodes
  {
    s.(nodes := s.nodes[n := Member(s.nodes[n].requested, s.nodes[n].requested, NoCall)], lock := None)
  }

  predicate OthersRequested(s: Pool, n: string) { exists m :: m in s.nodes && m != n && s.nodes[m].requested }

  function Step(s: Pool, n: string): Pool
    requires n in s.nodes && !s.nodes[n].call.NoCall?
  {
    match s.nodes[n].call
    case NoCall => s
    case RePause => Grant(s.(paused := true), n)
    case Annotate => At(s.(mark := PausedMark), n, Pause)
    case Pause => At(s.(paused := true), n, ReadBack)
    case ReadBack => if s.spec != s.status then At(s, n, Unpause) else Grant(s, n)
    case Unpause => At(s.(paused := false), n, Unannotate)
    case Unannotate => At(s.(mark := IdleMark), n, NoCall)
    case ListNodes => At(s, n, if OthersRequested(s, n) then NoCall else FinalUnpause)
    case FinalUnpause => At(s.(paused := false), n, FinalUnannotate)
    case FinalUnannotate => At(s.(mark := IdleMark), n, NoCall)
  }

  function Act(s: Pool, a: Action): Pool
    requires CanAct(s, a)
  {
    match a
    case BeginBefore(n) =>
      if s.mark == PausedMark then
        if s.paused then Grant(s, n)
        else if s.spec == "" || s.status == "" || s.spec != s.status then s
        else At(s, n, RePause)
      else if s.spec != s.status then s
      else At(s, n, Annotate)
    case BeginAfter(n) => if s.mark == PausedMark then At(s, n, ListNodes) else s
    case Proceed(n) => Step(s, n)
    case Fail(n) => At(s, n, NoCall)
    case Restart => s.(nodes := map n | n in s.nodes :: s.nodes[n].(call := NoCall), lock := None)
    case Daemon(n, requested) =>
      s.(nodes := s.nodes[n := s.nodes[n].(requested := requested, granted := s.nodes[n].granted && requested)])
    case Rollout(spec, status) => s.(spec := spec, status := status)
  }

  predicate NoneGranted(s: Pool) { forall n :: n in s.nodes ==> !s.nodes[n].granted }

  /** What a call in flight may rely on. */
  predicate CallInv(s: Pool, c: Call) {
    match c
    case NoCall => true
    case ListNodes => s.mark == PausedMark
    case RePause => s.mark == PausedMark && NoneGranted(s)
    case Annotate => NoneGranted(s)
    case Pause => s.mark == PausedMark && NoneGranted(s)
    case ReadBack => s.mark == PausedMark && s.paused && NoneGranted(s)
    case Unpause => s.mark == PausedMark && NoneGranted(s)
    case Unannotate => !s.paused && NoneGranted(s)
    case FinalUnpause => s.mark == PausedMark && NoneGranted(s)
    case FinalUnannotate => !s.paused && NoneGranted(s)
  }

  /** Crash safety: a paused pool carries the operator's annotation. */
  predicate PausedIsMarked(s: Pool) { s.paused ==> s.mark == PausedMark }

  /** A node with a granted, still standing request sits in a paused pool. */
  predicate GrantedIsPaused(s: Pool) {
    forall n :: n in s.nodes && s.nodes[n].granted ==> s.nodes[n].requested && s.paused
  }

  predicate LockInv(s: Pool) { forall n :: n in s.nodes ==> (!s.nodes[n].call.NoCall? <==> s.lock == Some(n)) }

  predicate Inv(s: Pool) {
    && PausedIsMarked(s) && GrantedIsPaused(s) && LockInv(s)
    && (forall n :: n in s.nodes ==> CallInv(s, s.nodes[n].call))
    && (forall n :: n in s.nodes && Completing(s.nodes[n].call) ==> !s.nodes[n].granted)
  }

  /** No call but that of `n` is in flight, and the pool is sound. */
  predicate Alone(s: Pool, n: string) {
    && n in s.nodes && PausedIsMarked(s) && GrantedIsPaused(s)
    && forall m :: m in s.nodes && m != n ==> s.nodes[m].call.NoCall?
  }

  lemma AtKeepsInv(s: Pool, n: string, c: Call)
    requires Alone(s, n) && CallInv(s, c) && (Completing(c) ==> !s.nodes[n].granted)
    ensures Inv(At(s, n, c))
  {
    assert NoneGranted(s) ==> NoneGranted(At(s, n, c));
  }

  lemma GrantKeepsInv(s: Pool, n: string)
    requires Alone(s, n) && s.paused
    ensures Inv(Grant(s, n))
  {
  }

  lemma StepKeepsInv(s: Pool, n: string)
    requires Inv(s) && n in s.nodes && !s.nodes[n].call.NoCall?
    ensures Inv(Step(s, n))
  {
    assert s.lock == Some(n);
    match s.nodes[n].call
    case RePause => GrantKeepsInv(s.(paused := true), n);
    case Annotate => AtKeepsInv(s.(mark := PausedMark), n, Pause);
    case Pause => AtKeepsInv(s.(paused := true), n, ReadBack);
    case ReadBack => if s.spec != s.status { AtKeepsInv(s, n, Unpause); } else { GrantKeepsInv(s, n); }
    case Unpause => AtKeepsInv(s.(paused := false), n, Unannotate);
    case Unannotate => AtKeepsInv(s.(mark := IdleMark), n, NoCall);
    case ListNodes => AtKeepsInv(s, n, if OthersRequested(s, n) then NoCall else FinalUnpause);
    case FinalUnpause => AtKeepsInv(s.(paused := false), n, FinalUnannotate);
    case FinalUnannotate => AtKeepsInv(s.(mark := IdleMark), n, NoCall);
  }

  lemma BeginKeepsInv(s: Pool, n: string)
    requires Inv(s) && n in s.nodes && s.nodes[n].call.NoCall? && s.lock.None?
    ensures Inv(Act(s, BeginBefore(n)))
    ensures !s.nodes[n].granted ==> Inv(Act(s, BeginAfter(n)))
  {
    assert Alone(s, n);
    if s.mark == PausedMark {
      if s.paused { GrantKeepsInv(s, n); } else { AtKeepsInv(s, n, RePause); }
      if !s.nodes[n].granted { AtKeepsInv(s, n, ListNodes); }
    } else {
      AtKeepsInv(s, n, Annotate);
    }
  }

  lemma ActKeepsInv(s: Pool, a: Action)
    requires Inv(s) && CanAct(s, a)
    ensures Inv(Act(s, a))
  {
    match a
    case BeginBefore(n) => BeginKeepsInv(s, n);
    case BeginAfter(n) => BeginKeepsInv(s, n);
    case Proceed(n) => StepKeepsInv(s, n);
    case Fail(n) => AtKeepsInv(s, n, NoCall);
    case Restart =>
    case Daemon(n, requested) => assert NoneGranted(s) ==> NoneGranted(Act(s, a));
    case Rollout(_, _) =>
  }

  predicate Fresh(s: Pool) {
    s.mark != PausedMark && !s.paused && s.lock.None? &&
    forall n :: n in s.nodes ==> s.nodes[n].call.NoCall? && !s.nodes[n].granted
  }

  predicate IsRun(ss: seq<Pool>, acts: seq<Action>) {
    && |ss| == |acts| + 1 && Fresh(ss[0])
    && forall i {:trigger acts[i]} :: 0 <= i < |acts| ==> CanAct(ss[i], acts[i]) && ss[i + 1] == Act(ss[i], acts[i])
  }

  /**
   After every prefix of writes, whatever fails or restarts: a paused pool carries the annotation, and
   a pool with a node whose drain was granted and whose request still stands is paused.
   */
  lemma {:induction false} PauseHoldsInEveryRun(ss: seq<Pool>, acts: seq<Action>, k: nat)
    requires IsRun(ss, acts) && k < |ss|
    ensures PausedIsMarked(ss[k]) && GrantedIsPaused(ss[k]) && Inv(ss[k])
  {
    if k > 0 {
      PauseHoldsInEveryRun(ss, acts, k - 1);
      ActKeepsInv(ss[k - 1], acts[k - 1]);
    }
  }

  /** A pool is unpaused only by a call of one of two kinds, and never while any node's grant stands. */
  lemma UnpauseNeedsNoGrant(s: Pool, a: Action)
    requires Inv(s) && CanAct(s, a) && s.paused && !Act(s, a).paused
    ensures NoneGranted(s)
    ensures a.Proceed? && (s.nodes[a.node].call == FinalUnpause || s.nodes[a.node].call == Unpause)
  {
    assert a.Proceed?;
  }

  /** The step at which the completion of `n` listed the nodes of the pool. */
  predicate Listed(ss: seq<Pool>, acts: seq<Action>, j: nat, n: string)
    requires |ss| == |acts| + 1
  {
    j < |acts| && acts[j] == Proceed(n) && n in ss[j].nodes && ss[j].nodes[n].call == ListNodes && !OthersRequested(ss[j], n)
  }

  /** A completion about to unpause has listed the pool, found every other node Idle, and made no other call since. */
  lemma {:induction false} CompletionHasListed(ss: seq<Pool>, acts: seq<Action>, k: nat, n: string) returns (j: nat)
    requires IsRun(ss, acts) && k < |ss| && n in ss[k].nodes && ss[k].nodes[n].call == FinalUnpause
    ensures j < k && Listed(ss, acts, j, n)
    ensures forall i :: j < i <= k ==> n in ss[i].nodes && ss[i].nodes[n].call == FinalUnpause
  {
    var before, a := ss[k - 1], acts[k - 1];
    assert ss[k] == Act(before, a);
    BeforeFinalUnpause(before, a, n);
    if before.nodes[n].call == FinalUnpause {
      j := CompletionHasListed(ss, acts, k - 1, n);
    } else {
      j := k - 1;
    }
  }

  lemma BeforeFinalUnpause(s: Pool, a: Action, n: string)
    requires CanAct(s, a) && n in Act(s, a).nodes && Act(s, a).nodes[n].call == FinalUnpause
    ensures n in s.nodes
    ensures s.nodes[n].call == FinalUnpause || (a == Proceed(n) && s.nodes[n].call == ListNodes && !OthersRequested(s, n))
  {
    match a
    case Proceed(m) => StepToFinalUnpause(s, m, n);
    case BeginBefore(m) =>
    case BeginAfter(m) =>
    case Fail(m) =>
    case Restart =>
    case Daemon(m, _) =>
    case Rollout(_, _) =>
  }

  lemma StepToFinalUnpause(s: Pool, m: string, n: string)
    requires m in s.nodes && !s.nodes[m].call.NoCall? && n in Step(s, m).nodes && Step(s, m).nodes[n].call == FinalUnpause
    ensures n in s.nodes && (m != n ==> s.nodes[n].call == FinalUnpause)
    ensures m == n ==> s.nodes[n].call == ListNodes && !OthersRequested(s, n)
  {
  }

  /**
   In every run: a step that unpauses the pool either reverts a pause before anything was granted under it, or
   completes a drain and has seen every other node of the pool Idle; and no grant stands at that moment.
   */
  lemma UnpauseNeedsIdlePool(ss: seq<Pool>, acts: seq<Action>, k: nat)
    requires IsRun(ss, acts) && k < |acts| && ss[k].paused && !ss[k + 1].paused
    ensures NoneGranted(ss[k]) && acts[k].Proceed?
    ensures ss[k].nodes[acts[k].node].call == Unpause || exists j: nat :: j < k && Listed(ss, acts, j, acts[k].node)
  {
    PauseHoldsInEveryRun(ss, acts, k);
    assert ss[k + 1] == Act(ss[k], acts[k]);
    UnpauseNeedsNoGrant(ss[k], acts[k]);
    if ss[k].nodes[acts[k].node].call == FinalUnpause {
      var j := CompletionHasListed(ss, acts, k, acts[k].node);
    }
  }
}
