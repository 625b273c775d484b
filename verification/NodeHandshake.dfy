/**
 The drain handshake of one node: the operator's worker for the node, the config
 daemon on the node, and the three annotations they share.  Every API read and
 every API write is its own step, so the two sides interleave freely; an API
 error, a requeue and a process crash are all the step that abandons the call.
 */
module NodeHandshake {
  import opened Base

  /** The request the daemon writes on the Node and, second, on the NodeState. */
  datatype Request = NoRequest | DrainRequired | RebootRequired

  /** The answer the operator writes on the NodeState. */
  datatype Phase = Idle | Draining | DrainComplete

  /** What a finished DrainNode call removed: the SR-IOV pods, all pods, or nothing on a one-node cluster. */
  datatype Extent = SriovPods | WholeNode | Waived

  /** Where the operator's worker for this node stands inside Reconcile. */
  datatype Worker =
    | Free
    | Fetched(req: Request, phase: Phase)
    | Counting(req: Request, next: nat, tally: nat, self: Option<Phase>)
    | Marked(req: Request)
    | DrainingNode(full: bool)
    | DrainedNode(full: bool)
    | Reported
    | Uncordoned
    | Released

  /** Where the daemon stands inside its Reconcile. */
  datatype Daemon =
    | Resting
    | Holding(phase: Phase, desired: Request, drain: bool, reboot: bool)
    | Annotating(value: Request)
    | HalfAnnotated(value: Request)
    | Applying(drain: bool, reboot: bool)

  /**
   `request`, `desired`, `current`, `completed` (the Draining condition carries reason
   DrainCompleted) and `cordoned` live in the API server.  The last two fields are history:
   what the present drain was marked for, and what the last finished drain removed.
   */
  datatype NodeRecord = NodeRecord(
    request: Request, desired: Request, current: Phase, completed: bool, cordoned: bool,
    worker: Worker, daemon: Daemon, markedFor: Request, drainedAs: Option<Extent>)

  const FRESH := NodeRecord(NoRequest, NoRequest, Idle, false, false, Free, Resting, NoRequest, None)

  datatype Step =
    // operator
    | Fetch | Settle | Uncordon | Release | ClearCondition | NothingToDo | Adopt | Redrain
    | Enter | CountOne(busy: bool, isSelf: bool) | Pend | Mark | ConfirmMark | Resume
    | Cordon | FinishDrain(singleNode: bool) | Report | Publish | GiveUp
    // daemon
    | Observe(drain: bool, reboot: bool) | Act | WriteNode | WriteState | FinishApply | Reboot | Crash

  datatype Decision = Annotate(value: Request) | Wait | Apply | Nothing

  predicate Busy(p: Phase) { p != Idle }

  /** handleDrain; `Apply` stands for "no drain in process, go on". */
  function HandleDrain(phase: Phase, desired: Request, reboot: bool): Decision {
    if Busy(phase) && reboot && desired != RebootRequired then
      if desired == NoRequest then Wait else Annotate(NoRequest)
    else if phase == DrainComplete then Apply
    else if phase == Draining then Wait
    else Annotate(if reboot then RebootRequired else DrainRequired)
  }

  predicate IsDrainCompleted(drain: bool, phase: Phase, desired: Request) {
    if drain || desired != NoRequest then phase == DrainComplete else true
  }

  /** What one daemon Reconcile does with the metadata it holds. */
  function Decide(phase: Phase, desired: Request, drain: bool, reboot: bool): Decision {
    var d := if drain || Busy(phase) then HandleDrain(phase, desired, reboot) else Apply;
    if d.Apply? && !IsDrainCompleted(drain, phase, desired) then Nothing else d
  }

  /**
   The daemon's decision in terms of the node.  It withdraws a drain request exactly when a reboot has become
   necessary, whether the partial drain is still going on or is done; it asks exactly on an idle node that needs a
   drain; it applies exactly on a drained node with the right request, or on an idle one that needs no drain and has
   none requested; it waits exactly while a drain, or the undoing of one, is in the operator's hands.
   */
  lemma DecisionIs(phase: Phase, desired: Request, drain: bool, reboot: bool)
    requires reboot ==> drain
    ensures var d := Decide(phase, desired, drain, reboot);
      && (d == Annotate(NoRequest) <==> reboot && phase in {Draining, DrainComplete} && desired == DrainRequired)
      && (d == Annotate(RebootRequired) <==> reboot && phase == Idle)
      && (d == Annotate(DrainRequired) <==> drain && !reboot && phase == Idle)
      && (d == Apply <==> (phase == DrainComplete && (reboot ==> desired == RebootRequired)) ||
                          (phase == Idle && !drain && desired == NoRequest))
      && (d == Wait <==> (phase == Draining && (reboot ==> desired != DrainRequired)) ||
                         (phase == DrainComplete && reboot && desired == NoRequest))
      && (d == Nothing <==> phase == Idle && !drain && desired != NoRequest)
  {
  }

  predicate CanStep(r: NodeRecord, a: Step) {
    var w, d := r.worker, r.daemon;
    match a
    case Fetch => w.Free?
    case Settle => w == Fetched(NoRequest, Idle)
    case Uncordon => w.Fetched? && w.req == NoRequest && Busy(w.phase)
    case Release => w.Uncordoned?
    case ClearCondition => w.Released?
    case NothingToDo => w.Fetched? && w.req != NoRequest && w.phase == DrainComplete
    case Adopt => w.Fetched? && w.req != NoRequest && w.phase == Draining && r.completed
    case Redrain => w.Fetched? && w.req != NoRequest && w.phase == Draining && !r.completed
    case Enter => w.Fetched? && w.req != NoRequest && w.phase == Idle
    case CountOne(_, _) => w.Counting?
    case Pend => w.Counting? && w.self == Some(Idle)
    case Mark => w.Counting? && w.self == Some(Idle)
    case ConfirmMark => w.Marked?
    case Resume => w.Counting? && w.self.Some? && Busy(w.self.value)
    case Cordon => w.DrainingNode?
    case FinishDrain(single) => w.DrainingNode? && (r.cordoned || (w.full && single))
    case Report => w.DrainedNode?
    case Publish => w.Reported?
    case GiveUp => !w.Free?
    case Observe(drain, reboot) => d.Resting? && (reboot ==> drain)
    case Act => d.Holding?
    case WriteNode => d.Annotating?
    case WriteState => d.HalfAnnotated?
    case FinishApply => d.Applying? && !d.reboot
    case Reboot => d.Applying? && d.reboot
    case Crash => !d.Resting?
  }

  function Next(r: NodeRecord, a: Step): NodeRecord
    requires CanStep(r, a)
  {
    var w, d := r.worker, r.daemon;
    match a
    case Fetch => r.(worker := Fetched(r.request, r.current))
    case Settle => r.(completed := false, worker := Free)
    case Uncordon => r.(cordoned := false, worker := Uncordoned)
    case Release => r.(current := Idle, drainedAs := None, worker := Released)
    case ClearCondition => r.(completed := false, worker := Free)
    case NothingToDo => r.(worker := Free)
    case Adopt => r.(current := DrainComplete, worker := Free)
    case Redrain => r.(worker := DrainingNode(w.req == RebootRequired))
    case Enter => r.(worker := Counting(w.req, 0, 0, None))
    case CountOne(busy, isSelf) =>
      r.(worker := Counting(w.req, w.next + 1, w.tally + (if busy then 1 else 0),
                            if isSelf then Some(r.current) else w.self))
    case Pend => r.(completed := false, worker := Free)
    case Mark =>
      r.(current := Draining, markedFor := w.req, drainedAs := None, worker := Marked(w.req))
    case ConfirmMark => r.(completed := false, worker := DrainingNode(w.req == RebootRequired))
    case Resume => r.(worker := DrainingNode(w.req == RebootRequired))
    case Cordon => r.(cordoned := true)
    case FinishDrain(single) =>
      r.(drainedAs := Some(if w.full then if single then Waived else WholeNode else SriovPods),
         worker := DrainedNode(w.full))
    case Report => r.(completed := true, worker := Reported)
    case Publish => r.(current := DrainComplete, worker := Free)
    case GiveUp => r.(worker := Free)
    case Observe(drain, reboot) => r.(daemon := Holding(r.current, r.desired, drain, reboot))
    case Act =>
      r.(daemon := match Decide(d.phase, d.desired, d.drain, d.reboot)
                   case Annotate(v) => Annotating(v)
                   case Apply => Applying(d.drain, d.reboot)
                   case _ => Resting)
    case WriteNode =>
      r.(request := d.value, daemon := HalfAnnotated(d.value))
    case WriteState => r.(desired := d.value, daemon := Resting)
    case FinishApply => r.(daemon := Annotating(NoRequest))
    case Reboot => r.(daemon := Resting)
    case Crash => r.(daemon := Resting)
  }

  // ----- races -----

  /**
   The four ways in which one side acts on something that is no longer so.  StaleMark: the operator marks
   the node for a request that has changed since it was read.  StaleWrite: the daemon writes a new request
   on a node that has left Idle since it was looked at.  CutWrite: the daemon writes its request on the Node
   and not on the NodeState.  LostReset: a node is marked and the DrainCompleted condition of an earlier
   drain is not taken back.
   */
  datatype Race = StaleMark | StaleWrite | CutWrite | LostReset

  /** The race a step commits, if any. */
  function RaceOf(r: NodeRecord, a: Step): Option<Race>
    requires CanStep(r, a)
  {
    match a
    case Mark => if r.worker.req != r.request then Some(StaleMark) else None
    case WriteNode =>
      if r.daemon.value != NoRequest && r.daemon.value != r.request && Busy(r.current) then Some(StaleWrite) else None
    case Crash => if r.daemon.HalfAnnotated? then Some(CutWrite) else None
    case GiveUp => if r.worker.Marked? && r.completed then Some(LostReset) else None
    case _ => None
  }

  /** A step that commits no race outside `kinds`. */
  predicate Admits(kinds: set<Race>, r: NodeRecord, a: Step) {
    CanStep(r, a) && (RaceOf(r, a).Some? ==> RaceOf(r, a).value in kinds)
  }

  /** A finite run: the records it goes through and the steps between them. */
  predicate IsRun(rs: seq<NodeRecord>, steps: seq<Step>) {
    |rs| == |steps| + 1 && forall i :: 0 <= i < |steps| ==> StepAt(rs, steps, i)
  }

  predicate StepAt(rs: seq<NodeRecord>, steps: seq<Step>, i: nat)
    requires |rs| == |steps| + 1 && i < |steps|
  {
    CanStep(rs[i], steps[i]) && rs[i + 1] == Next(rs[i], steps[i])
  }

  /** A run that commits only races of the given kinds. */
  predicate Within(kinds: set<Race>, rs: seq<NodeRecord>, steps: seq<Step>) {
    |rs| == |steps| + 1 && forall i {:trigger steps[i]} :: 0 <= i < |steps| ==> Admits(kinds, rs[i], steps[i])
  }

  // ----- facts that no race can break -----

  /** The two annotations the daemon writes disagree: the call that writes them has not finished. */
  predicate Torn(r: NodeRecord) { r.request != r.desired }

  /** The worker is on the path that uncordons the node and frees its slot. */
  predicate Unwinding(w: Worker) {
    w.Uncordoned? || (w.Fetched? && w.req == NoRequest && Busy(w.phase))
  }

  predicate Secured(r: NodeRecord) { r.cordoned || r.drainedAs == Some(Waived) }

  /** Facts about the worker's program counter. */
  predicate WorkerInv(r: NodeRecord) {
    var w := r.worker;
    match w
    case Free => true
    case Fetched(_, p) => p == r.current
    case Counting(q, _, _, self) => q != NoRequest && r.current == Idle && (self.Some? ==> self.value == Idle)
    case Marked(q) => q != NoRequest && r.current == Draining && q == r.markedFor
    case DrainingNode(_) => r.current == Draining
    case DrainedNode(full) => r.current == Draining && r.drainedAs.Some? && (r.drainedAs.value == SriovPods <==> !full)
    case Reported => r.current == Draining && r.drainedAs.Some? && r.completed
    case Uncordoned => Busy(r.current)
    case Released => r.current == Idle
  }

  /** Facts about what the daemon holds in memory. */
  predicate DaemonInv(r: NodeRecord) {
    var d := r.daemon;
    match d
    case Holding(_, desired, drain, reboot) => desired == r.desired && (reboot ==> drain)
    case HalfAnnotated(v) => v == r.request
    case Applying(drain, reboot) => reboot ==> drain && r.desired == RebootRequired
    case _ => true
  }

  predicate Inv(r: NodeRecord) { WorkerInv(r) && DaemonInv(r) }

  lemma WorkerStep(r: NodeRecord, a: Step)
    requires WorkerInv(r) && CanStep(r, a)
    ensures WorkerInv(Next(r, a))
  {
  }

  lemma DaemonStep(r: NodeRecord, a: Step)
    requires DaemonInv(r) && CanStep(r, a)
    ensures DaemonInv(Next(r, a))
  {
  }

  /** Every step of either side, races included, keeps the invariant. */
  lemma StepKeepsInv(r: NodeRecord, a: Step)
    requires Inv(r) && CanStep(r, a)
    ensures Inv(Next(r, a))
  {
    WorkerStep(r, a);
    DaemonStep(r, a);
  }

  /** Invariant over whole runs of the node. */
  lemma {:induction false} RunKeepsInv(rs: seq<NodeRecord>, steps: seq<Step>, k: nat)
    requires IsRun(rs, steps) && Inv(rs[0]) && k < |rs|
    ensures Inv(rs[k])
  {
    if k > 0 {
      RunKeepsInv(rs, steps, k - 1);
      assert StepAt(rs, steps, k - 1);
      StepKeepsInv(rs[k - 1], steps[k - 1]);
    }
  }

  // ----- standing requests -----

  /** A drained node on which nothing the operator can do next undoes the drain. */
  predicate StandingDrain(r: NodeRecord) {
    r.current == DrainComplete && r.request != NoRequest && r.drainedAs.Some? && Secured(r) && !Unwinding(r.worker)
  }

  /** The same drain still stands. */
  predicate SameStanding(r: NodeRecord, r': NodeRecord) {
    StandingDrain(r') && r'.cordoned == r.cordoned && r'.drainedAs == r.drainedAs
  }

  /** The daemon withdraws its request. */
  predicate Withdraws(r: NodeRecord, a: Step) { a == WriteNode && r.daemon == Annotating(NoRequest) }

  lemma StandingStep(r: NodeRecord, a: Step, r': NodeRecord)
    requires WorkerInv(r) && StandingDrain(r) && CanStep(r, a) && !Withdraws(r, a) && r' == Next(r, a)
    ensures SameStanding(r, r')
  {
  }

  lemma StandingOneMore(first: NodeRecord, r: NodeRecord, a: Step, r': NodeRecord)
    requires Inv(r) && SameStanding(first, r) && CanStep(r, a) && !Withdraws(r, a) && r' == Next(r, a)
    ensures Inv(r') && SameStanding(first, r')
  {
    StepKeepsInv(r, a);
    StandingStep(r, a, r');
  }

  lemma StandingAt(rs: seq<NodeRecord>, steps: seq<Step>, k: nat)
    requires IsRun(rs, steps) && NeverWithdraws(rs, steps) && k < |steps| && Inv(rs[k]) && SameStanding(rs[0], rs[k])
    ensures Inv(rs[k + 1]) && SameStanding(rs[0], rs[k + 1])
  {
    assert StepAt(rs, steps, k);
    StandingOneMore(rs[0], rs[k], steps[k], rs[k + 1]);
  }

  /**
   Standing requests are stable: once a drain is standing, no interleaving of operator and
   daemon steps, races included, uncordons the node or frees its slot before the daemon itself writes Idle.
   */
  lemma {:induction false} StandingDrainIsStable(rs: seq<NodeRecord>, steps: seq<Step>, k: nat)
    requires IsRun(rs, steps) && Inv(rs[0]) && StandingDrain(rs[0]) && k < |rs|
    requires NeverWithdraws(rs, steps)
    ensures Inv(rs[k]) && SameStanding(rs[0], rs[k])
  {
    if k > 0 {
      StandingDrainIsStable(rs, steps, k - 1);
      StandingAt(rs, steps, k - 1);
    }
  }

  predicate NeverWithdraws(rs: seq<NodeRecord>, steps: seq<Step>)
    requires |rs| == |steps| + 1
  {
    forall i :: 0 <= i < |steps| ==> !Withdraws(rs[i], steps[i])
  }

  /** A daemon that decides and writes without anybody else stepping in between commits no race. */
  lemma WritingAtOnceIsClean(r: NodeRecord, drain: bool, reboot: bool)
    requires CanStep(r, Observe(drain, reboot))
    ensures var read := Next(r, Observe(drain, reboot));
      var decided := Next(read, Act);
      Admits({}, r, Observe(drain, reboot)) && Admits({}, read, Act) &&
      (decided.daemon.Annotating? ==> Admits({}, decided, WriteNode) && Admits({}, Next(decided, WriteNode), WriteState))
  {
  }
}
