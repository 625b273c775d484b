/** Which races each promise of the drain handshake survives. */
module DrainSafety {
  import opened Base
  import opened NodeHandshake

  // ----- the promises -----

  /** While the operator undoes a drain, no request stands. */
  predicate CompletionSeesNoRequest(r: NodeRecord) { Unwinding(r.worker) ==> r.request == NoRequest }

  /** DrainComplete under a request is a standing drain. */
  predicate CompleteIsStanding(r: NodeRecord) {
    r.current == DrainComplete && r.request != NoRequest ==> StandingDrain(r)
  }

  /** Configuration that needs a drain, under a request that still stands, is applied on a drained node. */
  predicate ApplyNeedsStandingDrain(r: NodeRecord) {
    r.daemon.Applying? && r.daemon.drain && r.request != NoRequest ==> StandingDrain(r)
  }

  /** A node about to be rebooted is drained as a whole, or is the only node. */
  predicate RebootNeedsFullDrain(r: NodeRecord) {
    CanStep(r, Reboot) ==> StandingDrain(r) && r.drainedAs.value != SriovPods
  }

  /** The kinds that only together let a request appear under the operator's feet. */
  const UNNOTICED := {StaleMark, StaleWrite, CutWrite}

  // ----- requests and completion -----

  /** The daemon is on its way to a new request. */
  predicate MayAsk(d: Daemon) {
    (d.Holding? && d.phase == Idle && d.drain) || (d.Annotating? && d.value != NoRequest)
  }

  /** On a busy node whose request has been withdrawn, the daemon is not about to ask. */
  predicate Unasked(r: NodeRecord) { Busy(r.current) && r.request == NoRequest ==> !MayAsk(r.daemon) }

  /** The worker carries a request it has read on its way to the mark. */
  predicate Carrying(w: Worker) { w.Counting? || (w.Fetched? && w.req != NoRequest && w.phase == Idle) }

  /** A daemon that may withdraw its request holds a view of a busy node. */
  predicate SawBusy(d: Daemon) {
    (d.Holding? && Busy(d.phase)) || d == Annotating(NoRequest) || d.Applying?
  }

  /** Without cut writes: the annotations agree, and a request is not withdrawn from an idle node or under a carrying worker. */
  predicate Attentive(r: NodeRecord) {
    && (Torn(r) ==> r.daemon.HalfAnnotated?)
    && (SawBusy(r.daemon) && r.request != NoRequest ==> Busy(r.current))
    && (Carrying(r.worker) ==> r.request != NoRequest)
  }

  predicate RequestInv(kinds: set<Race>, r: NodeRecord) {
    && CompletionSeesNoRequest(r)
    && (StaleWrite in kinds ==> Unasked(r))
    && (UNNOTICED - {CutWrite} <= kinds ==> Attentive(r))
  }

  lemma AttentiveStep(kinds: set<Race>, r: NodeRecord, a: Step)
    requires Inv(r) && Attentive(r) && CompletionSeesNoRequest(r) && CutWrite !in kinds && Admits(kinds, r, a)
    ensures Attentive(Next(r, a))
  {
  }

  lemma UnaskedStep(kinds: set<Race>, r: NodeRecord, a: Step)
    requires Inv(r) && Unasked(r) && Admits(kinds, r, a) && (StaleMark in kinds ==> Attentive(r))
    ensures Unasked(Next(r, a))
  {
  }

  lemma CompletionStep(kinds: set<Race>, r: NodeRecord, a: Step)
    requires Inv(r) && CompletionSeesNoRequest(r) && Admits(kinds, r, a) && (StaleWrite in kinds ==> Unasked(r))
    ensures CompletionSeesNoRequest(Next(r, a))
  {
  }

  lemma RequestStep(kinds: set<Race>, r: NodeRecord, a: Step)
    requires Inv(r) && RequestInv(kinds, r) && Admits(kinds, r, a) && !(UNNOTICED <= kinds)
    ensures RequestInv(kinds, Next(r, a))
  {
    CompletionStep(kinds, r, a);
    if StaleWrite in kinds { UnaskedStep(kinds, r, a); }
    if UNNOTICED - {CutWrite} <= kinds { AttentiveStep(kinds, r, a); }
  }

  // ----- finished drains -----

  /** The condition says that the drain the node is marked for has finished. */
  predicate Adoptable(r: NodeRecord) { r.current == Draining && r.completed && !r.worker.Marked? }

  /** What shows as finished was drained, and while the request stands the node is secured. */
  predicate FinishedInv(r: NodeRecord) {
    && (Adoptable(r) || r.current == DrainComplete ==> r.drainedAs.Some? && (r.request != NoRequest ==> Secured(r)))
    && (r.worker.DrainedNode? || r.worker.Reported? ==> Secured(r))
  }

  /** A daemon that saw DrainComplete still sees it, as long as its request stands. */
  predicate ViewInv(r: NodeRecord) {
    (r.daemon.Holding? && r.daemon.phase == DrainComplete) || (r.daemon.Applying? && r.daemon.drain) ==>
      r.request == NoRequest || r.current == DrainComplete
  }

  lemma FinishedStep(kinds: set<Race>, r: NodeRecord, a: Step)
    requires Inv(r) && RequestInv(kinds, r) && FinishedInv(r) && Admits(kinds, r, a) && LostReset !in kinds
    ensures FinishedInv(Next(r, a))
  {
  }

  lemma ViewStep(r: NodeRecord, a: Step)
    requires Inv(r) && CompletionSeesNoRequest(r) && ViewInv(r) && CanStep(r, a)
    ensures ViewInv(Next(r, a))
  {
  }

  // ----- clean runs -----

  predicate Serves(e: Option<Extent>, req: Request) {
    e.Some? && (e.value == SriovPods <==> req == DrainRequired)
  }

  /** Without races: the drain in progress, and the one finished, is the one asked for. */
  predicate ServiceInv(r: NodeRecord) {
    var w := r.worker;
    && (Busy(r.current) ==> r.markedFor != NoRequest && (r.request == NoRequest || r.request == r.markedFor))
    && (w.Fetched? && Busy(w.phase) && w.req != NoRequest ==> w.req == r.markedFor)
    && (w.DrainingNode? || w.DrainedNode? ==> (w.full <==> r.markedFor == RebootRequired))
    && (w.Reported? || Adoptable(r) || r.current == DrainComplete ==> Serves(r.drainedAs, r.markedFor))
  }

  lemma ServiceStep(r: NodeRecord, a: Step)
    requires Inv(r) && ServiceInv(r) && CompletionSeesNoRequest(r) && Admits({}, r, a)
    ensures ServiceInv(Next(r, a))
  {
  }

  predicate CleanInv(r: NodeRecord) {
    RequestInv({}, r) && FinishedInv(r) && ViewInv(r) && ServiceInv(r) && (Torn(r) ==> r.daemon.HalfAnnotated?)
  }

  lemma CleanStep(r: NodeRecord, a: Step)
    requires Inv(r) && CleanInv(r) && Admits({}, r, a)
    ensures CleanInv(Next(r, a))
  {
    RequestStep({}, r, a);
    FinishedStep({}, r, a);
    ViewStep(r, a);
    ServiceStep(r, a);
  }

  lemma CleanMeansSafe(r: NodeRecord)
    requires Inv(r) && CleanInv(r)
    ensures RebootNeedsFullDrain(r)
  {
  }

  // ----- whole runs -----

  /** Nobody is in the middle of anything, the node is Idle, and the two annotations agree. */
  predicate Quiet(r: NodeRecord) {
    r.current == Idle && !Torn(r) && r.worker.Free? && r.daemon.Resting?
  }

  lemma QuietIsSound(kinds: set<Race>, r: NodeRecord)
    requires Quiet(r)
    ensures Inv(r) && RequestInv(kinds, r) && FinishedInv(r) && ViewInv(r) && CleanInv(r)
  {
  }

  lemma {:induction false} RequestInvHolds(kinds: set<Race>, rs: seq<NodeRecord>, steps: seq<Step>, k: nat)
    requires IsRun(rs, steps) && Within(kinds, rs, steps) && Quiet(rs[0]) && !(UNNOTICED <= kinds) && k < |rs|
    ensures Inv(rs[k]) && RequestInv(kinds, rs[k])
  {
    QuietIsSound(kinds, rs[0]);
    if k > 0 {
      RequestInvHolds(kinds, rs, steps, k - 1);
      assert StepAt(rs, steps, k - 1);
      StepKeepsInv(rs[k - 1], steps[k - 1]);
      RequestStep(kinds, rs[k - 1], steps[k - 1]);
    }
  }

  lemma {:induction false} FinishedInvHolds(kinds: set<Race>, rs: seq<NodeRecord>, steps: seq<Step>, k: nat)
    requires IsRun(rs, steps) && Within(kinds, rs, steps) && Quiet(rs[0]) && k < |rs|
    requires !(UNNOTICED <= kinds) && LostReset !in kinds
    ensures FinishedInv(rs[k]) && ViewInv(rs[k])
  {
    QuietIsSound(kinds, rs[0]);
    if k > 0 {
      FinishedInvHolds(kinds, rs, steps, k - 1);
      RequestInvHolds(kinds, rs, steps, k - 1);
      assert StepAt(rs, steps, k - 1);
      FinishedStep(kinds, rs[k - 1], steps[k - 1]);
      ViewStep(rs[k - 1], steps[k - 1]);
    }
  }

  /**
   In a run without races every reboot finds the whole node drained, through every escalation.  The run may
   start at any quiet point, so a race endangers no reboot beyond the next one.
   */
  lemma {:induction false} CleanRunsRebootDrainedNodes(rs: seq<NodeRecord>, steps: seq<Step>, k: nat)
    requires IsRun(rs, steps) && Within({}, rs, steps) && Quiet(rs[0]) && k < |rs|
    ensures Inv(rs[k]) && CleanInv(rs[k]) && RebootNeedsFullDrain(rs[k])
  {
    QuietIsSound({}, rs[0]);
    if k > 0 {
      CleanRunsRebootDrainedNodes(rs, steps, k - 1);
      assert StepAt(rs, steps, k - 1);
      StepKeepsInv(rs[k - 1], steps[k - 1]);
      CleanStep(rs[k - 1], steps[k - 1]);
    }
    CleanMeansSafe(rs[k]);
  }

  /** With a kind of {StaleMark, StaleWrite, CutWrite} missing and no lost reset, both standing-request promises hold. */
  lemma StandingHolds(kinds: set<Race>, rs: seq<NodeRecord>, steps: seq<Step>, k: nat)
    requires IsRun(rs, steps) && Within(kinds, rs, steps) && Quiet(rs[0]) && k < |rs|
    requires !(UNNOTICED <= kinds) && LostReset !in kinds
    ensures CompleteIsStanding(rs[k]) && ApplyNeedsStandingDrain(rs[k])
  {
    RequestInvHolds(kinds, rs, steps, k);
    FinishedInvHolds(kinds, rs, steps, k);
  }
}
