/**
 Exactly which races break which promise.  Each witness is a run of the only node of a cluster, told as
 membership in every set that such runs cannot leave.
 */
module DrainRaces {
  import opened Base
  import opened NodeHandshake
  import opened DrainSafety

  /** The step is possible on the only node of a cluster, whose pool allows one node. */
  predicate LoneStep(r: NodeRecord, a: Step) {
    && CanStep(r, a)
    && match a
       case CountOne(busy, isSelf) => r.worker.next == 0 && busy == Busy(r.current) && isSelf
       case Pend => r.worker.next == 1 && r.worker.tally >= 1
       case Mark => r.worker.next == 1 && r.worker.tally < 1
       case Resume => r.worker.next == 1
       case FinishDrain(single) => single
       case _ => true
  }

  /** A set of records that holds a fresh node and that no step of a lone node leaves, races of the given kinds included. */
  ghost predicate Closed(kinds: set<Race>, S: iset<NodeRecord>) {
    FRESH in S && forall r, a :: r in S && LoneStep(r, a) && Admits(kinds, r, a) ==> Next(r, a) in S
  }

  predicate Reaches(kinds: set<Race>, rs: seq<NodeRecord>, steps: seq<Step>, r: NodeRecord) {
    IsRun(rs, steps) && Within(kinds, rs, steps) && rs[0] == FRESH && rs[|steps|] == r
  }

  ghost predicate CanReach(kinds: set<Race>, r: NodeRecord) { exists rs, steps :: Reaches(kinds, rs, steps, r) }

  /** The records that runs of a fresh node with races of the given kinds end in. */
  ghost function Reached(kinds: set<Race>): iset<NodeRecord> { iset r | CanReach(kinds, r) }

  lemma ReachesOneMore(kinds: set<Race>, rs: seq<NodeRecord>, steps: seq<Step>, r: NodeRecord, a: Step)
    requires Reaches(kinds, rs, steps, r) && Admits(kinds, r, a)
    ensures Reaches(kinds, rs + [Next(r, a)], steps + [a], Next(r, a))
  {
    var rs', steps' := rs + [Next(r, a)], steps + [a];
    forall i | 0 <= i < |steps'| ensures StepAt(rs', steps', i) {
      assert i < |steps| ==> StepAt(rs, steps, i);
    }
  }

  lemma RunsAreClosed(kinds: set<Race>)
    ensures Closed(kinds, Reached(kinds))
  {
    assert Reaches(kinds, [FRESH], [], FRESH);
    forall r, a | r in Reached(kinds) && LoneStep(r, a) && Admits(kinds, r, a)
      ensures Next(r, a) in Reached(kinds)
    {
      var rs, steps :| Reaches(kinds, rs, steps, r);
      ReachesOneMore(kinds, rs, steps, r, a);
    }
  }

  lemma Do(kinds: set<Race>, S: iset<NodeRecord>, r: NodeRecord, a: Step, r': NodeRecord)
    requires Closed(kinds, S) && r in S && LoneStep(r, a) && Admits(kinds, r, a) && r' == Next(r, a)
    ensures r' in S
  {
  }

  function Asking(reboot: bool): Request { if reboot then RebootRequired else DrainRequired }

  /** The daemon sees the node Idle and decides to ask. */
  lemma DecideToAsk(kinds: set<Race>, S: iset<NodeRecord>, r: NodeRecord, reboot: bool) returns (r': NodeRecord)
    requires Closed(kinds, S) && r in S && r.daemon.Resting? && r.current == Idle
    ensures r' == r.(daemon := Annotating(Asking(reboot))) && r' in S
  {
    var a := r.(daemon := Holding(Idle, r.desired, true, reboot));
    Do(kinds, S, r, Observe(true, reboot), a);
    r' := r.(daemon := Annotating(Asking(reboot)));
    Do(kinds, S, a, Act, r');
  }

  /** The daemon, seeing Idle, annotates both objects with its request. */
  lemma Ask(kinds: set<Race>, S: iset<NodeRecord>, r: NodeRecord, reboot: bool) returns (r': NodeRecord)
    requires Closed(kinds, S) && r in S && r.daemon.Resting? && r.current == Idle
    ensures r' == r.(request := Asking(reboot), desired := Asking(reboot)) && r' in S
  {
    var a := DecideToAsk(kinds, S, r, reboot);
    var b := a.(request := Asking(reboot), daemon := HalfAnnotated(Asking(reboot)));
    Do(kinds, S, a, WriteNode, b);
    r' := b.(desired := Asking(reboot), daemon := Resting);
    Do(kinds, S, b, WriteState, r');
  }

  /** The operator, having read a drain request, finds a slot and marks the node. */
  lemma TakeSlot(kinds: set<Race>, S: iset<NodeRecord>, r: NodeRecord) returns (r': NodeRecord)
    requires Closed(kinds, S) && r in S && r.worker == Fetched(DrainRequired, Idle) && r.current == Idle
    requires r.request == DrainRequired || StaleMark in kinds
    ensures r' in S
    ensures r' == r.(current := Draining, completed := false, worker := DrainingNode(false),
                     markedFor := DrainRequired, drainedAs := None)
  {
    var a := r.(worker := Counting(DrainRequired, 0, 0, None));
    Do(kinds, S, r, Enter, a);
    var b := r.(worker := Counting(DrainRequired, 1, 0, Some(Idle)));
    Do(kinds, S, a, CountOne(false, true), b);
    var c := r.(current := Draining, worker := Marked(DrainRequired), markedFor := DrainRequired,
                drainedAs := None);
    Do(kinds, S, b, Mark, c);
    r' := c.(completed := false, worker := DrainingNode(false));
    Do(kinds, S, c, ConfirmMark, r');
  }

  /** It drains the SR-IOV pods and publishes DrainComplete. */
  lemma Drain(kinds: set<Race>, S: iset<NodeRecord>, r: NodeRecord) returns (r': NodeRecord)
    requires Closed(kinds, S) && r in S && r.worker == DrainingNode(false)
    ensures r' in S
    ensures r' == r.(current := DrainComplete, completed := true, cordoned := true, worker := Free,
                     drainedAs := Some(SriovPods))
  {
    var a := r.(cordoned := true);
    Do(kinds, S, r, Cordon, a);
    var b := a.(drainedAs := Some(SriovPods), worker := DrainedNode(false));
    Do(kinds, S, a, FinishDrain(true), b);
    var c := b.(completed := true, worker := Reported);
    Do(kinds, S, b, Report, c);
    r' := c.(current := DrainComplete, worker := Free);
    Do(kinds, S, c, Publish, r');
  }

  /** The daemon finds DrainComplete under a reboot request and is about to reboot. */
  lemma GoReboot(kinds: set<Race>, S: iset<NodeRecord>, r: NodeRecord) returns (r': NodeRecord)
    requires Closed(kinds, S) && r in S && r.daemon.Resting? && r.current == DrainComplete && r.desired == RebootRequired
    ensures r' in S && r' == r.(daemon := Applying(true, true))
  {
    var a := r.(daemon := Holding(DrainComplete, RebootRequired, true, true));
    Do(kinds, S, r, Observe(true, true), a);
    r' := r.(daemon := Applying(true, true));
    Do(kinds, S, a, Act, r');
  }

  /** The daemon escalates the request after the operator has read it and before the operator marks the node. */
  lemma OperatorActsOnStaleRequest(kinds: set<Race>, S: iset<NodeRecord>) returns (r: NodeRecord)
    requires Closed(kinds, S) && StaleMark in kinds
    ensures r in S && !RebootNeedsFullDrain(r) && r.drainedAs == Some(SriovPods)
  {
    var a := Ask(kinds, S, FRESH, false);
    var b := a.(worker := Fetched(DrainRequired, Idle));
    Do(kinds, S, a, Fetch, b);
    var c := Ask(kinds, S, b, true);
    var d := TakeSlot(kinds, S, c);
    var e := Drain(kinds, S, d);
    r := GoReboot(kinds, S, e);
  }

  /** A drain request has been read by the operator while the daemon holds a view in which the node is Idle. */
  lemma StaleView(kinds: set<Race>, S: iset<NodeRecord>) returns (r: NodeRecord)
    requires Closed(kinds, S)
    ensures r in S && r == FRESH.(request := DrainRequired, desired := DrainRequired,
                                  daemon := Annotating(RebootRequired), worker := Fetched(DrainRequired, Idle))
  {
    var a := Ask(kinds, S, FRESH, false);
    var c := DecideToAsk(kinds, S, a, true);
    r := c.(worker := Fetched(DrainRequired, Idle));
    Do(kinds, S, c, Fetch, r);
  }

  /** The daemon escalates the request after reading Idle, while the operator drains. */
  lemma DaemonActsOnStaleView(kinds: set<Race>, S: iset<NodeRecord>) returns (r: NodeRecord)
    requires Closed(kinds, S) && StaleWrite in kinds
    ensures r in S && !RebootNeedsFullDrain(r) && r.drainedAs == Some(SriovPods)
  {
    var a := StaleView(kinds, S);
    var b := TakeSlot(kinds, S, a);
    var c := Drain(kinds, S, b);
    var d := c.(request := RebootRequired, daemon := HalfAnnotated(RebootRequired));
    Do(kinds, S, c, WriteNode, d);
    var e := d.(desired := RebootRequired, daemon := Resting);
    Do(kinds, S, d, WriteState, e);
    r := GoReboot(kinds, S, e);
  }

  /** A downgrade from reboot to drain is cut short after the Node write. */
  lemma CutDowngrade(kinds: set<Race>, S: iset<NodeRecord>) returns (r: NodeRecord)
    requires Closed(kinds, S) && CutWrite in kinds
    ensures r in S && r == FRESH.(request := DrainRequired, desired := RebootRequired, worker := Fetched(DrainRequired, Idle))
  {
    var a := Ask(kinds, S, FRESH, true);
    var c := DecideToAsk(kinds, S, a, false);
    var d := a.(request := DrainRequired, daemon := HalfAnnotated(DrainRequired));
    Do(kinds, S, c, WriteNode, d);
    var e := a.(request := DrainRequired);
    Do(kinds, S, d, Crash, e);
    r := e.(worker := Fetched(DrainRequired, Idle));
    Do(kinds, S, e, Fetch, r);
  }

  /** With the two annotations torn apart, the drain follows one and the reboot the other. */
  lemma AnnotationsTorn(kinds: set<Race>, S: iset<NodeRecord>) returns (r: NodeRecord)
    requires Closed(kinds, S) && CutWrite in kinds
    ensures r in S && !RebootNeedsFullDrain(r) && r.drainedAs == Some(SriovPods)
  {
    var a := CutDowngrade(kinds, S);
    var b := TakeSlot(kinds, S, a);
    var c := Drain(kinds, S, b);
    r := GoReboot(kinds, S, c);
  }

  /** A first, partial drain has completed. */
  lemma DrainedOnce(kinds: set<Race>, S: iset<NodeRecord>) returns (r: NodeRecord)
    requires Closed(kinds, S)
    ensures r in S
    ensures r == NodeRecord(DrainRequired, DrainRequired, DrainComplete, true, true, Free, Resting,
                            DrainRequired, Some(SriovPods))
  {
    var a := Ask(kinds, S, FRESH, false);
    var b := a.(worker := Fetched(DrainRequired, Idle));
    Do(kinds, S, a, Fetch, b);
    var c := TakeSlot(kinds, S, b);
    r := Drain(kinds, S, c);
  }

  /** The daemon writes Idle on both objects. */
  lemma WriteIdle(kinds: set<Race>, S: iset<NodeRecord>, r: NodeRecord) returns (r': NodeRecord)
    requires Closed(kinds, S) && r in S && r.daemon == Annotating(NoRequest)
    ensures r' in S && r' == r.(request := NoRequest, desired := NoRequest, daemon := Resting)
  {
    var a := r.(request := NoRequest, daemon := HalfAnnotated(NoRequest));
    Do(kinds, S, r, WriteNode, a);
    r' := a.(desired := NoRequest, daemon := Resting);
    Do(kinds, S, a, WriteState, r');
  }

  /** The daemon withdraws a drain request in order to ask for a reboot. */
  lemma Withdraw(kinds: set<Race>, S: iset<NodeRecord>, r: NodeRecord) returns (r': NodeRecord)
    requires Closed(kinds, S) && r in S && r.daemon.Resting? && r.current == DrainComplete && r.desired == DrainRequired
    ensures r' in S && r' == r.(request := NoRequest, desired := NoRequest)
  {
    var a := r.(daemon := Holding(DrainComplete, DrainRequired, true, true));
    Do(kinds, S, r, Observe(true, true), a);
    var b := r.(daemon := Annotating(NoRequest));
    Do(kinds, S, a, Act, b);
    r' := WriteIdle(kinds, S, b);
  }

  /** The daemon applies under its drain request and is done with it. */
  lemma Finish(kinds: set<Race>, S: iset<NodeRecord>, r: NodeRecord) returns (r': NodeRecord)
    requires Closed(kinds, S) && r in S && r.daemon.Resting? && r.current == DrainComplete && r.desired == DrainRequired
    ensures r' in S && r' == r.(request := NoRequest, desired := NoRequest)
  {
    var a := r.(daemon := Holding(DrainComplete, DrainRequired, true, false));
    Do(kinds, S, r, Observe(true, false), a);
    var b := r.(daemon := Applying(true, false));
    Do(kinds, S, a, Act, b);
    var c := r.(daemon := Annotating(NoRequest));
    Do(kinds, S, b, FinishApply, c);
    r' := WriteIdle(kinds, S, c);
  }

  /** Back to Idle, but the write that clears the DrainCompleted condition is lost. */
  lemma LeftoverCondition(kinds: set<Race>, S: iset<NodeRecord>) returns (r: NodeRecord)
    requires Closed(kinds, S)
    ensures r in S
    ensures r == FRESH.(completed := true, markedFor := DrainRequired)
  {
    var a := DrainedOnce(kinds, S);
    var b := Withdraw(kinds, S, a);
    var c := b.(worker := Fetched(NoRequest, DrainComplete));
    Do(kinds, S, b, Fetch, c);
    var d := b.(worker := Uncordoned, cordoned := false);
    Do(kinds, S, c, Uncordon, d);
    var e := d.(current := Idle, drainedAs := None, worker := Released);
    Do(kinds, S, d, Release, e);
    r := e.(worker := Free);
    Do(kinds, S, e, GiveUp, r);
  }

  /** The next Mark loses its condition write too, so the leftover condition is read as a finished drain. */
  lemma AdoptLeftover(kinds: set<Race>, S: iset<NodeRecord>, r: NodeRecord) returns (r': NodeRecord)
    requires Closed(kinds, S) && LostReset in kinds
    requires r in S && r == FRESH.(completed := true, markedFor := DrainRequired,
                                                request := RebootRequired, desired := RebootRequired)
    ensures r' in S && r' == r.(current := DrainComplete, markedFor := RebootRequired)
  {
    var a := r.(worker := Fetched(RebootRequired, Idle));
    Do(kinds, S, r, Fetch, a);
    var b := r.(worker := Counting(RebootRequired, 0, 0, None));
    Do(kinds, S, a, Enter, b);
    var c := r.(worker := Counting(RebootRequired, 1, 0, Some(Idle)));
    Do(kinds, S, b, CountOne(false, true), c);
    var d := r.(current := Draining, markedFor := RebootRequired, worker := Marked(RebootRequired));
    Do(kinds, S, c, Mark, d);
    var e := d.(worker := Free);
    Do(kinds, S, d, GiveUp, e);
    var f := e.(worker := Fetched(RebootRequired, Draining));
    Do(kinds, S, e, Fetch, f);
    r' := e.(current := DrainComplete);
    Do(kinds, S, f, Adopt, r');
  }

  /** Two lost condition writes: the node is about to be rebooted and nothing was drained for it. */
  lemma LeftoverConditionSkipsDrain(kinds: set<Race>, S: iset<NodeRecord>) returns (r: NodeRecord)
    requires Closed(kinds, S) && LostReset in kinds
    ensures r in S && !RebootNeedsFullDrain(r) && r.drainedAs == None
    ensures !CompleteIsStanding(r) && !ApplyNeedsStandingDrain(r)
  {
    var a := LeftoverCondition(kinds, S);
    var b := Ask(kinds, S, a, true);
    var c := AdoptLeftover(kinds, S, b);
    r := GoReboot(kinds, S, c);
  }

  /**
   With only a drain needed and the request withdrawn, the daemon applies on DrainComplete although
   the operator has already uncordoned the node.
   */
  lemma ApplyWhileUncordoning(kinds: set<Race>, S: iset<NodeRecord>) returns (r: NodeRecord)
    requires Closed(kinds, S)
    ensures r in S && r.daemon == Applying(true, false)
    ensures !Torn(r) && r.request == NoRequest && !r.cordoned
  {
    var a := DrainedOnce(kinds, S);
    var b := Finish(kinds, S, a);
    var c := b.(worker := Fetched(NoRequest, DrainComplete));
    Do(kinds, S, b, Fetch, c);
    var d := b.(worker := Uncordoned, cordoned := false);
    Do(kinds, S, c, Uncordon, d);
    var e := d.(daemon := Holding(DrainComplete, NoRequest, true, false));
    Do(kinds, S, d, Observe(true, false), e);
    r := d.(daemon := Applying(true, false));
    Do(kinds, S, e, Act, r);
  }

  // ----- all three together -----

  /** The daemon writes its request on the Node only, and the operator reads it. */
  lemma CutRequest(kinds: set<Race>, S: iset<NodeRecord>) returns (r: NodeRecord)
    requires Closed(kinds, S) && CutWrite in kinds
    ensures r in S && r == FRESH.(request := DrainRequired, worker := Fetched(DrainRequired, Idle))
  {
    var b := DecideToAsk(kinds, S, FRESH, false);
    var c := FRESH.(request := DrainRequired, daemon := HalfAnnotated(DrainRequired));
    Do(kinds, S, b, WriteNode, c);
    var d := FRESH.(request := DrainRequired);
    Do(kinds, S, c, Crash, d);
    r := d.(worker := Fetched(DrainRequired, Idle));
    Do(kinds, S, d, Fetch, r);
  }

  /** Finding no request of its own on the NodeState, it applies without a drain and clears both annotations. */
  lemma ClearCutRequest(kinds: set<Race>, S: iset<NodeRecord>, r: NodeRecord) returns (r': NodeRecord)
    requires Closed(kinds, S) && r in S && r.daemon.Resting? && r.current == Idle && r.desired == NoRequest
    ensures r' in S && r' == r.(request := NoRequest)
  {
    var a := r.(daemon := Holding(Idle, NoRequest, false, false));
    Do(kinds, S, r, Observe(false, false), a);
    var b := r.(daemon := Applying(false, false));
    Do(kinds, S, a, Act, b);
    var c := r.(daemon := Annotating(NoRequest));
    Do(kinds, S, b, FinishApply, c);
    r' := WriteIdle(kinds, S, c);
  }

  /** The node is drained for nobody while the daemon, which saw it Idle, is about to ask. */
  lemma DrainedForNobody(kinds: set<Race>, S: iset<NodeRecord>) returns (r: NodeRecord)
    requires Closed(kinds, S) && CutWrite in kinds && StaleMark in kinds
    ensures r in S
    ensures r == NodeRecord(NoRequest, NoRequest, DrainComplete, true, true, Fetched(NoRequest, DrainComplete),
                            Annotating(DrainRequired), DrainRequired, Some(SriovPods))
  {
    var a := CutRequest(kinds, S);
    var b := ClearCutRequest(kinds, S, a);
    var c := DecideToAsk(kinds, S, b, false);
    var d := TakeSlot(kinds, S, c);
    var e := Drain(kinds, S, d);
    r := e.(worker := Fetched(NoRequest, DrainComplete));
    Do(kinds, S, e, Fetch, r);
  }

  /** The request appears while the operator is about to uncordon the node, and the daemon applies under it. */
  lemma RequestDuringCompletion(kinds: set<Race>, S: iset<NodeRecord>) returns (r: NodeRecord)
    requires Closed(kinds, S) && UNNOTICED <= kinds
    ensures r in S && !CompletionSeesNoRequest(r) && !CompleteIsStanding(r) && !ApplyNeedsStandingDrain(r)
  {
    var a := DrainedForNobody(kinds, S);
    var b := a.(request := DrainRequired, daemon := HalfAnnotated(DrainRequired));
    Do(kinds, S, a, WriteNode, b);
    var c := a.(request := DrainRequired, desired := DrainRequired, daemon := Resting);
    Do(kinds, S, b, WriteState, c);
    var d := c.(daemon := Holding(DrainComplete, DrainRequired, true, false));
    Do(kinds, S, c, Observe(true, false), d);
    r := c.(daemon := Applying(true, false));
    Do(kinds, S, d, Act, r);
  }

  // ----- the exact conditions -----

  /** `S` lies between what a lone node and what any node can reach with races of these kinds. */
  ghost predicate Spans(kinds: set<Race>, S: iset<NodeRecord>) {
    S <= Reached(kinds) && exists T :: Closed(kinds, T) && T <= S
  }

  lemma RunsSpan(kinds: set<Race>)
    ensures Spans(kinds, Reached(kinds))
  {
    RunsAreClosed(kinds);
  }

  /** A race of any kind makes an unsafe reboot possible, by itself. */
  lemma AnyRaceSuffices(kinds: set<Race>, T: iset<NodeRecord>) returns (r: NodeRecord)
    requires Closed(kinds, T) && kinds != {}
    ensures r in T && !RebootNeedsFullDrain(r)
  {
    var kind :| kind in kinds;
    match kind
    case StaleMark => r := OperatorActsOnStaleRequest(kinds, T);
    case StaleWrite => r := DaemonActsOnStaleView(kinds, T);
    case CutWrite => r := AnnotationsTorn(kinds, T);
    case LostReset => r := LeftoverConditionSkipsDrain(kinds, T);
  }

  /** Every reboot finds the whole node drained exactly when there are no races. */
  lemma RebootsAreSafeIff(kinds: set<Race>, S: iset<NodeRecord>)
    requires Spans(kinds, S)
    ensures (forall r :: r in S ==> RebootNeedsFullDrain(r)) <==> kinds == {}
  {
    if kinds == {} {
      forall r | r in S ensures RebootNeedsFullDrain(r) {
        var rs, steps :| Reaches(kinds, rs, steps, r);
        CleanRunsRebootDrainedNodes(rs, steps, |steps|);
      }
    } else {
      var T :| Closed(kinds, T) && T <= S;
      var r := AnyRaceSuffices(kinds, T);
    }
  }

  /** No request appears while the operator undoes a drain, unless three kinds of race come together. */
  lemma CompletionSeesNoRequestIff(kinds: set<Race>, S: iset<NodeRecord>)
    requires Spans(kinds, S)
    ensures (forall r :: r in S ==> CompletionSeesNoRequest(r)) <==> !(UNNOTICED <= kinds)
  {
    if UNNOTICED <= kinds {
      var T :| Closed(kinds, T) && T <= S;
      var r := RequestDuringCompletion(kinds, T);
    } else {
      forall r | r in S ensures CompletionSeesNoRequest(r) {
        var rs, steps :| Reaches(kinds, rs, steps, r);
        RequestInvHolds(kinds, rs, steps, |steps|);
      }
    }
  }

  /** What the two standing-request promises survive: everything but a lost reset or the same three kinds together. */
  predicate KeepsStanding(kinds: set<Race>) { LostReset !in kinds && !(UNNOTICED <= kinds) }

  lemma StandingWitness(kinds: set<Race>, T: iset<NodeRecord>) returns (r: NodeRecord)
    requires Closed(kinds, T) && !KeepsStanding(kinds)
    ensures r in T && !CompleteIsStanding(r) && !ApplyNeedsStandingDrain(r)
  {
    if LostReset in kinds {
      r := LeftoverConditionSkipsDrain(kinds, T);
    } else {
      r := RequestDuringCompletion(kinds, T);
    }
  }

  lemma CompleteIsStandingIff(kinds: set<Race>, S: iset<NodeRecord>)
    requires Spans(kinds, S)
    ensures (forall r :: r in S ==> CompleteIsStanding(r)) <==> KeepsStanding(kinds)
  {
    if KeepsStanding(kinds) {
      forall r | r in S ensures CompleteIsStanding(r) {
        var rs, steps :| Reaches(kinds, rs, steps, r);
        StandingHolds(kinds, rs, steps, |steps|);
      }
    } else {
      var T :| Closed(kinds, T) && T <= S;
      var r := StandingWitness(kinds, T);
    }
  }

  lemma ApplyNeedsStandingDrainIff(kinds: set<Race>, S: iset<NodeRecord>)
    requires Spans(kinds, S)
    ensures (forall r :: r in S ==> ApplyNeedsStandingDrain(r)) <==> KeepsStanding(kinds)
  {
    if KeepsStanding(kinds) {
      forall r | r in S ensures ApplyNeedsStandingDrain(r) {
        var rs, steps :| Reaches(kinds, rs, steps, r);
        StandingHolds(kinds, rs, steps, |steps|);
      }
    } else {
      var T :| Closed(kinds, T) && T <= S;
      var r := StandingWitness(kinds, T);
    }
  }
}
