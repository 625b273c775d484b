/** From a partial drain to a reboot: the way through Idle is open at every stage of the partial drain. */
module DrainEscalation {
  import opened Base
  import opened NodeHandshake
  import opened DrainSafety
  import R = DrainRaces

  /** A set of records that no step without a race leaves. */
  ghost predicate Kept(S: iset<NodeRecord>) {
    forall r, a :: r in S && Admits({}, r, a) ==> Next(r, a) in S
  }

  lemma Do(S: iset<NodeRecord>, r: NodeRecord, a: Step, r': NodeRecord)
    requires Kept(S) && r in S && Admits({}, r, a) && r' == Next(r, a)
    ensures r' in S
  {
  }

  /** A partial drain, going on or done, with nobody in the middle of a call. */
  predicate PartialDrain(r: NodeRecord) {
    && Busy(r.current) && r.request == DrainRequired && r.desired == DrainRequired
    && r.worker.Free? && r.daemon.Resting?
  }

  /** Needing a reboot, the daemon withdraws the request. */
  lemma Abort(S: iset<NodeRecord>, r: NodeRecord) returns (r': NodeRecord)
    requires Kept(S) && r in S && PartialDrain(r)
    ensures r' in S && r' == r.(request := NoRequest, desired := NoRequest)
  {
    var a := r.(daemon := Holding(r.current, DrainRequired, true, true));
    Do(S, r, Observe(true, true), a);
    var b := r.(daemon := Annotating(NoRequest));
    DecisionIs(r.current, DrainRequired, true, true);
    Do(S, a, Act, b);
    var c := r.(request := NoRequest, daemon := HalfAnnotated(NoRequest));
    Do(S, b, WriteNode, c);
    r' := r.(request := NoRequest, desired := NoRequest);
    Do(S, c, WriteState, r');
  }

  /** The operator uncordons the node and frees the slot. */
  lemma Unwind(S: iset<NodeRecord>, r: NodeRecord) returns (r': NodeRecord)
    requires Kept(S) && r in S && Busy(r.current) && r.request == NoRequest && r.worker.Free?
    ensures r' in S && r' == r.(current := Idle, completed := false, cordoned := false, drainedAs := None)
  {
    var a := r.(worker := Fetched(NoRequest, r.current));
    Do(S, r, Fetch, a);
    var b := r.(cordoned := false, worker := Uncordoned);
    Do(S, a, Uncordon, b);
    var c := b.(current := Idle, drainedAs := None, worker := Released);
    Do(S, b, Release, c);
    r' := c.(completed := false, worker := Free);
    Do(S, c, ClearCondition, r');
  }

  /** The daemon asks for a reboot. */
  lemma AskForReboot(S: iset<NodeRecord>, r: NodeRecord) returns (r': NodeRecord)
    requires Kept(S) && r in S && r.current == Idle && r.daemon.Resting?
    ensures r' in S && r' == r.(request := RebootRequired, desired := RebootRequired)
  {
    var a := r.(daemon := Holding(Idle, r.desired, true, true));
    Do(S, r, Observe(true, true), a);
    var b := r.(daemon := Annotating(RebootRequired));
    Do(S, a, Act, b);
    var c := r.(request := RebootRequired, daemon := HalfAnnotated(RebootRequired));
    Do(S, b, WriteNode, c);
    r' := r.(request := RebootRequired, desired := RebootRequired);
    Do(S, c, WriteState, r');
  }

  /** The operator takes a slot for the node. */
  lemma TakeSlot(S: iset<NodeRecord>, r: NodeRecord) returns (r': NodeRecord)
    requires Kept(S) && r in S && r.current == Idle && r.request == RebootRequired && r.worker.Free?
    ensures r' in S
    ensures r' == r.(current := Draining, completed := false, worker := DrainingNode(true), markedFor := RebootRequired, drainedAs := None)
  {
    var a := r.(worker := Fetched(RebootRequired, Idle));
    Do(S, r, Fetch, a);
    var b := r.(worker := Counting(RebootRequired, 0, 0, None));
    Do(S, a, Enter, b);
    var c := r.(worker := Counting(RebootRequired, 1, 0, Some(Idle)));
    Do(S, b, CountOne(false, true), c);
    var d := r.(current := Draining, worker := Marked(RebootRequired), markedFor := RebootRequired, drainedAs := None);
    Do(S, c, Mark, d);
    r' := d.(completed := false, worker := DrainingNode(true));
    Do(S, d, ConfirmMark, r');
  }

  /** It drains the whole node. */
  lemma DrainAll(S: iset<NodeRecord>, r: NodeRecord) returns (r': NodeRecord)
    requires Kept(S) && r in S && r.worker == DrainingNode(true)
    ensures r' in S
    ensures r' == r.(current := DrainComplete, completed := true, cordoned := true, worker := Free, drainedAs := Some(WholeNode))
  {
    var a := r.(cordoned := true);
    Do(S, r, Cordon, a);
    var b := a.(drainedAs := Some(WholeNode), worker := DrainedNode(true));
    Do(S, a, FinishDrain(false), b);
    var c := b.(completed := true, worker := Reported);
    Do(S, b, Report, c);
    r' := c.(current := DrainComplete, worker := Free);
    Do(S, c, Publish, r');
  }

  /**
   A node whose partial drain is going on or done can be escalated to a reboot: through Idle, with the slot given back
   and taken again, to a drain of the whole node with the daemon about to reboot it.
   */
  lemma EscalationIsOpen(S: iset<NodeRecord>, r: NodeRecord) returns (idle: NodeRecord, end: NodeRecord)
    requires Kept(S) && r in S && PartialDrain(r)
    ensures idle in S && idle.current == Idle && !idle.cordoned && idle.request == NoRequest
    ensures end in S && CanStep(end, Reboot) && StandingDrain(end) && end.drainedAs == Some(WholeNode)
  {
    var a := Abort(S, r);
    idle := Unwind(S, a);
    var b := AskForReboot(S, idle);
    var c := TakeSlot(S, b);
    var d := DrainAll(S, c);
    var e := d.(daemon := Holding(DrainComplete, RebootRequired, true, true));
    Do(S, d, Observe(true, true), e);
    end := d.(daemon := Applying(true, true));
    Do(S, e, Act, end);
  }

  /** The records that runs without races reach are such a set. */
  lemma RunsAreKept()
    ensures Kept(R.Reached({}))
  {
    forall r, a | r in R.Reached({}) && Admits({}, r, a) ensures Next(r, a) in R.Reached({}) {
      var rs, steps :| R.Reaches({}, rs, steps, r);
      R.ReachesOneMore({}, rs, steps, r, a);
    }
  }

  /** A run without races goes through a partial drain in progress to the reboot of a fully drained node. */
  lemma EscalationHappens() returns (draining: NodeRecord, end: NodeRecord)
    ensures draining in R.Reached({}) && PartialDrain(draining) && draining.current == Draining
    ensures end in R.Reached({}) && CanStep(end, Reboot) && StandingDrain(end) && end.drainedAs == Some(WholeNode)
  {
    R.RunsAreClosed({});
    RunsAreKept();
    var S := R.Reached({});
    var a := R.Ask({}, S, FRESH, false);
    var b := a.(worker := Fetched(DrainRequired, Idle));
    Do(S, a, Fetch, b);
    var c := R.TakeSlot({}, S, b);
    draining := c.(worker := Free);
    Do(S, c, GiveUp, draining);
    var idle;
    idle, end := EscalationIsOpen(S, draining);
  }
}
