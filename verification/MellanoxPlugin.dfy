/** The Mellanox plugin: both of its loops, and what it reports. */
module MellanoxPlugin {
  import opened Base
  import opened Mellanox
  import opened MellanoxPass
  import opened MellanoxSweep

  /** What the plugin goes by: the NICs, the host's store, and the orders in which Go maps yield them. */
  datatype Input = Input(host: Host, inventory: Inventory, order: seq<string>, visits: seq<Visit>, lockdown: bool)

  predicate Possible(x: Input) { WellFormed(x.host) && Visits(x.host, x.order) && Sweeps(x.host, x.visits) }

  /** The NICs with a spec. */
  function SpecNics(h: Host): set<string>
    requires WellFormed(h)
  {
    set pci | pci in h.specs :: Prefix(pci)
  }

  lemma AllPrefixes(h: Host, order: seq<string>)
    requires WellFormed(h) && Visits(h, order)
    ensures Prefixes(h, order, |order|) == SpecNics(h)
  {
    forall prefix ensures prefix in Prefixes(h, order, |order|) <==> prefix in SpecNics(h) {
      InPrefixes(h, order, |order|, prefix);
      if prefix in SpecNics(h) {
        var pci :| pci in h.specs && Prefix(pci) == prefix;
        var i :| 0 <= i < |order| && order[i] == pci;
      }
    }
  }

  /** Both loops: the resets, the settings and the flag, or an error. */
  function Outcomes(x: Input): Outcome<Gathered>
    requires Possible(x)
  {
    match Gather(x.host, Leaders(x.host, x.order, |x.order|))
    case Error => Error
    case Panic => Panic
    case Ok(g) =>
      match Swept(x.host, x.inventory, x.visits, |x.visits|, SpecNics(x.host), g.attributes)
      case Error => Error
      case Panic => Panic
      case Ok(all) => Ok(g.(attributes := all))
  }

  /** The answer: a drain is needed when a reboot is. In kernel lockdown no NIC may be changed. */
  function Reported(x: Input): Outcome<(bool, bool)>
    requires Possible(x)
  {
    if x.lockdown then if |x.host.specs| > 0 then Error else Ok((false, false))
    else match Outcomes(x)
         case Ok(g) => Ok((g.needReboot, g.needReboot))
         case Error => Error
         case Panic => Panic
  }

  /** The package variables the loops share. */
  class Plugin {
    var toReset: seq<string>
    var attributes: map<string, MlxNic>

    constructor () { toReset := []; attributes := map[]; }

    /** OnNodeStateChange: needDrain and needReboot. */
    method OnNodeStateChange(x: Input) returns (r: Outcome<(bool, bool)>)
      requires Possible(x)
      modifies this
      ensures r == Reported(x)
      ensures !x.lockdown && r.Ok? ==> Outcomes(x) == Ok(Gathered(toReset, attributes, r.value.1))
    {
      toReset := [];
      attributes := map[];
      if x.lockdown {
        if |x.host.specs| > 0 {
          return Error;
        }
        return Ok((false, false));
      }
      var ok, needReboot, processed := Pass(x.host, x.order);
      if !ok {
        return Error;
      }
      AllPrefixes(x.host, x.order);
      SweptPanicsNever(x.host, x.inventory, x.visits, |x.visits|, SpecNics(x.host), attributes);
      ok := Sweep(x.host, x.inventory, x.visits, processed);
      if !ok {
        return Error;
      }
      var needDrain := false;
      if needReboot {
        needDrain := true;
      }
      return Ok((needDrain, needReboot));
    }

    /** The loop over the specs. */
    method Pass(h: Host, order: seq<string>) returns (ok: bool, needReboot: bool, processed: set<string>)
      requires WellFormed(h) && Known(h, order) && toReset == [] && attributes == map[]
      modifies this
      ensures ok ==> Gather(h, Leaders(h, order, |order|)) == Ok(Gathered(toReset, attributes, needReboot))
      ensures ok ==> processed == Prefixes(h, order, |order|)
      ensures !ok ==> Gather(h, Leaders(h, order, |order|)) == Error
    {
      needReboot := false;
      processed := {};
      for i := 0 to |order|
        invariant processed == Prefixes(h, order, i)
        invariant Gather(h, Leaders(h, order, i)) == Ok(Gathered(toReset, attributes, needReboot))
      {
        if Prefix(order[i]) in processed {
          continue;
        }
        processed := processed + {Prefix(order[i])};
        ok, needReboot := VisitPort(h, order[i], Leaders(h, order, i), needReboot);
        if !ok {
          UnreadableStays(h, order, i + 1);
          return;
        }
      }
      ok := true;
    }

    /** One turn of the loop. The reboot flag is assigned anew, whatever it was. */
    method VisitPort(h: Host, pci: string, ghost leaders: seq<string>, flag: bool) returns (ok: bool, needReboot: bool)
      requires WellFormed(h) && Known(h, leaders) && pci in h.specs
      requires Gather(h, leaders) == Ok(Gathered(toReset, attributes, flag))
      modifies this
      ensures ok ==> Gather(h, leaders + [pci]) == Ok(Gathered(toReset, attributes, needReboot))
      ensures !ok ==> Gather(h, leaders + [pci]) == Error
    {
      AddLeader(h, leaders, pci);
      var ask := Evaluate(h, pci);
      if !ask.Ok? {
        return false, flag;
      }
      needReboot := ask.value.reboot;
      if needReboot || ask.value.quiet {
        attributes := attributes[pci := ask.value.attrs];
      }
      if needReboot {
        toReset := toReset + [pci];
      }
      return true, needReboot;
    }

    /** The loop over the NICs, for those that have no spec. */
    method Sweep(h: Host, inv: Inventory, visits: seq<Visit>, done: set<string>) returns (ok: bool)
      requires forall i, j :: 0 <= i < j < |visits| ==> visits[i].prefix != visits[j].prefix
      modifies this`attributes
      ensures if ok then Swept(h, inv, visits, |visits|, done, old(attributes)) == Ok(attributes)
              else Swept(h, inv, visits, |visits|, done, old(attributes)) == Error
    {
      var processed := done;
      for i := 0 to |visits|
        invariant Swept(h, inv, visits, i, done, old(attributes)) == Ok(attributes)
        invariant forall j :: i <= j < |visits| ==> (visits[j].prefix in processed <==> visits[j].prefix in done)
      {
        var v := visits[i];
        if v.prefix in processed {
          continue;
        }
        processed := processed + {v.prefix};
        var remove := Decide(h, inv, v);
        if !remove.Ok? {
          SweepErrorStays(h, inv, visits, i + 1, done, old(attributes));
          return false;
        }
        if remove.value {
          attributes := attributes[v.prefix + "0" := REMOVE];
        }
      }
      return true;
    }

    /** The chain of skips for one NIC. */
    method Decide(h: Host, inv: Inventory, v: Visit) returns (r: Outcome<bool>)
      ensures r == Removal(h, inv, v)
    {
      var configured := Search(inv, v.ports, IsConfigured());
      if !configured.Ok? {
        return Error;
      }
      if !configured.value {
        return Ok(false);
      }
      var external := Search(inv, v.again, IsExternal());
      if !external.Ok? {
        return Error;
      }
      if external.value || v.prefix + "0" !in inv.supported {
        return Ok(false);
      }
      if v.prefix !in h.devices {
        return Error;
      }
      return Ok(Leftover(h.devices[v.prefix].next));
    }
  }

  /**
   * Everything that is recorded: for an evaluated port with something to change, what it asks for; for a NIC without
   * a spec that the operator had configured, the removal; and nothing else.
   */
  lemma RecordedSettings(x: Input, pci: string)
    requires Possible(x) && Outcomes(x).Ok? && pci != ""
    ensures var h, leaders := x.host, Leaders(x.host, x.order, |x.order|);
      var all := Outcomes(x).value.attributes;
      var removed := Removed(h, x.inventory, x.visits, |x.visits|, SpecNics(h), pci);
      && (pci in all <==> (pci in leaders && Writes(h, pci)) || removed)
      && (pci in leaders && Writes(h, pci) ==> all[pci] == Evaluate(h, pci).value.attrs)
      && (removed ==> all[pci] == REMOVE)
  {
    var h, leaders := x.host, Leaders(x.host, x.order, |x.order|);
    var base := Changes(h, leaders);
    ChangesAreTheWrites(h, leaders);
    forall q | q in base ensures q != "" && Prefix(q) in SpecNics(h) {
      assert q in h.specs;
    }
    SweptAddsRemovals(h, x.inventory, x.visits, |x.visits|, SpecNics(h), base, pci);
    if Removed(h, x.inventory, x.visits, |x.visits|, SpecNics(h), pci) { RemovedHasNoSpec(x, pci); }
  }

  lemma RemovedHasNoSpec(x: Input, pci: string)
    requires Possible(x) && Removed(x.host, x.inventory, x.visits, |x.visits|, SpecNics(x.host), pci)
    ensures pci !in x.host.specs
  {
    var i :| 0 <= i < |x.visits| && x.visits[i].prefix !in SpecNics(x.host) && pci == x.visits[i].prefix + "0";
    assert Prefix(pci) == x.visits[i].prefix;
  }

  predicate AllReadablePorts(h: Host)
    requires WellFormed(h)
  {
    forall pci :: pci in h.specs ==> Readable(h, pci)
  }

  /** The second loop goes through, whatever the first one has recorded. */
  predicate SweepOk(h: Host, inv: Inventory, visits: seq<Visit>)
    requires WellFormed(h)
  {
    Swept(h, inv, visits, |visits|, SpecNics(h), map[]).Ok?
  }

  predicate ReportsRightly(x: Input)
    requires Possible(x)
  {
    Reported(x) == Ok((SomeAsks(x.host), SomeAsks(x.host)))
  }

  lemma ReportIs(x: Input)
    requires Possible(x) && !x.lockdown
    ensures var leaders := Leaders(x.host, x.order, |x.order|);
      Reported(x) == if AllReadable(x.host, leaders) && SweepOk(x.host, x.inventory, x.visits)
                     then Ok((LastAsks(x.host, leaders), LastAsks(x.host, leaders))) else Error
  {
    var base := Changes(x.host, Leaders(x.host, x.order, |x.order|));
    SweepFailureIgnoresBase(x.host, x.inventory, x.visits, |x.visits|, SpecNics(x.host), base, map[]);
    SweptPanicsNever(x.host, x.inventory, x.visits, |x.visits|, SpecNics(x.host), base);
  }

  /**
   * The report says rightly whether some NIC asks for a reboot, in every order, exactly when every port can be
   * evaluated, the second loop goes through, and the ports agree: all ask for a reboot, or none does.
   */
  lemma RebootIsReportedIff(x: Input)
    requires Possible(x) && !x.lockdown
    ensures (forall order :: Visits(x.host, order) ==> ReportsRightly(x.(order := order))) <==>
      AllReadablePorts(x.host) && SweepOk(x.host, x.inventory, x.visits) && (AllAsk(x.host) || !SomeAsks(x.host))
  {
    var h := x.host;
    if AllReadablePorts(h) && SweepOk(h, x.inventory, x.visits) && (AllAsk(h) || !SomeAsks(h)) {
      forall order | Visits(h, order) ensures ReportsRightly(x.(order := order)) {
        ReportIs(x.(order := order));
        FlagIsRight(h, order);
      }
    } else {
      var order := WrongOrder(x);
    }
  }

  lemma WrongOrder(x: Input) returns (order: seq<string>)
    requires Possible(x) && !x.lockdown
    requires !(AllReadablePorts(x.host) && SweepOk(x.host, x.inventory, x.visits) && (AllAsk(x.host) || !SomeAsks(x.host)))
    ensures Visits(x.host, order) && !ReportsRightly(x.(order := order))
  {
    order := x.order;
    if !AllReadablePorts(x.host) {
      FailsInSomeOrder(x.host);
      order :| Visits(x.host, order) && PassFails(x.host, order);
    } else if SweepOk(x.host, x.inventory, x.visits) {
      order := FlagCanBeWrong(x.host);
    }
    ReportIs(x.(order := order));
  }
}
