/** The Mellanox plugin's second loop: NICs the operator has configured and nobody asks for any more. */
module MellanoxSweep {
  import opened Base
  import opened Mellanox

  /** What the host's store says about a PF. */
  datatype Stored = Missing | Unreadable | Configured(externallyManaged: bool)

  /** The store by PCI address, and the addresses whose device has a known VF device. */
  datatype Inventory = Inventory(stored: map<string, Stored>, supported: set<string>)

  /** A NIC as the loop meets it, with the orders in which its two checks go through its ports. */
  datatype Visit = Visit(prefix: string, ports: seq<string>, again: seq<string>)

  /** An order in which Go maps may yield the NICs and their ports. */
  predicate Sweeps(h: Host, visits: seq<Visit>) {
    && (forall i, j :: 0 <= i < j < |visits| ==> visits[i].prefix != visits[j].prefix)
    && (set v | v in visits :: v.prefix) == h.ports.Keys
    && forall v :: v in visits && v.prefix in h.ports ==>
         (set p | p in v.ports) == h.ports[v.prefix].Keys == (set p | p in v.again)
  }

  const REMOVE := MlxNic(false, 0, "", "")

  function Load(inv: Inventory, pci: string): Stored { if pci in inv.stored then inv.stored[pci] else Missing }

  predicate AllLoad(inv: Inventory, ports: seq<string>) {
    forall i :: 0 <= i < |ports| ==> !Load(inv, ports[i]).Unreadable?
  }

  /** The first port, if any, whose entry can be read and satisfies the test, comes before every unreadable one. */
  predicate FoundFirst(inv: Inventory, ports: seq<string>, test: Stored -> bool) {
    exists i :: 0 <= i < |ports| && test(Load(inv, ports[i])) && AllLoad(inv, ports[..i + 1])
  }

  /** nicConfiguredByOperator and nicHasExternallyManagedPFs are the same search. */
  method Search(inv: Inventory, ports: seq<string>, test: Stored -> bool) returns (r: Outcome<bool>)
    requires !test(Missing)
    ensures r == Searched(inv, ports, test)
  {
    for i := 0 to |ports|
      invariant AllLoad(inv, ports[..i])
      invariant forall j :: 0 <= j < i ==> !test(Load(inv, ports[j]))
    {
      assert ports[..i + 1] == ports[..i] + [ports[i]];
      if Load(inv, ports[i]).Unreadable? {
        NoneBefore(inv, ports, i, test);
        return Error;
      }
      if test(Load(inv, ports[i])) {
        return Ok(true);
      }
    }
    assert ports[..|ports|] == ports;
    return Ok(false);
  }

  function Searched(inv: Inventory, ports: seq<string>, test: Stored -> bool): Outcome<bool> {
    if FoundFirst(inv, ports, test) then Ok(true) else if AllLoad(inv, ports) then Ok(false) else Error
  }

  lemma NoneBefore(inv: Inventory, ports: seq<string>, i: nat, test: Stored -> bool)
    requires i < |ports| && Load(inv, ports[i]).Unreadable? && forall j :: 0 <= j < i ==> !test(Load(inv, ports[j]))
    ensures Searched(inv, ports, test) == Error
  {
    forall j | 0 <= j < |ports| && test(Load(inv, ports[j])) ensures !AllLoad(inv, ports[..j + 1]) {
      assert j >= i && ports[..j + 1][i] == ports[i];
    }
  }

  function IsConfigured(): Stored -> bool { (s: Stored) => s.Configured? }

  function IsExternal(): Stored -> bool { (s: Stored) => s.Configured? && s.externallyManaged }

  predicate Leftover(next: MlxNic) { next.totalVfs > 0 || next.enableSriov }

  /** Whether a NIC without a spec gets its SR-IOV settings removed. */
  function Removal(h: Host, inv: Inventory, v: Visit): Outcome<bool> {
    match Searched(inv, v.ports, IsConfigured())
    case Ok(true) =>
      (match Searched(inv, v.again, IsExternal())
       case Ok(false) =>
         if v.prefix + "0" !in inv.supported then Ok(false)
         else if v.prefix !in h.devices then Error
         else Ok(Leftover(h.devices[v.prefix].next))
       case Ok(true) => Ok(false)
       case _ => Error)
    case Ok(false) => Ok(false)
    case _ => Error
  }

  /** When the store can be read: a NIC is removed exactly when some port was configured here, none is managed elsewhere, and SR-IOV is left over. */
  lemma RemovalMeans(h: Host, inv: Inventory, v: Visit)
    requires AllLoad(inv, v.ports) && AllLoad(inv, v.again)
    ensures Removal(h, inv, v) == Ok(true) <==>
      && (exists i :: 0 <= i < |v.ports| && Load(inv, v.ports[i]).Configured?)
      && (forall i :: 0 <= i < |v.again| ==> Load(inv, v.again[i]) != Configured(true))
      && v.prefix + "0" in inv.supported && v.prefix in h.devices
      && (h.devices[v.prefix].next.totalVfs > 0 || h.devices[v.prefix].next.enableSriov)
  {
    FoundMeans(inv, v.ports, IsConfigured());
    FoundMeans(inv, v.again, IsExternal());
    if i :| 0 <= i < |v.ports| && Load(inv, v.ports[i]).Configured? {
      assert IsConfigured()(Load(inv, v.ports[i]));
    }
    if i :| 0 <= i < |v.again| && Load(inv, v.again[i]) == Configured(true) {
      assert IsExternal()(Load(inv, v.again[i]));
    }
  }

  lemma FoundMeans(inv: Inventory, ports: seq<string>, test: Stored -> bool)
    requires AllLoad(inv, ports)
    ensures FoundFirst(inv, ports, test) <==> exists i :: 0 <= i < |ports| && test(Load(inv, ports[i]))
  {
    if i :| 0 <= i < |ports| && test(Load(inv, ports[i])) {
      assert AllLoad(inv, ports[..i + 1]);
    }
  }

  /** The settings after the first n NICs; those with a spec have been dealt with. */
  function Swept(h: Host, inv: Inventory, visits: seq<Visit>, n: nat, done: set<string>, base: map<string, MlxNic>): Outcome<map<string, MlxNic>>
    requires n <= |visits|
  {
    if n == 0 then Ok(base)
    else match Swept(h, inv, visits, n - 1, done, base)
         case Error => Error
         case Panic => Panic
         case Ok(m) =>
           if visits[n - 1].prefix in done then Ok(m)
           else match Removal(h, inv, visits[n - 1])
                case Ok(remove) => if remove then Ok(m[visits[n - 1].prefix + "0" := REMOVE]) else Ok(m)
                case _ => Error
  }

  /** A NIC of the loop that is removed. */
  predicate Removed(h: Host, inv: Inventory, visits: seq<Visit>, n: nat, done: set<string>, pci: string)
    requires n <= |visits|
  {
    exists i :: 0 <= i < n && visits[i].prefix !in done && pci == visits[i].prefix + "0" && Removal(h, inv, visits[i]) == Ok(true)
  }

  /** The loop adds the removals, and leaves everything recorded for NICs with a spec as it was. */
  lemma {:induction false} SweptAddsRemovals(
    h: Host, inv: Inventory, visits: seq<Visit>, n: nat, done: set<string>, base: map<string, MlxNic>, pci: string)
    requires n <= |visits| && Swept(h, inv, visits, n, done, base).Ok? && pci != ""
    requires forall q :: q in base ==> q != "" && Prefix(q) in done
    ensures var m := Swept(h, inv, visits, n, done, base).value;
      && (pci in m <==> pci in base || Removed(h, inv, visits, n, done, pci))
      && (pci in base ==> m[pci] == base[pci])
      && (pci in m && pci !in base ==> m[pci] == REMOVE)
  {
    if n > 0 {
      SweptAddsRemovals(h, inv, visits, n - 1, done, base, pci);
      var added := visits[n - 1].prefix + "0";
      assert Prefix(added) == visits[n - 1].prefix;
    }
  }

  lemma {:induction false} SweptPanicsNever(h: Host, inv: Inventory, visits: seq<Visit>, n: nat, done: set<string>, base: map<string, MlxNic>)
    requires n <= |visits|
    ensures Swept(h, inv, visits, n, done, base) != Panic
  {
    if n > 0 { SweptPanicsNever(h, inv, visits, n - 1, done, base); }
  }

  lemma {:induction false} SweepErrorStays(
    h: Host, inv: Inventory, visits: seq<Visit>, n: nat, done: set<string>, base: map<string, MlxNic>)
    requires n <= |visits| && Swept(h, inv, visits, n, done, base) == Error
    ensures Swept(h, inv, visits, |visits|, done, base) == Error
    decreases |visits| - n
  {
    if n < |visits| { SweepErrorStays(h, inv, visits, n + 1, done, base); }
  }

  /** Whether the loop fails does not depend on what was recorded before. */
  lemma {:induction false} SweepFailureIgnoresBase(
    h: Host, inv: Inventory, visits: seq<Visit>, n: nat, done: set<string>, a: map<string, MlxNic>, b: map<string, MlxNic>)
    requires n <= |visits|
    ensures Swept(h, inv, visits, n, done, a).Ok? <==> Swept(h, inv, visits, n, done, b).Ok?
  {
    if n > 0 { SweepFailureIgnoresBase(h, inv, visits, n - 1, done, a, b); }
  }

  /** One write is enough: afterwards there is nothing left over to remove. */
  lemma RemovalConverges(next: MlxNic)
    ensures !Leftover(SetAll(next, Arguments(REMOVE)))
  {
    WriteEffect(next, REMOVE);
  }

  /** When every entry of the store can be read the two orders do not matter. */
  lemma SearchIgnoresOrder(inv: Inventory, a: seq<string>, b: seq<string>, test: Stored -> bool)
    requires AllLoad(inv, a) && (forall p :: p in a <==> p in b)
    ensures Searched(inv, a, test) == Searched(inv, b, test)
  {
    forall i | 0 <= i < |b| ensures !Load(inv, b[i]).Unreadable? {
      assert b[i] in b;
      var j :| 0 <= j < |a| && a[j] == b[i];
    }
    if FoundFirst(inv, a, test) { FoundWhenAllLoad(inv, a, b, test); }
    if FoundFirst(inv, b, test) { FoundWhenAllLoad(inv, b, a, test); }
  }

  lemma FoundWhenAllLoad(inv: Inventory, a: seq<string>, b: seq<string>, test: Stored -> bool)
    requires AllLoad(inv, b) && (forall p :: p in a <==> p in b) && FoundFirst(inv, a, test)
    ensures FoundFirst(inv, b, test)
  {
    var i :| 0 <= i < |a| && test(Load(inv, a[i])) && AllLoad(inv, a[..i + 1]);
    assert a[i] in a;
    var j :| 0 <= j < |b| && b[j] == a[i];
    assert AllLoad(inv, b[..j + 1]);
  }
}
