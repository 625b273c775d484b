/** The policy controller: sort the policies, fold the ones that select a node, and write the spec if it changed. */
module PolicySync {
  import opened Base
  import opened Text
  import opened Policies
  import opened Stacking
  import opened PolicyFold
  import opened NodeState
  import B = Bridges

  const DEFAULT_POLICY := "default"

  /** ByPriority.Less: larger numbers first, so that the most important policy is applied last; then by name. */
  predicate Before(a: Policy, b: Policy) {
    if a.priority != b.priority then a.priority > b.priority else Text.Less(a.name, b.name)
  }

  /** What sort.Sort promises. */
  predicate IsSortOf(sorted: seq<Policy>, given: seq<Policy>) {
    && multiset(sorted) == multiset(given)
    && forall i, j :: 0 <= i < j < |sorted| ==> !Before(sorted[j], sorted[i])
  }

  predicate NamesUnique(ps: seq<Policy>) { forall i, j :: 0 <= i < j < |ps| ==> ps[i].name != ps[j].name }

  predicate StrictlySorted(ps: seq<Policy>) { forall i, j :: 0 <= i < j < |ps| ==> Before(ps[i], ps[j]) }

  lemma UniqueByMultiset(xs: seq<Policy>, ys: seq<Policy>)
    requires multiset(xs) == multiset(ys) && NamesUnique(xs)
    ensures NamesUnique(ys)
  {
    forall i, j | 0 <= i < j < |ys| ensures ys[i].name != ys[j].name {
      var p, q := TwoPlaces(xs, ys, i, j);
    }
  }

  lemma SortIsStrict(sorted: seq<Policy>, given: seq<Policy>)
    requires IsSortOf(sorted, given) && NamesUnique(given)
    ensures StrictlySorted(sorted)
  {
    UniqueByMultiset(given, sorted);
    forall i, j | 0 <= i < j < |sorted| ensures Before(sorted[i], sorted[j]) {
      LessTotal(sorted[i].name, sorted[j].name);
    }
  }

  lemma BeforeIsStrict(a: Policy, b: Policy)
    ensures !(Before(a, b) && Before(b, a))
  {
    if Text.Less(a.name, b.name) && Text.Less(b.name, a.name) {
      LessTransitive(a.name, b.name, a.name);
      LessIrreflexive(a.name);
    }
  }

  lemma SameHead(xs: seq<Policy>, ys: seq<Policy>)
    requires multiset(xs) == multiset(ys) && StrictlySorted(xs) && StrictlySorted(ys) && xs != [] && ys != []
    ensures xs[0] == ys[0]
  {
    assert xs[0] in multiset(xs) && ys[0] in multiset(ys);
    var j :| 0 <= j < |ys| && ys[j] == xs[0];
    var i :| 0 <= i < |xs| && xs[i] == ys[0];
    BeforeIsStrict(xs[0], ys[0]);
    assert i == 0 || j == 0;
  }

  lemma Tail(xs: seq<Policy>)
    requires xs != [] && StrictlySorted(xs)
    ensures StrictlySorted(xs[1..]) && multiset(xs[1..]) == multiset(xs) - multiset{xs[0]}
  {
    assert xs == [xs[0]] + xs[1..];
  }

  lemma {:induction false} StrictSortIsUnique(xs: seq<Policy>, ys: seq<Policy>)
    requires multiset(xs) == multiset(ys) && StrictlySorted(xs) && StrictlySorted(ys)
    ensures xs == ys
  {
    assert |multiset(xs)| == |xs| && |multiset(ys)| == |ys|;
    if xs != [] {
      SameHead(xs, ys);
      Tail(xs);
      Tail(ys);
      StrictSortIsUnique(xs[1..], ys[1..]);
      assert xs == [xs[0]] + xs[1..] && ys == [ys[0]] + ys[1..];
    }
  }

  /** However the API server lists the policies, sorting gives the same list. */
  lemma SortForgetsOrder(a: seq<Policy>, b: seq<Policy>, sortedA: seq<Policy>, sortedB: seq<Policy>)
    requires multiset(a) == multiset(b) && NamesUnique(a)
    requires IsSortOf(sortedA, a) && IsSortOf(sortedB, b)
    ensures sortedA == sortedB
  {
    UniqueByMultiset(a, b);
    SortIsStrict(sortedA, a);
    SortIsStrict(sortedB, b);
    StrictSortIsUnique(sortedA, sortedB);
  }

  // ----- the fold over a node's policies -----

  predicate Chosen(p: Policy, labels: map<string, string>) { p.name != DEFAULT_POLICY && SelectsNode(p, labels) }

  /** Priority of the last chosen policy among the first n, starting from 100. */
  function PreviousPriority(ps: seq<Policy>, n: nat, labels: map<string, string>): int
    requires n <= |ps|
  {
    if n == 0 then 100
    else if Chosen(ps[n - 1], labels) then ps[n - 1].priority
    else PreviousPriority(ps, n - 1, labels)
  }

  /** In a sorted list the flag says that a policy of the same priority has been applied before, or, for the first one, priority 100. */
  lemma SamePriorityMeans(ps: seq<Policy>, n: nat, labels: map<string, string>)
    requires StrictlySorted(ps) && n < |ps|
    ensures PreviousPriority(ps, n, labels) == ps[n].priority <==>
      if exists j :: 0 <= j < n && Chosen(ps[j], labels)
      then exists j :: 0 <= j < n && Chosen(ps[j], labels) && ps[j].priority == ps[n].priority
      else ps[n].priority == 100
  {
    var k := PreviousIs(ps, n, labels);
    if k.Some? && exists j :: 0 <= j < n && Chosen(ps[j], labels) && ps[j].priority == ps[n].priority {
      var j :| 0 <= j < n && Chosen(ps[j], labels) && ps[j].priority == ps[n].priority;
      assert j <= k.value;
      assert j < k.value ==> Before(ps[j], ps[k.value]);
      assert Before(ps[k.value], ps[n]);
    }
  }

  /** It is the priority of the last policy applied before, and 100 when there is none. */
  lemma {:induction false} PreviousIs(ps: seq<Policy>, n: nat, labels: map<string, string>) returns (k: Option<nat>)
    requires n <= |ps|
    ensures k.None? ==> PreviousPriority(ps, n, labels) == 100 && forall j :: 0 <= j < n ==> !Chosen(ps[j], labels)
    ensures k.Some? ==> k.value < n && Chosen(ps[k.value], labels) && PreviousPriority(ps, n, labels) == ps[k.value].priority
    ensures k.Some? ==> forall j :: k.value < j < n ==> !Chosen(ps[j], labels)
  {
    if n == 0 {
      k := None;
    } else if Chosen(ps[n - 1], labels) {
      k := Some(n - 1);
    } else {
      k := PreviousIs(ps, n - 1, labels);
    }
  }

  /** All updates of the first n policies, in the order they are made. */
  function Updates(ps: seq<Policy>, n: nat, labels: map<string, string>, status: seq<Nic>): Outcome<seq<Event>>
    requires n <= |ps|
  {
    if n == 0 then Ok([])
    else match Updates(ps, n - 1, labels, status)
         case Error => Error
         case Panic => Panic
         case Ok(es) =>
           if !Chosen(ps[n - 1], labels) then Ok(es)
           else match EventsOf(ps[n - 1], status, PreviousPriority(ps, n - 1, labels) == ps[n - 1].priority)
                case Ok(more) => Ok(es + more)
                case Error => Error
                case Panic => Panic
  }

  function BridgeUpdates(ps: seq<Policy>, n: nat, labels: map<string, string>, status: seq<Nic>): Outcome<seq<B.Event>>
    requires n <= |ps|
  {
    if n == 0 then Ok([])
    else match BridgeUpdates(ps, n - 1, labels, status)
         case Error => Error
         case Panic => Panic
         case Ok(es) =>
           if !Chosen(ps[n - 1], labels) then Ok(es)
           else if IsEmpty(ps[n - 1].nics) || BridgePolicyOk(ps[n - 1]) then Ok(es + BridgeEventsOf(ps[n - 1], status))
           else Error
  }

  datatype Spec = Spec(interfaces: seq<Interface>, bridges: seq<B.OvsBridge>, system: string)

  /** The spec the sorted policies produce, or nothing when one of them cannot be applied. */
  function Generate(ps: seq<Policy>, labels: map<string, string>, status: seq<Nic>, manageBridges: bool, system: string): Option<Spec> {
    match Updates(ps, |ps|, labels, status)
    case Ok(es) =>
      if !manageBridges then Some(Spec(FoldEvents([], es), [], system))
      else (match BridgeUpdates(ps, |ps|, labels, status)
            case Ok(bs) => Some(Spec(FoldEvents([], es), B.Fold([], bs), system))
            case _ => None)
    case _ => None
  }

  lemma {:induction false} FoldAppend(ifaces: seq<Interface>, a: seq<Event>, b: seq<Event>)
    ensures FoldEvents(FoldEvents(ifaces, a), b) == FoldEvents(ifaces, a + b)
  {
    if b == [] {
      assert a + b == a;
    } else {
      FoldAppend(ifaces, a, b[..|b| - 1]);
      assert (a + b)[..|a + b| - 1] == a + b[..|b| - 1];
    }
  }

  lemma {:induction false} BridgeFoldAppend(a: seq<B.Event>, b: seq<B.Event>)
    ensures B.Fold(B.Fold([], a), b) == B.Fold([], a + b)
  {
    if b == [] {
      assert a + b == a;
    } else {
      BridgeFoldAppend(a, b[..|b| - 1]);
      assert (a + b)[..|a + b| - 1] == a + b[..|b| - 1];
    }
  }

  /** The new object after the first n policies. */
  predicate SoFar(ps: seq<Policy>, n: nat, labels: map<string, string>, status: seq<Nic>, manageBridges: bool,
                  ifaces: seq<Interface>, bridges: seq<B.OvsBridge>)
    requires n <= |ps|
  {
    && Updates(ps, n, labels, status).Ok? && ifaces == FoldEvents([], Updates(ps, n, labels, status).value)
    && if manageBridges
       then BridgeUpdates(ps, n, labels, status).Ok? && bridges == B.Fold([], BridgeUpdates(ps, n, labels, status).value)
       else bridges == []
  }

  predicate CanApply(p: Policy, status: seq<Nic>, equalPriority: bool, manageBridges: bool) {
    EventsOf(p, status, equalPriority).Ok? && (manageBridges ==> IsEmpty(p.nics) || BridgePolicyOk(p))
  }

  lemma Advance(ps: seq<Policy>, n: nat, labels: map<string, string>, status: seq<Nic>, manageBridges: bool,
                ifaces: seq<Interface>, bridges: seq<B.OvsBridge>, equal: bool)
    requires n < |ps| && SoFar(ps, n, labels, status, manageBridges, ifaces, bridges) && Chosen(ps[n], labels)
    requires equal == (PreviousPriority(ps, n, labels) == ps[n].priority) && CanApply(ps[n], status, equal, manageBridges)
    ensures SoFar(ps, n + 1, labels, status, manageBridges, FoldEvents(ifaces, EventsOf(ps[n], status, equal).value),
                  if manageBridges then B.Fold(bridges, BridgeEventsOf(ps[n], status)) else bridges)
  {
    FoldAppend([], Updates(ps, n, labels, status).value, EventsOf(ps[n], status, equal).value);
    if manageBridges {
      BridgeFoldAppend(BridgeUpdates(ps, n, labels, status).value, BridgeEventsOf(ps[n], status));
    }
  }

  lemma Stop(ps: seq<Policy>, n: nat, labels: map<string, string>, status: seq<Nic>, manageBridges: bool, system: string, equal: bool)
    requires n < |ps| && Chosen(ps[n], labels) && equal == (PreviousPriority(ps, n, labels) == ps[n].priority)
    requires !CanApply(ps[n], status, equal, manageBridges)
    ensures Generate(ps, labels, status, manageBridges, system) == None
  {
    if EventsOf(ps[n], status, equal).Ok? {
      BridgeFailureStays(ps, n + 1, labels, status);
    } else {
      FailureStays(ps, n + 1, labels, status);
    }
  }

  /** One turn of the loop for a policy that selects the node. */
  method ApplyChosen(newVersion: State, p: Policy, equal: bool, manageBridges: bool) returns (ok: bool)
    requires newVersion.Valid() && p.numVfs <= MAX_INT
    modifies newVersion
    ensures newVersion.Valid()
    ensures ok <==> CanApply(p, newVersion.status, equal, manageBridges)
    ensures ok ==> newVersion.interfaces == FoldEvents(old(newVersion.interfaces), EventsOf(p, newVersion.status, equal).value)
    ensures ok && manageBridges ==> newVersion.bridges == B.Fold(old(newVersion.bridges), BridgeEventsOf(p, newVersion.status))
    ensures !manageBridges ==> newVersion.bridges == old(newVersion.bridges)
  {
    var r := newVersion.Apply(p, equal);
    if !r.Ok? {
      return false;
    }
    if manageBridges {
      ok := newVersion.ApplyBridgeConfig(p);
      return;
    }
    return true;
  }

  /** The loop of syncSriovNetworkNodeState over the sorted policies. */
  method FoldPolicies(ps: seq<Policy>, labels: map<string, string>, status: seq<Nic>, manageBridges: bool, system: string)
    returns (spec: Option<Spec>)
    requires forall i :: 0 <= i < |ps| ==> ps[i].numVfs <= MAX_INT
    ensures spec == Generate(ps, labels, status, manageBridges, system)
  {
    var newVersion := new State(status);
    var ppp := 100;
    for i := 0 to |ps|
      invariant newVersion.Valid() && newVersion.status == status && fresh(newVersion)
      invariant ppp == PreviousPriority(ps, i, labels)
      invariant SoFar(ps, i, labels, status, manageBridges, newVersion.interfaces, newVersion.bridges)
    {
      var p := ps[i];
      if p.name == DEFAULT_POLICY {
        continue;
      }
      if SelectsNode(p, labels) {
        ghost var ifaces, bridges := newVersion.interfaces, newVersion.bridges;
        var ok := ApplyChosen(newVersion, p, ppp == p.priority, manageBridges);
        if !ok {
          Stop(ps, i, labels, status, manageBridges, system, ppp == p.priority);
          return None;
        }
        Advance(ps, i, labels, status, manageBridges, ifaces, bridges, ppp == p.priority);
        ppp := p.priority;
      }
    }
    return Some(Spec(newVersion.interfaces, newVersion.bridges, system));
  }

  lemma {:induction false} FailureStays(ps: seq<Policy>, i: nat, labels: map<string, string>, status: seq<Nic>)
    requires i <= |ps| && !Updates(ps, i, labels, status).Ok?
    ensures !Updates(ps, |ps|, labels, status).Ok?
    decreases |ps| - i
  {
    if i < |ps| { FailureStays(ps, i + 1, labels, status); }
  }

  lemma {:induction false} BridgeFailureStays(ps: seq<Policy>, i: nat, labels: map<string, string>, status: seq<Nic>)
    requires i <= |ps| && !BridgeUpdates(ps, i, labels, status).Ok?
    ensures !BridgeUpdates(ps, |ps|, labels, status).Ok?
    decreases |ps| - i
  {
    if i < |ps| { BridgeFailureStays(ps, i + 1, labels, status); }
  }

  // ----- writing it -----

  /** The stored object, and whether it carries the keep-until annotation. */
  datatype Stored = Stored(spec: Spec, owners: string, keepUntil: bool)

  datatype SyncResult = Unchanged | Update(written: Stored) | Failed

  datatype Inputs = Inputs(policies: seq<Policy>, labels: map<string, string>, status: seq<Nic>,
                           manageBridges: bool, system: string, owners: string)

  /** syncSriovNetworkNodeState on an existing object. */
  function Sync(found: Stored, inp: Inputs): SyncResult {
    if inp.status == [] then
      if found.keepUntil then Update(found.(keepUntil := false)) else Unchanged
    else match Generate(inp.policies, inp.labels, inp.status, inp.manageBridges, inp.system)
         case None => Failed
         case Some(spec) =>
           if !found.keepUntil && inp.owners == found.owners && spec == found.spec then Unchanged
           else Update(Stored(spec, inp.owners, false))
  }

  /** The same, as the controller does it. */
  method SyncNodeState(found: Stored, inp: Inputs) returns (r: SyncResult)
    requires forall i :: 0 <= i < |inp.policies| ==> inp.policies[i].numVfs <= MAX_INT
    ensures r == Sync(found, inp)
  {
    var keepUntilUpdated := found.keepUntil;
    if inp.status == [] {
      if keepUntilUpdated {
        return Update(found.(keepUntil := false));
      }
      return Unchanged;
    }
    var spec := FoldPolicies(inp.policies, inp.labels, inp.status, inp.manageBridges, inp.system);
    if spec.None? {
      return Failed;
    }
    if !keepUntilUpdated && inp.owners == found.owners && spec.value == found.spec {
      return Unchanged;
    }
    return Update(Stored(spec.value, inp.owners, false));
  }

  /** What is stored after a sync that does not fail. */
  function After(found: Stored, inp: Inputs): Stored {
    if Sync(found, inp).Update? then Sync(found, inp).written else found
  }

  /** The object as the policies want it; without a status only the keep-until mark is taken off. */
  function Desired(found: Stored, inp: Inputs): Option<Stored> {
    if inp.status == [] then Some(found.(keepUntil := false))
    else match Generate(inp.policies, inp.labels, inp.status, inp.manageBridges, inp.system)
         case None => None
         case Some(spec) => Some(Stored(spec, inp.owners, false))
  }

  /** A sync fails exactly when the spec cannot be generated, stores exactly what is desired, and writes only when that differs. */
  lemma SyncStoresTheDesired(found: Stored, inp: Inputs)
    ensures Sync(found, inp) == Failed <==> Desired(found, inp).None?
    ensures Sync(found, inp) != Failed ==> Desired(found, inp) == Some(After(found, inp))
    ensures Sync(found, inp).Update? <==> Desired(found, inp).Some? && Desired(found, inp) != Some(found)
  {
  }

  /** In particular, with a status the stored object carries the generated spec and the right owners. */
  lemma SyncStoresTheSpec(found: Stored, inp: Inputs)
    requires inp.status != [] && Sync(found, inp) != Failed
    ensures Generate(inp.policies, inp.labels, inp.status, inp.manageBridges, inp.system) == Some(After(found, inp).spec)
    ensures After(found, inp).owners == inp.owners && !After(found, inp).keepUntil
    ensures Sync(found, inp).Update? <==> found.keepUntil || found.owners != inp.owners || found.spec != After(found, inp).spec
  {
  }

  /** The result does not depend on the order in which the policies are listed. */
  lemma SyncForgetsOrder(found: Stored, a: Inputs, b: Inputs, listA: seq<Policy>, listB: seq<Policy>)
    requires multiset(listA) == multiset(listB) && NamesUnique(listA)
    requires IsSortOf(a.policies, listA) && IsSortOf(b.policies, listB) && b == a.(policies := b.policies)
    ensures Sync(found, a) == Sync(found, b)
  {
    SortForgetsOrder(listA, listB, a.policies, b.policies);
  }

  /** A second sync with the same policies, listed in any order, and the same pools and status writes nothing. */
  lemma SecondSyncWritesNothing(found: Stored, a: Inputs, b: Inputs, listA: seq<Policy>, listB: seq<Policy>)
    requires multiset(listA) == multiset(listB) && NamesUnique(listA)
    requires IsSortOf(a.policies, listA) && IsSortOf(b.policies, listB) && b == a.(policies := b.policies)
    requires Sync(found, a) != Failed
    ensures Sync(After(found, a), b) == Unchanged
  {
    SortForgetsOrder(listA, listB, a.policies, b.policies);
  }

  // ----- what a generated NodeState guarantees -----

  lemma {:induction false} UpdatesAreAdmitted(ps: seq<Policy>, n: nat, labels: map<string, string>, status: seq<Nic>)
    requires n <= |ps| && forall i :: 0 <= i < |ps| ==> Admitted(ps[i])
    ensures Updates(ps, n, labels, status).Ok?
    ensures forall e :: e in Updates(ps, n, labels, status).value ==> FromAdmitted(e)
  {
    if n > 0 {
      UpdatesAreAdmitted(ps, n - 1, labels, status);
      EventsAreAdmitted(ps[n - 1], status, PreviousPriority(ps, n - 1, labels) == ps[n - 1].priority);
    }
  }

  lemma {:induction false} EventsAreAdmitted(p: Policy, status: seq<Nic>, eq: bool)
    requires Admitted(p)
    ensures EventsOf(p, status, eq).Ok?
    ensures forall e :: e in EventsOf(p, status, eq).value ==> FromAdmitted(e)
  {
    if status != [] && !IsEmpty(p.nics) && p.numVfs > 0 {
      var k := |status| - 1;
      EventsAreAdmitted(p, status[..k], eq);
      AdmittedEvent(p, status[k], eq);
    }
  }

  lemma AdmittedEvent(p: Policy, nic: Nic, eq: bool)
    requires Admitted(p) && p.numVfs > 0
    ensures GroupFor(p, nic).Ok? && FromAdmitted(Event(p, nic, eq, GroupFor(p, nic).value))
  {
    AdmittedGroup(p, nic);
  }

  /** With admitted policies every interface of the generated spec has disjoint, in-range, distinctly named VF groups. */
  lemma GeneratedSpecIsPartitioned(inp: Inputs, pci: string)
    requires forall i :: 0 <= i < |inp.policies| ==> Admitted(inp.policies[i])
    ensures Updates(inp.policies, |inp.policies|, inp.labels, inp.status).Ok?
    ensures var spec := Generate(inp.policies, inp.labels, inp.status, inp.manageBridges, inp.system);
      spec.Some? && EntryOf(spec.value.interfaces, pci).Some? ==> WellPartitioned(EntryOf(spec.value.interfaces, pci).value)
  {
    UpdatesAreAdmitted(inp.policies, |inp.policies|, inp.labels, inp.status);
    var es := Updates(inp.policies, |inp.policies|, inp.labels, inp.status).value;
    forall i | 0 <= i < |es| ensures FromAdmitted(es[i]) { assert es[i] in es; }
    FoldIsPartitioned(es, pci);
  }
}
