/** What the generated NodeState spec means in terms of the policies that select a PF. */
module PolicyMeaning {
  import opened Base
  import opened Text
  import opened Policies
  import opened Stacking
  import opened PolicyFold
  import opened NodeState
  import opened PolicySync
  import B = Bridges

  predicate DistinctPci(status: seq<Nic>) { forall i, j :: 0 <= i < j < |status| ==> status[i].pci != status[j].pci }

  // ----- VF groups -----

  predicate GivesVfs(p: Policy, nic: Nic) { !IsEmpty(p.nics) && p.numVfs > 0 && Selects(p.nics, nic) }

  /** An applied policy with VFs for the NIC. */
  predicate Gives(p: Policy, labels: map<string, string>, nic: Nic) {
    Chosen(p, labels) && GivesVfs(p, nic) && GroupFor(p, nic).Ok?
  }

  /** The updates that the first n policies make for a NIC: policy, equal-priority flag and group, in the order they are applied. */
  function Givers(ps: seq<Policy>, n: nat, labels: map<string, string>, nic: Nic): seq<Event>
    requires n <= |ps|
  {
    if n == 0 then []
    else if Gives(ps[n - 1], labels, nic)
      then Givers(ps, n - 1, labels, nic) +
           [Event(ps[n - 1], nic, PreviousPriority(ps, n - 1, labels) == ps[n - 1].priority, GroupFor(ps[n - 1], nic).value)]
    else Givers(ps, n - 1, labels, nic)
  }

  lemma {:induction false} ConcerningAppend(a: seq<Event>, b: seq<Event>, pci: string)
    ensures Concerning(a + b, pci) == Concerning(a, pci) + Concerning(b, pci)
  {
    if b == [] {
      assert a + b == a;
    } else {
      ConcerningAppend(a, b[..|b| - 1], pci);
      assert (a + b)[..|a + b| - 1] == a + b[..|b| - 1];
    }
  }

  lemma ConcerningOne(e: Event, pci: string)
    ensures Concerning([e], pci) == if e.nic.pci == pci then [e] else []
  {
    assert [e][..0] == [];
  }

  /** A policy makes no update for an address the node does not have. */
  lemma {:induction false} NoNicNoEvent(p: Policy, status: seq<Nic>, eq: bool, pci: string)
    requires EventsOf(p, status, eq).Ok? && forall i :: 0 <= i < |status| ==> status[i].pci != pci
    ensures Concerning(EventsOf(p, status, eq).value, pci) == []
  {
    if status != [] && !IsEmpty(p.nics) && p.numVfs > 0 {
      var k := |status| - 1;
      NoNicNoEvent(p, status[..k], eq, pci);
      if Selects(p.nics, status[k]) {
        var e := Event(p, status[k], eq, GroupFor(p, status[k]).value);
        ConcerningAppend(EventsOf(p, status[..k], eq).value, [e], pci);
        ConcerningOne(e, pci);
      }
    }
  }

  /** A policy makes one update for a NIC it gives VFs, and none for another. */
  lemma {:induction false} OneEventPerNic(p: Policy, status: seq<Nic>, eq: bool, i: nat)
    requires EventsOf(p, status, eq).Ok? && DistinctPci(status) && i < |status|
    ensures GivesVfs(p, status[i]) ==> GroupFor(p, status[i]).Ok?
    ensures Concerning(EventsOf(p, status, eq).value, status[i].pci) ==
      if GivesVfs(p, status[i]) then [Event(p, status[i], eq, GroupFor(p, status[i]).value)] else []
  {
    if !IsEmpty(p.nics) && p.numVfs > 0 {
      var k := |status| - 1;
      if i < k {
        OneEventPerNic(p, status[..k], eq, i);
      } else {
        NoNicNoEvent(p, status[..k], eq, status[k].pci);
      }
      if Selects(p.nics, status[k]) {
        var e := Event(p, status[k], eq, GroupFor(p, status[k]).value);
        ConcerningAppend(EventsOf(p, status[..k], eq).value, [e], status[i].pci);
        ConcerningOne(e, status[i].pci);
      }
    }
  }

  /** The updates of a NIC are exactly those of the policies that give it VFs. */
  lemma {:induction false} UpdatesAreGivers(ps: seq<Policy>, n: nat, labels: map<string, string>, status: seq<Nic>, i: nat)
    requires n <= |ps| && Updates(ps, n, labels, status).Ok? && DistinctPci(status) && i < |status|
    ensures Concerning(Updates(ps, n, labels, status).value, status[i].pci) == Givers(ps, n, labels, status[i])
  {
    if n > 0 {
      UpdatesAreGivers(ps, n - 1, labels, status, i);
      if Chosen(ps[n - 1], labels) {
        var eq := PreviousPriority(ps, n - 1, labels) == ps[n - 1].priority;
        OneEventPerNic(ps[n - 1], status, eq, i);
        ConcerningAppend(Updates(ps, n - 1, labels, status).value, EventsOf(ps[n - 1], status, eq).value, status[i].pci);
      }
    }
  }

  lemma {:induction false} NoNicNoUpdate(ps: seq<Policy>, n: nat, labels: map<string, string>, status: seq<Nic>, pci: string)
    requires n <= |ps| && Updates(ps, n, labels, status).Ok? && forall i :: 0 <= i < |status| ==> status[i].pci != pci
    ensures Concerning(Updates(ps, n, labels, status).value, pci) == []
  {
    if n > 0 {
      NoNicNoUpdate(ps, n - 1, labels, status, pci);
      if Chosen(ps[n - 1], labels) {
        var eq := PreviousPriority(ps, n - 1, labels) == ps[n - 1].priority;
        NoNicNoEvent(ps[n - 1], status, eq, pci);
        ConcerningAppend(Updates(ps, n - 1, labels, status).value, EventsOf(ps[n - 1], status, eq).value, pci);
      }
    }
  }

  function Generated(inp: Inputs): Option<Spec> {
    Generate(inp.policies, inp.labels, inp.status, inp.manageBridges, inp.system)
  }

  /** The entry of a NIC in the generated spec, and the updates made for it. */
  function EntryFor(inp: Inputs, i: nat): Option<Interface>
    requires Generated(inp).Some? && i < |inp.status|
  {
    EntryOf(Generated(inp).value.interfaces, inp.status[i].pci)
  }

  function GiversFor(inp: Inputs, i: nat): seq<Event>
    requires i < |inp.status|
  {
    Givers(inp.policies, |inp.policies|, inp.labels, inp.status[i])
  }

  lemma EntryIsFold(inp: Inputs, i: nat)
    requires Generated(inp).Some? && DistinctPci(inp.status) && i < |inp.status|
    ensures EntryFor(inp, i) == PfFold(GiversFor(inp, i))
  {
    UpdatesAreGivers(inp.policies, |inp.policies|, inp.labels, inp.status, i);
    FoldIsPerPf(Updates(inp.policies, |inp.policies|, inp.labels, inp.status).value, inp.status[i].pci);
  }

  /**
   Closed form of the generated spec: a NIC has an entry exactly when some applied policy gives it VFs, and its VF
   groups are those of these policies that no later one conflicts with, newest first.
   */
  lemma GeneratedGroups(inp: Inputs, i: nat)
    requires Generated(inp).Some? && DistinctPci(inp.status) && i < |inp.status|
    ensures var givers := GiversFor(inp, i);
      && (EntryFor(inp, i).Some? <==> givers != [])
      && (EntryFor(inp, i).Some? ==> EntryFor(inp, i).value.vfGroups == Survivors(GroupsOf(givers), |givers|, Conflicts))
  {
    EntryIsFold(inp, i);
    var givers := GiversFor(inp, i);
    if givers != [] {
      PfFoldIsStack(givers);
      StackClosedForm(GroupsOf(givers), Conflicts);
    }
  }

  /** Everything about the PF itself but MTU and VF count is that of the last policy that gives it VFs. */
  lemma GeneratedIdentity(inp: Inputs, i: nat)
    requires Generated(inp).Some? && DistinctPci(inp.status) && i < |inp.status| && GiversFor(inp, i) != []
    ensures EntryFor(inp, i).Some?
    ensures var entry, nic := EntryFor(inp, i).value, inp.status[i];
      var last := GiversFor(inp, i)[|GiversFor(inp, i)| - 1].policy;
      && entry.pci == nic.pci && entry.name == nic.name && entry.linkType == last.linkType
      && entry.eswitchMode == last.eswitchMode && entry.externallyManaged == last.externallyManaged
  {
    EntryIsFold(inp, i);
    PfFoldIsStack(GiversFor(inp, i));
    GiversAreChosen(inp.policies, |inp.policies|, inp.labels, inp.status[i]);
  }

  /** What an update comes from: an applied policy that gives the NIC VFs, whose settings its group carries. */
  predicate Comes(e: Event, ps: seq<Policy>, labels: map<string, string>, nic: Nic) {
    && e.policy in ps && Chosen(e.policy, labels) && GivesVfs(e.policy, nic) && e.nic == nic
    && e.group.resourceName == e.policy.resourceName && e.group.deviceType == e.policy.deviceType
    && e.group.policyName == e.policy.name && e.group.mtu == e.policy.mtu
    && e.group.isRdma == e.policy.isRdma && e.group.vdpaType == e.policy.vdpaType
  }

  lemma {:induction false} GiversAreChosen(ps: seq<Policy>, n: nat, labels: map<string, string>, nic: Nic)
    requires n <= |ps|
    ensures forall k :: 0 <= k < |Givers(ps, n, labels, nic)| ==> Comes(Givers(ps, n, labels, nic)[k], ps, labels, nic)
  {
    if n > 0 { GiversAreChosen(ps, n - 1, labels, nic); }
  }

  /** And every such policy is among them, in the order of application. */
  lemma {:induction false} GiverIndex(ps: seq<Policy>, n: nat, labels: map<string, string>, nic: Nic, j: nat) returns (k: nat)
    requires j < n <= |ps| && Gives(ps[j], labels, nic)
    ensures k < |Givers(ps, n, labels, nic)| && Givers(ps, n, labels, nic)[k].policy == ps[j]
    ensures Givers(ps, n, labels, nic)[k].group == GroupFor(ps[j], nic).value
    ensures k == |Givers(ps, j, labels, nic)|
  {
    if j == n - 1 {
      k := |Givers(ps, n, labels, nic)| - 1;
    } else {
      k := GiverIndex(ps, n - 1, labels, nic, j);
    }
  }

  /**
   MTU and VF count of a PF: the largest among the policies that give it VFs, counted from the last of them that
   took nothing over, that is, that shared no priority and left no earlier group.
   */
  lemma GeneratedSizes(inp: Inputs, i: nat, s: nat)
    requires Generated(inp).Some? && DistinctPci(inp.status) && i < |inp.status| && LastStart(GiversFor(inp, i), s)
    ensures EntryFor(inp, i).Some?
    ensures var es, entry := GiversFor(inp, i), EntryFor(inp, i).value;
      && (forall j :: s <= j < |es| ==> es[j].policy.mtu <= entry.mtu && es[j].policy.numVfs <= entry.numVfs)
      && (exists j :: s <= j < |es| && es[j].policy.mtu == entry.mtu)
      && (exists j :: s <= j < |es| && es[j].policy.numVfs == entry.numVfs)
  {
    EntryIsFold(inp, i);
    var es := GiversFor(inp, i);
    PfFoldIsLargest(es, s);
    var entry := PfFold(es).value;
    forall j | s <= j < |es| ensures es[j].policy.mtu <= entry.mtu && es[j].policy.numVfs <= entry.numVfs {
      assert MtuOf()(es[j]) <= entry.mtu && NumVfsOf()(es[j]) <= entry.numVfs;
    }
    var j :| s <= j < |es| && MtuOf()(es[j]) == entry.mtu;
    assert es[j].policy.mtu == entry.mtu;
    var k :| s <= k < |es| && NumVfsOf()(es[k]) == entry.numVfs;
    assert es[k].policy.numVfs == entry.numVfs;
  }

  /** A VF group that is there comes from one of the updates, which nothing later has displaced. */
  lemma {:induction false} SurvivorComesFrom(groups: seq<VfGroup>, n: nat, g: VfGroup) returns (k: nat)
    requires n <= |groups| && g in Survivors(groups, n, Conflicts)
    ensures k < n && groups[k] == g && Survives(groups, k, Conflicts)
  {
    if Survives(groups, n - 1, Conflicts) && groups[n - 1] == g {
      k := n - 1;
    } else {
      k := SurvivorComesFrom(groups, n - 1, g);
    }
  }

  /** Every VF group in the entry carries the settings of an applied policy and is covered by the entry's MTU and VF count. */
  lemma GroupsFitTheEntry(inp: Inputs, i: nat, g: VfGroup) returns (k: nat)
    requires Generated(inp).Some? && DistinctPci(inp.status) && i < |inp.status|
    requires EntryFor(inp, i).Some? && g in EntryFor(inp, i).value.vfGroups
    ensures k < |GiversFor(inp, i)| && GiversFor(inp, i)[k].group == g
    ensures Comes(GiversFor(inp, i)[k], inp.policies, inp.labels, inp.status[i])
    ensures g.mtu <= EntryFor(inp, i).value.mtu && GiversFor(inp, i)[k].policy.numVfs <= EntryFor(inp, i).value.numVfs
  {
    GeneratedGroups(inp, i);
    var es := GiversFor(inp, i);
    k := SurvivorComesFrom(GroupsOf(es), |es|, g);
    GiversAreChosen(inp.policies, |inp.policies|, inp.labels, inp.status[i]);
    var s := SomeLastStart(es);
    SurvivorIsRecent(es, s, k);
    GeneratedSizes(inp, i, s);
  }

  // ----- priorities -----

  /** Two policies want the same resource or the same VFs of a NIC. */
  predicate Compete(p: Policy, q: Policy, nic: Nic) {
    && GivesVfs(p, nic) && GivesVfs(q, nic) && GroupFor(p, nic).Ok? && GroupFor(q, nic).Ok?
    && Conflicts(GroupFor(p, nic).value, GroupFor(q, nic).value)
  }

  /** Where an update comes from: its policy's place in the list fixes its own. */
  lemma {:induction false} GiverSource(ps: seq<Policy>, n: nat, labels: map<string, string>, nic: Nic, j: nat) returns (a: nat)
    requires n <= |ps| && j < |Givers(ps, n, labels, nic)|
    ensures a < n && ps[a] == Givers(ps, n, labels, nic)[j].policy && j == |Givers(ps, a, labels, nic)|
  {
    if j < |Givers(ps, n - 1, labels, nic)| {
      a := GiverSource(ps, n - 1, labels, nic, j);
    } else {
      a := n - 1;
    }
  }

  /** No two updates of a NIC come from the same policy. */
  lemma GiversNamedApart(ps: seq<Policy>, n: nat, labels: map<string, string>, nic: Nic)
    requires NamesUnique(ps) && n <= |ps|
    ensures NamedApart(Givers(ps, n, labels, nic))
  {
    var es := Givers(ps, n, labels, nic);
    GiversAreChosen(ps, n, labels, nic);
    forall j, k | 0 <= j < k < |es| ensures es[j].group.policyName != es[k].group.policyName {
      var a := GiverSource(ps, n, labels, nic, j);
      var b := GiverSource(ps, n, labels, nic, k);
      assert a != b;
      assert a < b ==> ps[a].name != ps[b].name;
      assert b < a ==> ps[b].name != ps[a].name;
    }
  }

  predicate NamedApart(es: seq<Event>) {
    forall j, k :: 0 <= j < k < |es| ==> es[j].group.policyName != es[k].group.policyName
  }

  /** A group that a later one conflicts with is gone for good. */
  lemma {:induction false} Displaced(es: seq<Event>, j: nat, m: nat)
    requires j < m < |es| && NamedApart(es) && Conflicts(es[j].group, es[m].group)
    ensures forall g :: g in Survivors(GroupsOf(es), |es|, Conflicts) ==> g.policyName != es[j].group.policyName
  {
    forall g | g in Survivors(GroupsOf(es), |es|, Conflicts) ensures g.policyName != es[j].group.policyName {
      var k := SurvivorComesFrom(GroupsOf(es), |es|, g);
      assert Conflicts(GroupsOf(es)[j], GroupsOf(es)[m]);
      assert k != j;
    }
  }

  lemma TwoGivers(ps: seq<Policy>, labels: map<string, string>, nic: Nic, a: nat, b: nat) returns (j: nat, m: nat)
    requires a < b < |ps| && Chosen(ps[a], labels) && Chosen(ps[b], labels) && Compete(ps[a], ps[b], nic)
    ensures var es := Givers(ps, |ps|, labels, nic);
      j < m < |es| && es[j].group == GroupFor(ps[a], nic).value && es[m].group == GroupFor(ps[b], nic).value
  {
    j := GiverIndex(ps, |ps|, labels, nic, a);
    m := GiverIndex(ps, |ps|, labels, nic, b);
    var j' := GiverIndex(ps, b, labels, nic, a);
  }

  lemma GroupNamesPolicy(p: Policy, nic: Nic)
    requires p.numVfs > 0 && GroupFor(p, nic).Ok?
    ensures GroupFor(p, nic).value.policyName == p.name
  {
  }

  lemma EarlierLoses(inp: Inputs, i: nat, a: nat, b: nat)
    requires Generated(inp).Some? && DistinctPci(inp.status) && i < |inp.status| && NamesUnique(inp.policies)
    requires a < b < |inp.policies| && Chosen(inp.policies[a], inp.labels) && Chosen(inp.policies[b], inp.labels)
    requires Compete(inp.policies[a], inp.policies[b], inp.status[i]) && EntryFor(inp, i).Some?
    ensures forall g :: g in EntryFor(inp, i).value.vfGroups ==> g.policyName != inp.policies[a].name
  {
    var j, m := TwoGivers(inp.policies, inp.labels, inp.status[i], a, b);
    GiversNamedApart(inp.policies, |inp.policies|, inp.labels, inp.status[i]);
    GroupNamesPolicy(inp.policies[a], inp.status[i]);
    Displaced(GiversFor(inp, i), j, m);
    GeneratedGroups(inp, i);
  }

  /** The place of two policies in the sorted list. */
  lemma SortedPlaces(sorted: seq<Policy>, listed: seq<Policy>, p: Policy, q: Policy) returns (a: nat, b: nat)
    requires NamesUnique(listed) && IsSortOf(sorted, listed) && p in listed && q in listed
    requires q.priority < p.priority || (q.priority == p.priority && Less(p.name, q.name))
    ensures NamesUnique(sorted) && a < b < |sorted| && sorted[a] == p && sorted[b] == q
  {
    UniqueByMultiset(listed, sorted);
    SortIsStrict(sorted, listed);
    assert p in multiset(listed) && q in multiset(listed);
    a :| 0 <= a < |sorted| && sorted[a] == p;
    b :| 0 <= b < |sorted| && sorted[b] == q;
    LessIrreflexive(p.name);
    BeforeIsStrict(p, q);
    assert b < a ==> Before(q, p);
    assert Before(p, q);
  }

  /**
   Of two applied policies that compete for a NIC, the one with the smaller priority number keeps its VF group; among
   equals the one with the greater name does.
   */
  lemma SmallerPriorityNumberWins(inp: Inputs, i: nat, listed: seq<Policy>, p: Policy, q: Policy)
    requires Generated(inp).Some? && DistinctPci(inp.status) && i < |inp.status| && EntryFor(inp, i).Some?
    requires NamesUnique(listed) && IsSortOf(inp.policies, listed) && p in listed && q in listed
    requires Chosen(p, inp.labels) && Chosen(q, inp.labels) && Compete(p, q, inp.status[i])
    requires q.priority < p.priority || (q.priority == p.priority && Less(p.name, q.name))
    ensures forall g :: g in EntryFor(inp, i).value.vfGroups ==> g.policyName != p.name
  {
    var a, b := SortedPlaces(inp.policies, listed, p, q);
    EarlierLoses(inp, i, a, b);
  }

  /** The node-wide settings come from the pools alone, and without bridge management there are no bridges. */
  lemma GeneratedRest(inp: Inputs)
    requires Generated(inp).Some?
    ensures Generated(inp).value.system == inp.system && (!inp.manageBridges ==> Generated(inp).value.bridges == [])
  {
  }

  /** There is no entry for an address the node does not have. */
  lemma NoEntryWithoutNic(inp: Inputs, pci: string)
    requires Generated(inp).Some? && forall i :: 0 <= i < |inp.status| ==> inp.status[i].pci != pci
    ensures EntryOf(Generated(inp).value.interfaces, pci).None?
  {
    NoNicNoUpdate(inp.policies, |inp.policies|, inp.labels, inp.status, pci);
    FoldClosedForm(Updates(inp.policies, |inp.policies|, inp.labels, inp.status).value, pci);
  }

  // ----- bridges -----

  predicate SelectsNic(p: Policy, nic: Nic) { !IsEmpty(p.nics) && Selects(p.nics, nic) }

  /** The last of the first n applied policies that selects a NIC. */
  function LastSelecting(ps: seq<Policy>, n: nat, labels: map<string, string>, nic: Nic): Option<Policy>
    requires n <= |ps|
  {
    if n == 0 then None
    else if Chosen(ps[n - 1], labels) && SelectsNic(ps[n - 1], nic) then Some(ps[n - 1])
    else LastSelecting(ps, n - 1, labels, nic)
  }

  /** The bridge that policy wants for the NIC. */
  function BridgeWanted(ps: seq<Policy>, labels: map<string, string>, nic: Nic): Option<B.OvsBridge> {
    match LastSelecting(ps, |ps|, labels, nic)
    case None => None
    case Some(p) => match p.ovs case None => None case Some(o) => Some(B.BridgeFor(p, o, nic))
  }

  lemma {:induction false} LastForAppend(a: seq<B.Event>, b: seq<B.Event>, pci: string)
    ensures B.LastFor(a + b, pci) == if B.LastFor(b, pci).Some? then B.LastFor(b, pci) else B.LastFor(a, pci)
  {
    if b == [] {
      assert a + b == a;
    } else {
      LastForAppend(a, b[..|b| - 1], pci);
      assert (a + b)[..|a + b| - 1] == a + b[..|b| - 1];
    }
  }

  lemma LastForOne(e: B.Event, pci: string)
    ensures B.LastFor([e], pci) == if e.pci == pci then Some(e) else None
  {
    assert [e][..0] == [];
  }

  lemma {:induction false} LastBridgeEvent(p: Policy, status: seq<Nic>, i: nat)
    requires DistinctPci(status) && i < |status|
    ensures B.LastFor(BridgeEventsOf(p, status), status[i].pci) ==
      if SelectsNic(p, status[i]) then Some(B.EventFor(p, status[i])) else None
  {
    if !IsEmpty(p.nics) {
      var k := |status| - 1;
      if i < k {
        LastBridgeEvent(p, status[..k], i);
      } else {
        NoNicNoBridgeEvent(p, status[..k], status[k].pci);
      }
      LastForAppend(BridgeEventsOf(p, status[..k]), [B.EventFor(p, status[k])], status[i].pci);
      LastForOne(B.EventFor(p, status[k]), status[i].pci);
    }
  }

  lemma {:induction false} NoNicNoBridgeEvent(p: Policy, status: seq<Nic>, pci: string)
    requires forall i :: 0 <= i < |status| ==> status[i].pci != pci
    ensures B.LastFor(BridgeEventsOf(p, status), pci).None?
  {
    if status != [] && !IsEmpty(p.nics) {
      var k := |status| - 1;
      NoNicNoBridgeEvent(p, status[..k], pci);
      LastForAppend(BridgeEventsOf(p, status[..k]), [B.EventFor(p, status[k])], pci);
      LastForOne(B.EventFor(p, status[k]), pci);
    }
  }

  lemma {:induction false} LastBridgeUpdate(ps: seq<Policy>, n: nat, labels: map<string, string>, status: seq<Nic>, i: nat)
    requires n <= |ps| && BridgeUpdates(ps, n, labels, status).Ok? && DistinctPci(status) && i < |status|
    ensures B.LastFor(BridgeUpdates(ps, n, labels, status).value, status[i].pci) ==
      match LastSelecting(ps, n, labels, status[i]) case None => None case Some(p) => Some(B.EventFor(p, status[i]))
  {
    if n > 0 {
      LastBridgeUpdate(ps, n - 1, labels, status, i);
      if Chosen(ps[n - 1], labels) {
        LastBridgeEvent(ps[n - 1], status, i);
        LastForAppend(BridgeUpdates(ps, n - 1, labels, status).value, BridgeEventsOf(ps[n - 1], status), status[i].pci);
      }
    }
  }

  /** The update is about a NIC of the node, and its bridge, if any, is named after that NIC. */
  predicate AboutNic(e: B.Event, status: seq<Nic>) {
    B.WellFormedEvent(e) && exists i :: 0 <= i < |status| && status[i].pci == e.pci
  }

  lemma {:induction false} BridgeEventsAreAboutNics(p: Policy, status: seq<Nic>)
    ensures forall e :: e in BridgeEventsOf(p, status) ==> AboutNic(e, status)
  {
    if status != [] && !IsEmpty(p.nics) {
      var k := |status| - 1;
      BridgeEventsAreAboutNics(p, status[..k]);
      B.EventForIsWellFormed(p, status[k]);
      forall e | AboutNic(e, status[..k]) ensures AboutNic(e, status) {
        var i :| 0 <= i < k && status[..k][i].pci == e.pci;
        assert status[i].pci == e.pci;
      }
      assert AboutNic(B.EventFor(p, status[k]), status) by { assert status[k].pci == B.EventFor(p, status[k]).pci; }
    }
  }

  lemma {:induction false} BridgeUpdatesAreAboutNics(ps: seq<Policy>, n: nat, labels: map<string, string>, status: seq<Nic>)
    requires n <= |ps| && BridgeUpdates(ps, n, labels, status).Ok?
    ensures forall e :: e in BridgeUpdates(ps, n, labels, status).value ==> AboutNic(e, status)
  {
    if n > 0 {
      BridgeUpdatesAreAboutNics(ps, n - 1, labels, status);
      BridgeEventsAreAboutNics(ps[n - 1], status);
    }
  }

  predicate NoUnderscores(status: seq<Nic>) { forall i :: 0 <= i < |status| ==> '_' !in status[i].pci }

  lemma NamesAreDistinct(es: seq<B.Event>, status: seq<Nic>)
    requires NoUnderscores(status) && forall e :: e in es ==> AboutNic(e, status)
    ensures B.NamesDistinct(es) && forall i :: 0 <= i < |es| ==> B.WellFormedEvent(es[i])
  {
    forall i | 0 <= i < |es| ensures B.WellFormedEvent(es[i]) && '_' !in es[i].pci {
      assert AboutNic(es[i], status);
    }
    forall i, j | 0 <= i < |es| && 0 <= j < |es| && B.BridgeName(es[i].pci) == B.BridgeName(es[j].pci)
      ensures es[i].pci == es[j].pci
    {
      B.NoUnderscoreNoCollision(es[i].pci, es[j].pci);
    }
  }

  /** The bridges of the generated spec are always strictly sorted by name. */
  lemma GeneratedBridgesAreSorted(inp: Inputs)
    requires Generated(inp).Some?
    ensures B.Sorted(Generated(inp).value.bridges) && B.AllOwned(Generated(inp).value.bridges)
  {
    if inp.manageBridges {
      BridgeUpdatesAreAboutNics(inp.policies, |inp.policies|, inp.labels, inp.status);
      var es := BridgeUpdates(inp.policies, |inp.policies|, inp.labels, inp.status).value;
      forall i | 0 <= i < |es| ensures B.WellFormedEvent(es[i]) { assert AboutNic(es[i], inp.status); }
      B.FoldIsSorted(es);
    }
  }

  /** With bridges managed, the bridge of a NIC is exactly the one that the last applied policy selecting it defines. */
  lemma GeneratedBridges(inp: Inputs, i: nat, x: B.OvsBridge)
    requires Generated(inp).Some? && inp.manageBridges && DistinctPci(inp.status) && NoUnderscores(inp.status) && i < |inp.status|
    requires B.UplinkedTo(x, inp.status[i].pci)
    ensures x in Generated(inp).value.bridges <==> BridgeWanted(inp.policies, inp.labels, inp.status[i]) == Some(x)
  {
    var es := BridgeUpdates(inp.policies, |inp.policies|, inp.labels, inp.status).value;
    BridgeUpdatesAreAboutNics(inp.policies, |inp.policies|, inp.labels, inp.status);
    NamesAreDistinct(es, inp.status);
    LastBridgeUpdate(inp.policies, |inp.policies|, inp.labels, inp.status, i);
    GeneratedBridgesAreSorted(inp);
    if B.Owned(x) {
      B.FoldRefinesMap(es, inp.status[i].pci, x);
    }
  }

  /** That bridge, field by field: named after the NIC's address, with the policy's bridge and uplink settings and MTU. */
  lemma GeneratedBridgeSettings(inp: Inputs, i: nat, x: B.OvsBridge)
    requires Generated(inp).Some? && inp.manageBridges && DistinctPci(inp.status) && NoUnderscores(inp.status) && i < |inp.status|
    requires B.UplinkedTo(x, inp.status[i].pci) && x in Generated(inp).value.bridges
    ensures var last := LastSelecting(inp.policies, |inp.policies|, inp.labels, inp.status[i]);
      && last.Some? && last.value.ovs.Some? && |x.uplinks| == 1
      && x.settings == last.value.ovs.value.bridge && x.uplinks[0].settings == last.value.ovs.value.uplink
      && x.uplinks[0].pci == inp.status[i].pci && x.uplinks[0].name == inp.status[i].name
      && (last.value.mtu > 0 ==> x.uplinks[0].mtuRequest == Some(last.value.mtu))
      && (last.value.mtu <= 0 ==> x.uplinks[0].mtuRequest == last.value.ovs.value.mtuRequest)
  {
    GeneratedBridges(inp, i, x);
  }

  // ----- policies without effect -----

  /** The deprecated default policy, or one that asks for a label the node does not have. */
  predicate NotForNode(p: Policy, labels: map<string, string>) {
    p.name == "default" || exists k :: k in p.nodeSelector && (k !in labels || labels[k] != p.nodeSelector[k])
  }

  lemma NotForNodeIsNotChosen(p: Policy, labels: map<string, string>)
    ensures NotForNode(p, labels) <==> !Chosen(p, labels)
  {
  }

  lemma {:induction false} SamePrefix(a: seq<Policy>, b: seq<Policy>, n: nat, labels: map<string, string>, status: seq<Nic>)
    requires n <= |a| && n <= |b| && a[..n] == b[..n]
    ensures PreviousPriority(a, n, labels) == PreviousPriority(b, n, labels)
    ensures Updates(a, n, labels, status) == Updates(b, n, labels, status)
    ensures BridgeUpdates(a, n, labels, status) == BridgeUpdates(b, n, labels, status)
  {
    if n > 0 {
      assert a[n - 1] == a[..n][n - 1] && b[n - 1] == b[..n][n - 1];
      assert a[..n - 1] == a[..n][..n - 1] && b[..n - 1] == b[..n][..n - 1];
      SamePrefix(a, b, n - 1, labels, status);
    }
  }

  lemma {:induction false} SkipOne(a: seq<Policy>, p: Policy, b: seq<Policy>, n: nat, labels: map<string, string>, status: seq<Nic>)
    requires NotForNode(p, labels) && n <= |b|
    ensures var with, without := a + [p] + b, a + b;
      && PreviousPriority(with, |a| + 1 + n, labels) == PreviousPriority(without, |a| + n, labels)
      && Updates(with, |a| + 1 + n, labels, status) == Updates(without, |a| + n, labels, status)
      && BridgeUpdates(with, |a| + 1 + n, labels, status) == BridgeUpdates(without, |a| + n, labels, status)
  {
    var with, without := a + [p] + b, a + b;
    if n == 0 {
      assert with[..|a|] == without[..|a|] && with[|a|] == p;
      SamePrefix(with, without, |a|, labels, status);
      NotForNodeIsNotChosen(p, labels);
      AddUnchosen(with, |a|, labels, status);
    } else {
      SkipOne(a, p, b, n - 1, labels, status);
      assert with[|a| + n] == b[n - 1] == without[|a| + n - 1];
      StepAlike(with, |a| + n, without, |a| + n - 1, labels, status);
    }
  }

  lemma AddUnchosen(ps: seq<Policy>, n: nat, labels: map<string, string>, status: seq<Nic>)
    requires n < |ps| && !Chosen(ps[n], labels)
    ensures PreviousPriority(ps, n + 1, labels) == PreviousPriority(ps, n, labels)
    ensures Updates(ps, n + 1, labels, status) == Updates(ps, n, labels, status)
    ensures BridgeUpdates(ps, n + 1, labels, status) == BridgeUpdates(ps, n, labels, status)
  {
  }

  lemma StepAlike(a: seq<Policy>, n: nat, b: seq<Policy>, m: nat, labels: map<string, string>, status: seq<Nic>)
    requires n < |a| && m < |b| && a[n] == b[m] && PreviousPriority(a, n, labels) == PreviousPriority(b, m, labels)
    requires Updates(a, n, labels, status) == Updates(b, m, labels, status)
    requires BridgeUpdates(a, n, labels, status) == BridgeUpdates(b, m, labels, status)
    ensures PreviousPriority(a, n + 1, labels) == PreviousPriority(b, m + 1, labels)
    ensures Updates(a, n + 1, labels, status) == Updates(b, m + 1, labels, status)
    ensures BridgeUpdates(a, n + 1, labels, status) == BridgeUpdates(b, m + 1, labels, status)
  {
  }

  /** A policy that is not for the node changes nothing, wherever it stands in the list. */
  lemma PolicyWithoutEffect(a: seq<Policy>, p: Policy, b: seq<Policy>, inp: Inputs)
    requires NotForNode(p, inp.labels)
    ensures Generated(inp.(policies := a + [p] + b)) == Generated(inp.(policies := a + b))
  {
    SkipOne(a, p, b, |b|, inp.labels, inp.status);
    assert |a + [p] + b| == |a| + 1 + |b| && |a + b| == |a| + |b|;
  }
}
