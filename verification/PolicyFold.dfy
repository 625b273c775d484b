/** Folding policies into the interfaces of a NodeState spec: Apply and mergeConfigs. */
module PolicyFold {
  import opened Base
  import opened VfRange
  import opened Policies
  import opened Stacking

  datatype Interface = Interface(
    pci: string, name: string, mtu: int, numVfs: int, linkType: string, eswitchMode: string,
    externallyManaged: bool, vfGroups: seq<VfGroup>)

  /** One NIC updated by one policy; `group` is the VF group the policy gives the NIC. */
  datatype Event = Event(policy: Policy, nic: Nic, equalPriority: bool, group: VfGroup)

  /** mergeConfigs drops the older group. */
  predicate Conflicts(older: VfGroup, newer: VfGroup) {
    older.resourceName == newer.resourceName || IsOverlapping(older.vfRange, newer.vfRange) == Ok(true)
  }

  function Max(a: int, b: int): int { if a < b then b else a }

  /** The entry a policy alone would produce. */
  function Alone(e: Event): Interface {
    Interface(e.nic.pci, e.nic.name, e.policy.mtu, e.policy.numVfs, e.policy.linkType, e.policy.eswitchMode,
              e.policy.externallyManaged, [e.group])
  }

  /** The entry after merging with what earlier policies left. */
  function Merged(older: Interface, e: Event): Interface {
    var kept := Keep(older.vfGroups, e.group, Conflicts);
    var alone := Alone(e);
    var joined := alone.(vfGroups := [e.group] + kept);
    if !e.equalPriority && kept == [] then joined
    else joined.(mtu := Max(alone.mtu, older.mtu), numVfs := Max(alone.numVfs, older.numVfs))
  }

  function Find(ifaces: seq<Interface>, pci: string): (r: Option<nat>)
    ensures r.Some? ==> r.value < |ifaces| && ifaces[r.value].pci == pci
    ensures r.Some? ==> forall j :: 0 <= j < r.value ==> ifaces[j].pci != pci
    ensures r.None? ==> forall j :: 0 <= j < |ifaces| ==> ifaces[j].pci != pci
  {
    if ifaces == [] then None
    else if ifaces[0].pci == pci then Some(0)
    else match Find(ifaces[1..], pci)
         case None => None
         case Some(k) => Some(k + 1)
  }

  /** The entry for a PCI address. */
  function EntryOf(ifaces: seq<Interface>, pci: string): Option<Interface> {
    match Find(ifaces, pci)
    case None => None
    case Some(k) => Some(ifaces[k])
  }

  function ApplyEvent(ifaces: seq<Interface>, e: Event): seq<Interface> {
    match Find(ifaces, e.nic.pci)
    case None => ifaces + [Alone(e)]
    case Some(k) => ifaces[k := Merged(ifaces[k], e)]
  }

  function FoldEvents(ifaces: seq<Interface>, es: seq<Event>): seq<Interface> {
    if es == [] then ifaces else ApplyEvent(FoldEvents(ifaces, es[..|es| - 1]), es[|es| - 1])
  }

  // ----- one PF -----

  function PfStep(entry: Option<Interface>, e: Event): Interface {
    if entry.None? then Alone(e) else Merged(entry.value, e)
  }

  /** The events that concern one PCI address. */
  function Concerning(es: seq<Event>, pci: string): (r: seq<Event>)
    ensures forall i :: 0 <= i < |r| ==> r[i] in es && r[i].nic.pci == pci
  {
    if es == [] then []
    else if es[|es| - 1].nic.pci == pci then Concerning(es[..|es| - 1], pci) + [es[|es| - 1]]
    else Concerning(es[..|es| - 1], pci)
  }

  function PfFold(es: seq<Event>): Option<Interface> {
    if es == [] then None else Some(PfStep(PfFold(es[..|es| - 1]), es[|es| - 1]))
  }

  lemma FindUnique(ifaces: seq<Interface>, pci: string, k: nat)
    requires k < |ifaces| && ifaces[k].pci == pci && forall j :: 0 <= j < k ==> ifaces[j].pci != pci
    ensures Find(ifaces, pci) == Some(k)
  {
  }

  lemma EntryAfterEvent(ifaces: seq<Interface>, e: Event, pci: string)
    ensures EntryOf(ApplyEvent(ifaces, e), pci) ==
      if pci == e.nic.pci then Some(PfStep(EntryOf(ifaces, pci), e)) else EntryOf(ifaces, pci)
  {
    var after := ApplyEvent(ifaces, e);
    if pci == e.nic.pci {
      FindUnique(after, pci, if Find(ifaces, pci).Some? then Find(ifaces, pci).value else |ifaces|);
    } else if Find(ifaces, pci).Some? {
      FindUnique(after, pci, Find(ifaces, pci).value);
    }
  }

  lemma PfFoldSnoc(es: seq<Event>, e: Event)
    ensures PfFold(es + [e]) == Some(PfStep(PfFold(es), e))
  {
    assert (es + [e])[..|es|] == es;
  }

  /** The shared list refines one independent fold per PF. */
  lemma {:induction false} FoldIsPerPf(es: seq<Event>, pci: string)
    ensures EntryOf(FoldEvents([], es), pci) == PfFold(Concerning(es, pci))
  {
    if es != [] {
      var k := |es| - 1;
      FoldIsPerPf(es[..k], pci);
      EntryAfterEvent(FoldEvents([], es[..k]), es[k], pci);
      PfFoldSnoc(Concerning(es[..k], pci), es[k]);
    }
  }

  // ----- closed form -----

  function GroupsOf(es: seq<Event>): seq<VfGroup> { seq(|es|, i requires 0 <= i < |es| => es[i].group) }

  /** One PF's groups are the stack of the arriving groups; everything else but MTU and VF count is the last policy's. */
  lemma {:induction false} PfFoldIsStack(es: seq<Event>)
    requires es != []
    ensures PfFold(es).Some?
    ensures var entry := PfFold(es).value;
      entry == Alone(es[|es| - 1]).(vfGroups := Stack(GroupsOf(es), Conflicts), mtu := entry.mtu, numVfs := entry.numVfs)
  {
    var k := |es| - 1;
    assert GroupsOf(es)[..k] == GroupsOf(es[..k]);
    if k > 0 {
      PfFoldIsStack(es[..k]);
    } else {
      assert Stack(GroupsOf(es), Conflicts) == [es[0].group] + Keep([], es[0].group, Conflicts);
    }
  }

  /**
   Closed form of the fold from an empty spec: a PF has an entry exactly when some policy updates it, and
   its groups are those of the updates that no later update conflicts with, newest first.
   */
  lemma FoldClosedForm(es: seq<Event>, pci: string)
    ensures var mine := Concerning(es, pci);
      var entry := EntryOf(FoldEvents([], es), pci);
      && (entry.Some? <==> mine != [])
      && (entry.Some? ==> entry.value.vfGroups == Survivors(GroupsOf(mine), |mine|, Conflicts))
  {
    FoldIsPerPf(es, pci);
    var mine := Concerning(es, pci);
    if mine != [] {
      PfFoldIsStack(mine);
      StackClosedForm(GroupsOf(mine), Conflicts);
    }
  }

  // ----- MTU and VF count -----

  /** The group of the j-th update is still there after the i-th. */
  predicate LeftAfter(es: seq<Event>, i: nat, j: nat)
    requires j <= i < |es|
  {
    Survives(GroupsOf(es[..i + 1]), j, Conflicts)
  }

  /** After the i-th update none of the groups before it is left. */
  predicate Cleared(es: seq<Event>, i: nat)
    requires i < |es|
  {
    forall j :: 0 <= j < i ==> !LeftAfter(es, i, j)
  }

  /** The i-th update takes nothing over: it is the first, or it shares no priority and leaves no earlier group. */
  predicate StartsAfresh(es: seq<Event>, i: nat)
    requires i < |es|
  {
    i == 0 || (!es[i].equalPriority && Cleared(es, i))
  }

  /** What mergeConfigs keeps is empty exactly when the update clears the PF. */
  lemma KeptIsEmptyIff(es: seq<Event>)
    requires es != []
    ensures Keep(Stack(GroupsOf(es[..|es| - 1]), Conflicts), es[|es| - 1].group, Conflicts) == [] <==> Cleared(es, |es| - 1)
  {
    var k, groups := |es| - 1, GroupsOf(es);
    assert es[..k + 1] == es && groups[..k] == GroupsOf(es[..k]);
    StackClosedForm(groups, Conflicts);
    SurvivorsEmptyIff(groups, k, Conflicts);
    assert forall j :: 0 <= j < k ==> (LeftAfter(es, k, j) <==> Survives(groups, j, Conflicts));
    assert Survives(groups, k, Conflicts);
    assert Stack(groups, Conflicts) == [groups[k]] + Keep(Stack(groups[..k], Conflicts), groups[k], Conflicts);
    assert Survivors(groups, k + 1, Conflicts) == [groups[k]] + Survivors(groups, k, Conflicts);
    assert Stack(groups, Conflicts)[1..] == Survivors(groups, k + 1, Conflicts)[1..];
  }

  lemma SameStart(es: seq<Event>, k: nat, i: nat)
    requires i < k <= |es|
    ensures StartsAfresh(es[..k], i) <==> StartsAfresh(es, i)
  {
    assert es[..k][..i + 1] == es[..i + 1];
    assert forall j :: 0 <= j < i ==> (LeftAfter(es[..k], i, j) <==> LeftAfter(es, i, j));
  }

  /** `s` is the last update that takes nothing over. */
  predicate LastStart(es: seq<Event>, s: nat) {
    s < |es| && StartsAfresh(es, s) && forall i :: s < i < |es| ==> !StartsAfresh(es, i)
  }

  lemma LastStartBefore(es: seq<Event>, s: nat)
    requires LastStart(es, s) && s + 1 < |es|
    ensures LastStart(es[..|es| - 1], s)
  {
    var k := |es| - 1;
    forall i | 0 <= i < k ensures StartsAfresh(es[..k], i) <==> StartsAfresh(es, i) { SameStart(es, k, i); }
  }

  lemma {:induction false} SomeLastStart(es: seq<Event>) returns (s: nat)
    requires es != []
    ensures LastStart(es, s)
  {
    var k := |es| - 1;
    if StartsAfresh(es, k) {
      s := k;
    } else {
      s := SomeLastStart(es[..k]);
      forall i | 0 <= i < k ensures StartsAfresh(es[..k], i) <==> StartsAfresh(es, i) { SameStart(es, k, i); }
    }
  }

  /** No update from s on has more, and one has as much. */
  predicate IsLargestSince(es: seq<Event>, s: nat, size: Event -> int, v: int) {
    && (forall j :: s <= j < |es| ==> size(es[j]) <= v)
    && (exists j :: s <= j < |es| && size(es[j]) == v)
  }

  function MtuOf(): Event -> int { (e: Event) => e.policy.mtu }

  function NumVfsOf(): Event -> int { (e: Event) => e.policy.numVfs }

  lemma LargestOneMore(es: seq<Event>, s: nat, size: Event -> int, v: int)
    requires s + 1 < |es| && IsLargestSince(es[..|es| - 1], s, size, v)
    ensures IsLargestSince(es, s, size, Max(size(es[|es| - 1]), v))
  {
    var k := |es| - 1;
    var j :| s <= j < k && size(es[..k][j]) == v;
    assert size(es[j]) == v;
    forall j | s <= j < |es| ensures size(es[j]) <= Max(size(es[k]), v) {
      assert j < k ==> size(es[..k][j]) <= v;
    }
  }

  /**
   The MTU and the VF count of a PF are the largest among the policies since the last one that took nothing over.
   */
  lemma {:induction false} PfFoldIsLargest(es: seq<Event>, s: nat)
    requires LastStart(es, s)
    ensures PfFold(es).Some?
    ensures IsLargestSince(es, s, MtuOf(), PfFold(es).value.mtu)
    ensures IsLargestSince(es, s, NumVfsOf(), PfFold(es).value.numVfs)
  {
    var k := |es| - 1;
    SizesOneMore(es);
    if s < k {
      LastStartBefore(es, s);
      PfFoldIsLargest(es[..k], s);
      LargestOneMore(es, s, MtuOf(), PfFold(es[..k]).value.mtu);
      LargestOneMore(es, s, NumVfsOf(), PfFold(es[..k]).value.numVfs);
    } else {
      assert MtuOf()(es[k]) == PfFold(es).value.mtu && NumVfsOf()(es[k]) == PfFold(es).value.numVfs;
    }
  }

  /** The last update's own sizes, or the larger ones. */
  lemma SizesOneMore(es: seq<Event>)
    requires es != []
    ensures PfFold(es).Some? && (|es| > 1 ==> PfFold(es[..|es| - 1]).Some?)
    ensures var k := |es| - 1; var p, now := es[k].policy, PfFold(es).value;
      if StartsAfresh(es, k) then now.mtu == p.mtu && now.numVfs == p.numVfs
      else k > 0 && var before := PfFold(es[..k]).value;
           now.mtu == Max(p.mtu, before.mtu) && now.numVfs == Max(p.numVfs, before.numVfs)
  {
    if |es| > 1 {
      PfFoldIsStack(es[..|es| - 1]);
      KeptIsEmptyIff(es);
    }
  }

  /** A group that is still there at the end was there all along. */
  lemma LeftAllAlong(es: seq<Event>, i: nat, j: nat)
    requires j <= i < |es| && Survives(GroupsOf(es), j, Conflicts)
    ensures LeftAfter(es, i, j)
  {
    var some, all := GroupsOf(es[..i + 1]), GroupsOf(es);
    assert some == all[..i + 1];
  }

  /** A group that is still there belongs to an update since the last one that took nothing over. */
  lemma SurvivorIsRecent(es: seq<Event>, s: nat, j: nat)
    requires LastStart(es, s) && j < |es| && Survives(GroupsOf(es), j, Conflicts)
    ensures s <= j
  {
    if j < s { LeftAllAlong(es, s, j); }
  }

  // ----- what the fold guarantees -----

  predicate Apart(a: VfGroup, b: VfGroup) {
    && a.resourceName != b.resourceName
    && ParseRange(a.vfRange).Ok? && ParseRange(b.vfRange).Ok?
    && (SpanOf(a).last < SpanOf(b).first || SpanOf(b).last < SpanOf(a).first)
  }

  function Fits(numVfs: int): VfGroup -> bool { (g: VfGroup) => InBounds(g, numVfs) }

  /** Readable, pairwise disjoint VF ranges inside [0, numVfs), and distinct resource names. */
  predicate WellPartitioned(entry: Interface) { Spaced(entry.vfGroups, Fits(entry.numVfs), Apart) }

  lemma NoConflictIsApart(older: VfGroup, newer: VfGroup, n: int, m: int)
    requires InBounds(older, n) && InBounds(newer, m) && !Conflicts(older, newer)
    ensures Apart(newer, older)
  {
    var a, b := SpanOf(older), SpanOf(newer);
    OverlappingMeansSharedIndex(older.vfRange, newer.vfRange, a, b);
    var i := Max(a.first, b.first);
    assert !(Contains(a, i) && Contains(b, i));
  }

  /** On readable ranges a conflict is exactly a shared resource name or a shared VF. */
  lemma ConflictMeans(older: VfGroup, newer: VfGroup, n: int, m: int)
    requires InBounds(older, n) && InBounds(newer, m)
    ensures Conflicts(older, newer) <==>
      older.resourceName == newer.resourceName || exists i :: Contains(SpanOf(older), i) && Contains(SpanOf(newer), i)
  {
    OverlappingMeansSharedIndex(older.vfRange, newer.vfRange, SpanOf(older), SpanOf(newer));
  }

  predicate FromAdmitted(e: Event) { InBounds(e.group, e.policy.numVfs) }

  lemma MergedIsPartitioned(older: Interface, e: Event)
    requires FromAdmitted(e) && WellPartitioned(older)
    ensures WellPartitioned(Merged(older, e))
  {
    var after := Merged(older, e);
    var kept := Keep(older.vfGroups, e.group, Conflicts);
    assert kept != [] ==> after.numVfs >= older.numVfs;
    forall g | Fits(older.numVfs)(g) && !Conflicts(g, e.group) ensures Apart(e.group, g) {
      NoConflictIsApart(g, e.group, older.numVfs, e.policy.numVfs);
    }
    PushSpaced(older.vfGroups, e.group, Conflicts, Fits(older.numVfs), Fits(after.numVfs), Apart);
  }

  /** Whatever equal-priority flags were passed, the merged VF groups of a PF partition a part of its VFs. */
  lemma {:induction false} PfFoldIsPartitioned(es: seq<Event>)
    requires es != [] && forall i :: 0 <= i < |es| ==> FromAdmitted(es[i])
    ensures WellPartitioned(PfFold(es).value)
  {
    var k := |es| - 1;
    if k > 0 {
      PfFoldIsPartitioned(es[..k]);
      MergedIsPartitioned(PfFold(es[..k]).value, es[k]);
    }
  }

  /** The same for every entry of the list the operator builds. */
  lemma FoldIsPartitioned(es: seq<Event>, pci: string)
    requires forall i :: 0 <= i < |es| ==> FromAdmitted(es[i])
    ensures var entry := EntryOf(FoldEvents([], es), pci); entry.Some? ==> WellPartitioned(entry.value)
  {
    FoldIsPerPf(es, pci);
    var mine := Concerning(es, pci);
    if mine != [] { PfFoldIsPartitioned(mine); }
  }
}
