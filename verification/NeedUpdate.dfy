/** Drift detection: does a PF and its VFs still look the way the NodeState spec wants them? */
module NeedUpdate {
  import opened Base
  import opened Text
  import opened VfRange
  import opened Policies
  import opened Stacking
  import opened PolicyFold
  import opened PolicySync

  datatype Vf = Vf(id: int, driver: string, mtu: int, guid: string, vdpaType: string)

  /** The observed part of a PF. */
  datatype Pf = Pf(mtu: int, eswitchMode: string, numVfs: int, linkAdminState: string, linkType: string, vfs: seq<Vf>)

  const DPDK_DRIVERS := ["igb_uio", "vfio-pci", "uio_pci_generic"]
  const UNINITIALIZED_NODE_GUID := "0000:0000:0000:0000"

  function EswitchMode(mode: string): string { if mode == "" then "legacy" else mode }

  // ----- what conforming means -----

  predicate PfConforms(spec: Interface, pf: Pf) {
    && (spec.mtu > 0 ==> spec.mtu <= pf.mtu)
    && EswitchMode(pf.eswitchMode) == EswitchMode(spec.eswitchMode)
    && spec.numVfs == pf.numVfs
    && pf.linkAdminState != "down"
  }

  predicate IsKernelType(deviceType: string) { deviceType in {"", "netdevice"} }

  predicate NeedsNodeGuid(linkType: string, g: VfGroup) {
    EqualFold(linkType, "IB") || (EqualFold(linkType, "ETH") && g.isRdma)
  }

  /** A VF is what its group asks for. VFs of an externally managed PF with a kernel driver are always redone. */
  predicate VfConforms(spec: Interface, pf: Pf, vf: Vf, g: VfGroup) {
    && vf.driver != ""
    && vf.vdpaType == g.vdpaType
    && (!IsKernelType(g.deviceType) ==> vf.driver == g.deviceType)
    && (IsKernelType(g.deviceType) ==>
          && vf.driver !in DPDK_DRIVERS
          && (vf.mtu == 0 || g.mtu == 0 || vf.mtu == g.mtu)
          && (NeedsNodeGuid(pf.linkType, g) ==> vf.guid != UNINITIALIZED_NODE_GUID)
          && !spec.externallyManaged)
  }

  predicate Covers(g: VfGroup, id: int) { ParseRange(g.vfRange).Ok? && Contains(SpanOf(g), id) }

  predicate VfConformsToAll(spec: Interface, pf: Pf, vf: Vf) {
    forall g :: g in spec.vfGroups && Covers(g, vf.id) ==> VfConforms(spec, pf, vf, g)
  }

  /** The PF conforms and every VF conforms to every group that covers it. */
  predicate Conforms(spec: Interface, pf: Pf) {
    && PfConforms(spec, pf)
    && (spec.numVfs > 0 ==> forall vf :: vf in pf.vfs ==> VfConformsToAll(spec, pf, vf))
  }

  /** A VF set up for its group: the driver, the MTU and the VDPA type asked for, and a GUID. */
  function SetUp(vf: Vf, g: VfGroup, kernelDriver: string, guid: string): Vf {
    vf.(driver := if IsKernelType(g.deviceType) then kernelDriver else g.deviceType,
        mtu := if g.mtu != 0 then g.mtu else vf.mtu, guid := guid, vdpaType := g.vdpaType)
  }

  /** It conforms, unless an external manager owns its kernel-driven PF. */
  lemma SetUpConforms(spec: Interface, pf: Pf, vf: Vf, g: VfGroup, kernelDriver: string, guid: string)
    requires kernelDriver !in {"", "igb_uio", "vfio-pci", "uio_pci_generic"} && guid != "0000:0000:0000:0000"
    ensures VfConforms(spec, pf, SetUp(vf, g, kernelDriver, guid), g) <==> !(IsKernelType(g.deviceType) && spec.externallyManaged)
  {
  }

  /** And every way of not being set up is noticed. */
  lemma DifferencesAreNoticed(spec: Interface, pf: Pf, vf: Vf, g: VfGroup)
    ensures vf.driver == "" || vf.vdpaType != g.vdpaType ==> !VfConforms(spec, pf, vf, g)
    ensures g.deviceType !in {"", "netdevice"} && vf.driver != g.deviceType ==> !VfConforms(spec, pf, vf, g)
    ensures g.deviceType in {"", "netdevice"} && vf.driver in {"igb_uio", "vfio-pci", "uio_pci_generic"} ==> !VfConforms(spec, pf, vf, g)
    ensures g.deviceType in {"", "netdevice"} && vf.mtu != g.mtu && vf.mtu != 0 && g.mtu != 0 ==> !VfConforms(spec, pf, vf, g)
    ensures IsKernelType(g.deviceType) && vf.guid == "0000:0000:0000:0000" && EqualFold(pf.linkType, "IB") ==> !VfConforms(spec, pf, vf, g)
    ensures IsKernelType(g.deviceType) && vf.guid == "0000:0000:0000:0000" && EqualFold(pf.linkType, "ETH") && g.isRdma ==>
      !VfConforms(spec, pf, vf, g)
  {
    assert DPDK_DRIVERS[0] == "igb_uio" && DPDK_DRIVERS[1] == "vfio-pci" && DPDK_DRIVERS[2] == "uio_pci_generic";
  }

  /** A PF conforms when it is up in the right mode with the right number of VFs and an MTU no smaller than asked for. */
  lemma PfSetUpConforms(spec: Interface, pf: Pf)
    ensures spec.mtu > 0 && pf.mtu < spec.mtu ==> !PfConforms(spec, pf)
    ensures pf.numVfs != spec.numVfs || pf.linkAdminState == "down" ==> !PfConforms(spec, pf)
    ensures spec.eswitchMode in {"", "legacy"} && pf.eswitchMode !in {"", "legacy"} ==> !PfConforms(spec, pf)
    ensures spec.eswitchMode !in {"", "legacy"} && pf.eswitchMode != spec.eswitchMode ==> !PfConforms(spec, pf)
    ensures (pf.mtu >= spec.mtu && pf.numVfs == spec.numVfs && pf.linkAdminState == "up" &&
             (pf.eswitchMode == spec.eswitchMode || {pf.eswitchMode, spec.eswitchMode} == {"", "legacy"})) ==> PfConforms(spec, pf)
  {
  }

  // ----- what the code computes -----

  /** The first group that covers a VF. */
  function Owner(groups: seq<VfGroup>, id: int): Outcome<Option<VfGroup>> {
    if groups == [] then Ok(None)
    else match IndexInRange(id, groups[0].vfRange)
         case Panic => Panic
         case Error => Error
         case Ok(inside) => if inside then Ok(Some(groups[0])) else Owner(groups[1..], id)
  }

  /** Some VF differs from its owner; VFs are looked at in order, so an earlier difference hides a later panic. */
  function VfsDiffer(spec: Interface, pf: Pf, vfs: seq<Vf>): Outcome<bool> {
    if vfs == [] then Ok(false)
    else match Owner(spec.vfGroups, vfs[0].id)
         case Panic => Panic
         case Error => Error
         case Ok(owner) =>
           if owner.Some? && !VfConforms(spec, pf, vfs[0], owner.value) then Ok(true) else VfsDiffer(spec, pf, vfs[1..])
  }

  function Verdict(spec: Interface, pf: Pf): Outcome<bool> {
    if !PfConforms(spec, pf) then Ok(true)
    else if spec.numVfs > 0 then VfsDiffer(spec, pf, pf.vfs)
    else Ok(false)
  }

  /** NeedToUpdateSriov, with its two loops, its early returns and its break at the first group that covers a VF. */
  method NeedToUpdateSriov(spec: Interface, pf: Pf) returns (r: Outcome<bool>)
    ensures r == Verdict(spec, pf)
  {
    if spec.mtu > 0 {
      var mtu := spec.mtu;
      if mtu > pf.mtu {
        return Ok(true);
      }
    }
    if EswitchMode(pf.eswitchMode) != EswitchMode(spec.eswitchMode) {
      return Ok(true);
    }
    if spec.numVfs != pf.numVfs {
      return Ok(true);
    }
    if pf.linkAdminState == "down" {
      return Ok(true);
    }
    if spec.numVfs > 0 {
      for i := 0 to |pf.vfs|
        invariant VfsDiffer(spec, pf, pf.vfs) == VfsDiffer(spec, pf, pf.vfs[i..])
      {
        var vf := pf.vfs[i];
        assert pf.vfs[i..][0] == vf && pf.vfs[i..][1..] == pf.vfs[i + 1..];
        var owner := FirstOwner(spec.vfGroups, vf.id);
        if owner == Panic {
          return Panic;
        }
        if owner.value.Some? {
          var differs := VfDiffers(spec, pf, vf, owner.value.value);
          if differs {
            return Ok(true);
          }
        }
      }
    }
    return Ok(false);
  }

  /** The inner loop up to its break. */
  method FirstOwner(groups: seq<VfGroup>, id: int) returns (r: Outcome<Option<VfGroup>>)
    ensures r == Owner(groups, id) && r != Error
  {
    for j := 0 to |groups|
      invariant Owner(groups, id) == Owner(groups[j..], id)
    {
      assert groups[j..][0] == groups[j] && groups[j..][1..] == groups[j + 1..];
      var inside := IndexInRange(id, groups[j].vfRange);
      if inside == Panic {
        return Panic;
      }
      if inside == Ok(true) {
        return Ok(Some(groups[j]));
      }
    }
    return Ok(None);
  }

  /** The checks inside the loops. */
  method VfDiffers(spec: Interface, pf: Pf, vf: Vf, g: VfGroup) returns (differs: bool)
    ensures differs <==> !VfConforms(spec, pf, vf, g)
  {
    if vf.driver == "" {
      return true;
    }
    if g.deviceType != "" && g.deviceType != "netdevice" {
      if g.deviceType != vf.driver {
        return true;
      }
    } else {
      if vf.driver in DPDK_DRIVERS {
        return true;
      }
      if vf.mtu != 0 && g.mtu != 0 && vf.mtu != g.mtu {
        return true;
      }
      if (EqualFold(pf.linkType, "ETH") && g.isRdma) || EqualFold(pf.linkType, "IB") {
        if vf.guid == UNINITIALIZED_NODE_GUID {
          return true;
        }
      }
      if spec.externallyManaged {
        return true;
      }
    }
    return g.vdpaType != vf.vdpaType;
  }

  // ----- soundness of the first-match break -----

  predicate Disjoint(groups: seq<VfGroup>) {
    && (forall i :: 0 <= i < |groups| ==> ParseRange(groups[i].vfRange).Ok?)
    && (forall i, j :: 0 <= i < j < |groups| ==> Apart(groups[i], groups[j]))
  }

  function CoversId(id: int): VfGroup -> bool { (g: VfGroup) => Covers(g, id) }

  lemma {:induction false} OwnerIsFirst(groups: seq<VfGroup>, id: int)
    requires forall i :: 0 <= i < |groups| ==> ParseRange(groups[i].vfRange).Ok?
    ensures Owner(groups, id) == Ok(First(groups, CoversId(id)))
  {
    if groups != [] {
      OwnerIsFirst(groups[1..], id);
    }
  }

  lemma ApartMeansOneCovers(a: VfGroup, b: VfGroup, id: int)
    requires Apart(a, b)
    ensures !(CoversId(id)(a) && CoversId(id)(b))
  {
  }

  /** In disjoint groups the first group that covers a VF is the only one. */
  lemma OwnerIsUnique(groups: seq<VfGroup>, id: int)
    requires Disjoint(groups)
    ensures Owner(groups, id).Ok?
    ensures forall g :: g in groups && CoversId(id)(g) <==> Owner(groups, id).value == Some(g)
  {
    OwnerIsFirst(groups, id);
    forall i, j | 0 <= i < j < |groups| ensures !(CoversId(id)(groups[i]) && CoversId(id)(groups[j])) {
      ApartMeansOneCovers(groups[i], groups[j], id);
    }
    FirstIsOnly(groups, CoversId(id));
  }

  lemma {:induction false} VfsDifferIff(spec: Interface, pf: Pf, vfs: seq<Vf>)
    requires Disjoint(spec.vfGroups)
    ensures VfsDiffer(spec, pf, vfs) == Ok(!(forall vf :: vf in vfs ==> VfConformsToAll(spec, pf, vf)))
  {
    if vfs != [] {
      OwnerIsUnique(spec.vfGroups, vfs[0].id);
      assert VfConformsToAll(spec, pf, vfs[0]) <==>
        (Owner(spec.vfGroups, vfs[0].id).value.Some? ==> VfConforms(spec, pf, vfs[0], Owner(spec.vfGroups, vfs[0].id).value.value));
      VfsDifferIff(spec, pf, vfs[1..]);
      assert forall vf :: vf in vfs <==> vf == vfs[0] || vf in vfs[1..];
    }
  }

  /** An update is due exactly when the PF or one of its VFs does not conform. */
  lemma UpdateIffNotConforming(spec: Interface, pf: Pf)
    requires Disjoint(spec.vfGroups)
    ensures Verdict(spec, pf) == Ok(!Conforms(spec, pf))
  {
    VfsDifferIff(spec, pf, pf.vfs);
  }

  /** Without disjointness the order decides: a VF that suits only one of two groups covering it is due an update or not. */
  lemma OverlapMakesOrderMatter(spec: Interface, pf: Pf, vf: Vf, a: VfGroup, b: VfGroup)
    requires PfConforms(spec, pf) && spec.numVfs > 0 && pf.vfs == [vf] && Covers(a, vf.id) && Covers(b, vf.id)
    requires VfConforms(spec, pf, vf, b) && !VfConforms(spec, pf, vf, a)
    ensures Verdict(spec.(vfGroups := [a, b]), pf) == Ok(true) && Verdict(spec.(vfGroups := [b, a]), pf) == Ok(false)
  {
    var ab, ba := spec.(vfGroups := [a, b]), spec.(vfGroups := [b, a]);
    assert Owner(ab.vfGroups, vf.id) == Ok(Some(a)) && Owner(ba.vfGroups, vf.id) == Ok(Some(b));
    assert !VfConforms(ab, pf, vf, a) && VfConforms(ba, pf, vf, b);
    assert pf.vfs[1..] == [];
    assert VfsDiffer(ba, pf, []) == Ok(false);
  }

  lemma DisjointRearranged(a: seq<VfGroup>, b: seq<VfGroup>)
    requires Disjoint(a) && multiset(a) == multiset(b)
    ensures Disjoint(b)
  {
    forall i, j | 0 <= i < j < |b| ensures Apart(b[i], b[j]) {
      var p, q := TwoPlaces(a, b, i, j);
      assert p < q ==> Apart(a[p], a[q]);
      assert q < p ==> Apart(a[q], a[p]);
    }
    SameMembers(a, b);
    forall i | 0 <= i < |b| ensures ParseRange(b[i].vfRange).Ok? {
      assert b[i] in a;
    }
  }

  lemma ConformsRearranged(spec: Interface, pf: Pf, groups: seq<VfGroup>)
    requires forall g :: g in spec.vfGroups <==> g in groups
    ensures Conforms(spec, pf) <==> Conforms(spec.(vfGroups := groups), pf)
  {
    var other := spec.(vfGroups := groups);
    assert forall vf, g :: VfConforms(spec, pf, vf, g) <==> VfConforms(other, pf, vf, g);
  }

  /** The order of the groups does not matter. */
  lemma GroupOrderIsIrrelevant(spec: Interface, pf: Pf, groups: seq<VfGroup>)
    requires Disjoint(spec.vfGroups) && multiset(groups) == multiset(spec.vfGroups)
    ensures Disjoint(groups) && Verdict(spec.(vfGroups := groups), pf) == Verdict(spec, pf)
  {
    DisjointRearranged(spec.vfGroups, groups);
    SameMembers(spec.vfGroups, groups);
    ConformsRearranged(spec, pf, groups);
    UpdateIffNotConforming(spec, pf);
    UpdateIffNotConforming(spec.(vfGroups := groups), pf);
  }

  lemma SameMembers(a: seq<VfGroup>, b: seq<VfGroup>)
    requires multiset(a) == multiset(b)
    ensures forall g :: g in a <==> g in b
  {
    forall g ensures g in a <==> g in b {
      assert g in a <==> g in multiset(a);
      assert g in b <==> g in multiset(b);
    }
  }

  /** For every PF of a spec generated from admitted policies the check is exact. */
  lemma GeneratedSpecIsCheckedExactly(inp: Inputs, pci: string, pf: Pf)
    requires forall i :: 0 <= i < |inp.policies| ==> Admitted(inp.policies[i])
    requires var g := Generate(inp.policies, inp.labels, inp.status, inp.manageBridges, inp.system);
      g.Some? && EntryOf(g.value.interfaces, pci).Some?
    ensures var g := Generate(inp.policies, inp.labels, inp.status, inp.manageBridges, inp.system);
      var spec := EntryOf(g.value.interfaces, pci).value;
      Verdict(spec, pf) == Ok(!Conforms(spec, pf))
  {
    GeneratedSpecIsPartitioned(inp, pci);
    var g := Generate(inp.policies, inp.labels, inp.status, inp.manageBridges, inp.system);
    UpdateIffNotConforming(EntryOf(g.value.interfaces, pci).value, pf);
  }
}
