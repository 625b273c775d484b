/** SR-IOV network node policies, the NICs of a node, and which policy selects which NIC. */
module Policies {
  import opened Base
  import opened Text
  import opened VfRange

  /** A network filter after the regular expression `key : value` has been matched against it. */
  datatype NetFilter = NoFilter | Unreadable | Pair(key: string, value: string)

  datatype NicSelector = NicSelector(
    vendor: string, deviceId: string, rootDevices: seq<string>, pfNames: seq<string>, netFilter: NetFilter)

  /** The identity part of an entry of status.interfaces. */
  datatype Nic = Nic(
    name: string, altNames: seq<string>, pci: string, vendor: string, deviceId: string, netFilter: NetFilter)

  /** Settings of a managed OVS bridge and of its uplink, with the map-valued parts left as text. */
  datatype OvsSettings = OvsSettings(bridge: string, uplink: string, mtuRequest: Option<int>)

  datatype Policy = Policy(
    name: string, priority: int, nodeSelector: map<string, string>, nics: NicSelector,
    resourceName: string, deviceType: string, mtu: int, numVfs: int, isRdma: bool, vdpaType: string,
    linkType: string, eswitchMode: string, externallyManaged: bool, ovs: Option<OvsSettings>)

  datatype VfGroup = VfGroup(
    resourceName: string, deviceType: string, vfRange: string, policyName: string,
    mtu: int, isRdma: bool, vdpaType: string)

  predicate IsEmpty(s: NicSelector) {
    s.vendor == "" && s.deviceId == "" && s.rootDevices == [] && s.pfNames == [] && s.netFilter.NoFilter?
  }

  /** The part of a pfNames entry that names the PF. */
  function PfNameOf(entry: string): string { Split(entry, '#')[0] }

  predicate NamedBy(pfNames: seq<string>, nic: Nic) {
    exists i :: 0 <= i < |pfNames| && (PfNameOf(pfNames[i]) == nic.name || PfNameOf(pfNames[i]) in nic.altNames)
  }

  predicate Selects(s: NicSelector, nic: Nic) {
    && (s.vendor != "" ==> s.vendor == nic.vendor)
    && (s.deviceId != "" ==> s.deviceId == nic.deviceId)
    && (s.rootDevices != [] ==> nic.pci in s.rootDevices)
    && (s.pfNames != [] ==> NamedBy(s.pfNames, nic))
    && (s.netFilter.NoFilter? || (s.netFilter.Pair? && s.netFilter == nic.netFilter))
  }

  /** SriovNetworkNicSelector.Selected, check by check. */
  method Selected(s: NicSelector, nic: Nic) returns (yes: bool)
    ensures yes <==> Selects(s, nic)
  {
    if s.vendor != "" && s.vendor != nic.vendor {
      return false;
    }
    if s.deviceId != "" && s.deviceId != nic.deviceId {
      return false;
    }
    if |s.rootDevices| > 0 && nic.pci !in s.rootDevices {
      return false;
    }
    if |s.pfNames| > 0 {
      var pfNames: seq<string> := [];
      for i := 0 to |s.pfNames|
        invariant |pfNames| == i && forall j :: 0 <= j < i ==> pfNames[j] == PfNameOf(s.pfNames[j])
      {
        pfNames := pfNames + [Split(s.pfNames[i], '#')[0]];
      }
      var named := NameOrAltNameMatches(nic.name, nic.altNames, pfNames);
      if !named {
        return false;
      }
    }
    if !s.netFilter.NoFilter? && !(s.netFilter.Pair? && s.netFilter == nic.netFilter) {
      return false;
    }
    return true;
  }

  method NameOrAltNameMatches(name: string, altNames: seq<string>, pfNames: seq<string>) returns (yes: bool)
    ensures yes <==> exists i :: 0 <= i < |pfNames| && (pfNames[i] == name || pfNames[i] in altNames)
  {
    if name in pfNames {
      return true;
    }
    for k := 0 to |altNames|
      invariant forall j :: 0 <= j < k ==> altNames[j] !in pfNames
    {
      if altNames[k] in pfNames {
        return true;
      }
    }
    return false;
  }

  const ANYTHING := NicSelector("", "", [], [], NoFilter)

  /** Each criterion alone picks exactly the NICs that meet it. */
  lemma CriterionByCriterion(nic: Nic, v: string, pci: string, pf: string, f: NetFilter)
    requires v != "" && '#' !in pf
    ensures Selects(ANYTHING, nic)
    ensures Selects(ANYTHING.(vendor := v), nic) <==> nic.vendor == v
    ensures Selects(ANYTHING.(deviceId := v), nic) <==> nic.deviceId == v
    ensures Selects(ANYTHING.(rootDevices := [pci]), nic) <==> nic.pci == pci
    ensures Selects(ANYTHING.(pfNames := [pf]), nic) <==> nic.name == pf || pf in nic.altNames
    ensures Selects(ANYTHING.(netFilter := f), nic) <==> f.NoFilter? || (f.Pair? && nic.netFilter == f)
  {
    assert PfNameOf(pf) == pf;
    assert [pf][0] == pf;
  }

  /** Several criteria pick the NICs that meet all of them. */
  lemma CriteriaCombine(s: NicSelector, nic: Nic)
    ensures Selects(s, nic) <==>
      && Selects(ANYTHING.(vendor := s.vendor), nic) && Selects(ANYTHING.(deviceId := s.deviceId), nic)
      && Selects(ANYTHING.(rootDevices := s.rootDevices), nic) && Selects(ANYTHING.(pfNames := s.pfNames), nic)
      && Selects(ANYTHING.(netFilter := s.netFilter), nic)
  {
  }

  /** Listing more devices or more names picks the NICs of either list. */
  lemma ListsUnite(a: seq<string>, b: seq<string>, nic: Nic)
    requires a != [] && b != []
    ensures Selects(ANYTHING.(rootDevices := a + b), nic) <==>
      Selects(ANYTHING.(rootDevices := a), nic) || Selects(ANYTHING.(rootDevices := b), nic)
    ensures Selects(ANYTHING.(pfNames := a + b), nic) <==>
      Selects(ANYTHING.(pfNames := a), nic) || Selects(ANYTHING.(pfNames := b), nic)
  {
    NamedByEither(a, b, nic);
  }

  lemma NamedByEither(a: seq<string>, b: seq<string>, nic: Nic)
    ensures NamedBy(a + b, nic) <==> NamedBy(a, nic) || NamedBy(b, nic)
  {
    if i :| 0 <= i < |a| && (PfNameOf(a[i]) == nic.name || PfNameOf(a[i]) in nic.altNames) {
      assert (a + b)[i] == a[i];
    }
    if i :| 0 <= i < |b| && (PfNameOf(b[i]) == nic.name || PfNameOf(b[i]) in nic.altNames) {
      assert (a + b)[|a| + i] == b[i];
    }
  }

  /** SriovNetworkNodePolicy.Selected. */
  predicate SelectsNode(p: Policy, labels: map<string, string>) {
    forall k :: k in p.nodeSelector ==> k in labels && labels[k] == p.nodeSelector[k]
  }

  /** The part of admission that the VF ranges rest on. */
  predicate Admitted(p: Policy) { AdmitsPfNames(p.nics.pfNames, p.numVfs) && p.numVfs <= MAX_INT }

  /** The group generatePfNameVfGroup builds for a NIC. */
  function GroupFor(p: Policy, nic: Nic): Outcome<VfGroup>
    requires 0 < p.numVfs
  {
    match RangeFor(p.nics.pfNames, p.numVfs, nic.name)
    case Ok(s) =>
      RangesAreNatural(p.nics.pfNames, p.numVfs, nic.name);
      Ok(VfGroup(p.resourceName, p.deviceType, PrintRange(s), p.name, p.mtu, p.isRdma, p.vdpaType))
    case Error => Error
    case Panic => Panic
  }

  /** A range text is split at '-', so neither bound can be negative. */
  lemma {:induction false} RangesAreNatural(pfNames: seq<string>, numVfs: int, name: string)
    requires 0 < numVfs
    ensures var r := RangeFor(pfNames, numVfs, name); r.Ok? ==> 0 <= r.value.first && 0 <= r.value.last
  {
    if pfNames != [] {
      RangesAreNatural(pfNames[1..], numVfs, name);
      var (_, range) := SplitDeviceFromRange(pfNames[0]);
      var parts := Split(range, '-');
      if range != "" && ParseRange(range).Ok? {
        assert parts[0] in parts && parts[1] in parts;
        NoMinusIsNatural(parts[0]);
        NoMinusIsNatural(parts[1]);
      }
    }
  }

  /** The VF indices a group covers. */
  function SpanOf(g: VfGroup): Span
    requires ParseRange(g.vfRange).Ok?
  {
    ParseRange(g.vfRange).value
  }

  /** A group of an admitted policy has a readable range inside the policy's own VFs. */
  predicate InBounds(g: VfGroup, numVfs: int) {
    ParseRange(g.vfRange).Ok? && 0 <= SpanOf(g).first <= SpanOf(g).last < numVfs
  }

  lemma AdmittedGroup(p: Policy, nic: Nic)
    requires Admitted(p) && 0 < p.numVfs
    ensures GroupFor(p, nic).Ok? && InBounds(GroupFor(p, nic).value, p.numVfs)
  {
    AdmittedRangeInBounds(p.nics.pfNames, p.numVfs, nic.name);
    ParsePrinted(RangeFor(p.nics.pfNames, p.numVfs, nic.name).value);
  }
}
