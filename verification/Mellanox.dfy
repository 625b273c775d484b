/** Firmware settings of Mellanox NICs: what the plugin asks for, what it writes, and when it stops asking. */
module Mellanox {
  import opened Base
  import opened Text

  /** MlxNic: a firmware configuration, or, with NO_VFS and empty link types, a set of changes to one. */
  datatype MlxNic = MlxNic(enableSriov: bool, totalVfs: int, linkTypeP1: string, linkTypeP2: string)

  const NO_VFS := -1
  const NO_CHANGES := MlxNic(false, NO_VFS, "", "")

  datatype Device = Device(current: MlxNic, next: MlxNic)

  datatype PortSpec = PortSpec(pci: string, numVfs: int, externallyManaged: bool, linkType: string)

  /**
   * `specs` by PCI address; `ports`, the observed link type by PCI prefix and address; `devices` by PCI prefix,
   * one firmware for all ports of a NIC. A prefix that is not there cannot be queried.
   */
  datatype Host = Host(specs: map<string, PortSpec>, ports: map<string, map<string, string>>, devices: map<string, Device>)

  function Prefix(pci: string): string
    requires pci != ""
  {
    pci[..|pci| - 1]
  }

  /** Specs are kept under their own address and for known NICs only; VF counts come from policies, whose minimum is 0. */
  predicate WellFormed(h: Host) {
    forall pci :: pci in h.specs ==>
      pci != "" && h.specs[pci].pci == pci && h.specs[pci].numVfs >= 0 && Prefix(pci) in h.ports
  }

  predicate IsDualPort(h: Host, pci: string)
    requires pci != ""
  {
    Prefix(pci) in h.ports && |h.ports[Prefix(pci)]| > 1
  }

  function OtherPort(pci: string): string
    requires pci != ""
  {
    if pci[|pci| - 1..] == "0" then Prefix(pci) + "1" else Prefix(pci) + "0"
  }

  /** The other port's other port is the port itself exactly on functions 0 and 1. */
  lemma OtherPortIsInvolution(pci: string)
    requires pci != ""
    ensures OtherPort(pci) != "" && Prefix(OtherPort(pci)) == Prefix(pci)
    ensures OtherPort(OtherPort(pci)) == pci <==> pci[|pci| - 1] in "01"
  {
    var n := |pci| - 1;
    assert pci == Prefix(pci) + [pci[n]] && pci[n..] == [pci[n]];
    var o := OtherPort(pci);
    assert Prefix(o) == Prefix(pci) && o[n..] == [o[n]];
    assert OtherPort(o)[n] == if o[n] == '0' then '1' else '0';
  }

  // ----- the three handlers -----

  datatype Ask = Ask(attrs: MlxNic, reboot: bool, quiet: bool)

  function RequestedVfs(h: Host, spec: PortSpec): int
    requires spec.pci != ""
  {
    var other := OtherPort(spec.pci);
    if IsDualPort(h, spec.pci) && other in h.specs && h.specs[other].numVfs > spec.numVfs then h.specs[other].numVfs
    else spec.numVfs
  }

  /** The larger of the two ports' counts on a dual-port NIC with both ports specified, and the port's own count otherwise. */
  lemma RequestedIsLarger(h: Host, pci: string)
    requires WellFormed(h) && pci in h.specs
    ensures var spec, total := h.specs[pci], RequestedVfs(h, h.specs[pci]);
      if IsDualPort(h, pci) && OtherPort(pci) in h.specs
      then total >= spec.numVfs && total >= h.specs[OtherPort(pci)].numVfs && total in {spec.numVfs, h.specs[OtherPort(pci)].numVfs}
      else total == spec.numVfs
  {
  }

  function HandleTotalVfs(dev: Device, attrs: MlxNic, spec: PortSpec, total: int): Ask {
    if spec.externallyManaged then
      if total > dev.current.totalVfs then Ask(attrs.(totalVfs := total), true, false) else Ask(attrs, false, false)
    else if dev.current.totalVfs != total then Ask(attrs.(totalVfs := total), true, false)
    else if dev.next.totalVfs != total then Ask(attrs.(totalVfs := total), false, true)
    else Ask(attrs, false, false)
  }

  function HandleEnableSriov(total: int, dev: Device, attrs: MlxNic): Ask {
    if total == 0 && dev.current.enableSriov then Ask(attrs.(enableSriov := false), true, false)
    else if total > 0 && !dev.current.enableSriov then Ask(attrs.(enableSriov := true), true, false)
    else if total > 0 && !dev.next.enableSriov then Ask(attrs.(enableSriov := true), false, true)
    else Ask(attrs, false, false)
  }

  function ObservedLinkType(h: Host, prefix: string, pci: string): string {
    if prefix in h.ports && pci in h.ports[prefix] then h.ports[prefix][pci] else ""
  }

  /** isLinkTypeRequireChange. */
  function LinkChange(h: Host, prefix: string, pci: string, firmware: string): Outcome<bool> {
    if pci !in h.specs then Ok(false)
    else
      var wanted := h.specs[pci].linkType;
      if wanted == "" || EqualFold(ObservedLinkType(h, prefix, pci), wanted) then Ok(false)
      else if !EqualFold(wanted, "ETH") && !EqualFold(wanted, "IB") then Error
      else if firmware == "Unknown" || firmware == "Preconfigured" then Error
      else Ok(true)
  }

  function HandleLinkType(h: Host, prefix: string, dev: Device, attrs: MlxNic): Outcome<Ask> {
    var p1, p2 := prefix + "0", prefix + "1";
    match LinkChange(h, prefix, p1, dev.current.linkTypeP1)
    case Error => Error
    case Panic => Panic
    case Ok(first) =>
      match LinkChange(h, prefix, p2, dev.current.linkTypeP2)
      case Error => Error
      case Panic => Panic
      case Ok(second) =>
        var a := if first then attrs.(linkTypeP1 := h.specs[p1].linkType) else attrs;
        var b := if second then a.(linkTypeP2 := h.specs[p2].linkType) else a;
        Ok(Ask(b, first || second, false))
  }

  /** One turn of the per-NIC loop: what to write and whether to reboot. */
  function Evaluate(h: Host, pci: string): Outcome<Ask>
    requires pci != "" && pci in h.specs && h.specs[pci].pci != ""
  {
    if Prefix(pci) !in h.devices then Error
    else
      var dev := h.devices[Prefix(pci)];
      var spec := h.specs[pci];
      var total := RequestedVfs(h, spec);
      var vfs := HandleTotalVfs(dev, NO_CHANGES, spec, total);
      var sriov := HandleEnableSriov(total, dev, vfs.attrs);
      match HandleLinkType(h, Prefix(pci), dev, sriov.attrs)
      case Error => Error
      case Panic => Panic
      case Ok(link) =>
        if spec.externallyManaged && (vfs.reboot || vfs.quiet || link.reboot) then Error
        else Ok(Ask(link.attrs, vfs.reboot || sriov.reboot || link.reboot, vfs.quiet || sriov.quiet))
  }

  // ----- writing -----

  datatype Setting = SriovEn(on: bool) | NumOfVfs(n: int) | LinkTypeP1(t: string) | LinkTypeP2(t: string)

  /** The arguments MlxConfigFW passes on: an unset VF count leaves SRIOV_EN alone unless it is to be switched on. */
  function Arguments(attrs: MlxNic): seq<Setting> {
    (if attrs.enableSriov then [SriovEn(true)] else if attrs.totalVfs == 0 then [SriovEn(false)] else []) +
    (if attrs.totalVfs > -1 then [NumOfVfs(attrs.totalVfs)] else []) +
    (if |attrs.linkTypeP1| > 0 then [LinkTypeP1(attrs.linkTypeP1)] else []) +
    (if |attrs.linkTypeP2| > 0 then [LinkTypeP2(attrs.linkTypeP2)] else [])
  }

  function Set(fw: MlxNic, s: Setting): MlxNic {
    match s
    case SriovEn(on) => fw.(enableSriov := on)
    case NumOfVfs(n) => fw.(totalVfs := n)
    case LinkTypeP1(t) => fw.(linkTypeP1 := t)
    case LinkTypeP2(t) => fw.(linkTypeP2 := t)
  }

  function SetAll(fw: MlxNic, ss: seq<Setting>): MlxNic
    decreases |ss|
  {
    if ss == [] then fw else SetAll(Set(fw, ss[0]), ss[1..])
  }

  lemma {:induction false} SetAllAppend(fw: MlxNic, a: seq<Setting>, b: seq<Setting>)
    ensures SetAll(fw, a + b) == SetAll(SetAll(fw, a), b)
    decreases |a|
  {
    if a == [] {
      assert a + b == b;
    } else {
      SetAllAppend(Set(fw, a[0]), a[1..], b);
      assert (a + b)[1..] == a[1..] + b;
    }
  }

  /** The stored configuration after a write, field by field. */
  lemma WriteEffect(fw: MlxNic, attrs: MlxNic)
    ensures var after := SetAll(fw, Arguments(attrs));
      && after.enableSriov == (attrs.enableSriov || (attrs.totalVfs != 0 && fw.enableSriov))
      && after.totalVfs == (if attrs.totalVfs > -1 then attrs.totalVfs else fw.totalVfs)
      && after.linkTypeP1 == (if attrs.linkTypeP1 != "" then attrs.linkTypeP1 else fw.linkTypeP1)
      && after.linkTypeP2 == (if attrs.linkTypeP2 != "" then attrs.linkTypeP2 else fw.linkTypeP2)
  {
    var a := if attrs.enableSriov then [SriovEn(true)] else if attrs.totalVfs == 0 then [SriovEn(false)] else [];
    var b := if attrs.totalVfs > -1 then [NumOfVfs(attrs.totalVfs)] else [];
    var c := if |attrs.linkTypeP1| > 0 then [LinkTypeP1(attrs.linkTypeP1)] else [];
    var d := if |attrs.linkTypeP2| > 0 then [LinkTypeP2(attrs.linkTypeP2)] else [];
    SetAllAppend(fw, a + b + c, d);
    SetAllAppend(fw, a + b, c);
    SetAllAppend(fw, a, b);
    AtMostOne(fw, a);
    AtMostOne(SetAll(fw, a), b);
    AtMostOne(SetAll(fw, a + b), c);
    AtMostOne(SetAll(fw, a + b + c), d);
  }

  lemma AtMostOne(fw: MlxNic, ss: seq<Setting>)
    requires |ss| <= 1
    ensures SetAll(fw, ss) == if ss == [] then fw else Set(fw, ss[0])
  {
    if ss != [] { assert ss[1..] == []; }
  }

  /** One write, followed by a reboot if one is asked for. */
  function Round(h: Host, pci: string): Host
    requires WellFormed(h) && pci in h.specs && Evaluate(h, pci).Ok?
  {
    var ask := Evaluate(h, pci).value;
    var dev := h.devices[Prefix(pci)];
    var next := if ask.reboot || ask.quiet then SetAll(dev.next, Arguments(ask.attrs)) else dev.next;
    var current := if ask.reboot then next else dev.current;
    h.(devices := h.devices[Prefix(pci) := Device(current, next)])
  }

  predicate AtRest(h: Host, pci: string)
    requires WellFormed(h) && pci in h.specs
  {
    Evaluate(h, pci).Ok? && !Evaluate(h, pci).value.reboot && !Evaluate(h, pci).value.quiet
  }

  /** Every specified port of the NIC has the link type it is to have. */
  predicate LinksRight(h: Host, prefix: string) {
    forall pci :: pci in {prefix + "0", prefix + "1"} && pci in h.specs ==>
      h.specs[pci].linkType == "" || EqualFold(ObservedLinkType(h, prefix, pci), h.specs[pci].linkType)
  }

  lemma LinksRightMeansNoLinkChange(h: Host, prefix: string, dev: Device, attrs: MlxNic)
    requires LinksRight(h, prefix)
    ensures HandleLinkType(h, prefix, dev, attrs) == Ok(Ask(attrs, false, false))
  {
    assert prefix + "0" in {prefix + "0", prefix + "1"} && prefix + "1" in {prefix + "0", prefix + "1"};
  }

  /** Nothing is left to switch off that MlxConfigFW would not switch off: SR-IOV enabled for zero VFs, now and after a reboot. */
  predicate StuckEnabled(dev: Device, total: int) {
    total == 0 && dev.current.totalVfs == 0 && dev.next.totalVfs == 0 && dev.current.enableSriov && dev.next.enableSriov
  }

  /** The firmware provides the VFs, now and after a reboot, and SR-IOV is on now exactly if there are any. */
  predicate Provides(dev: Device, total: int) {
    && dev.current.totalVfs == total && dev.next.totalVfs == total
    && (dev.current.enableSriov <==> total > 0) && (total > 0 ==> dev.next.enableSriov)
  }

  /** There is nothing to ask for exactly when the firmware provides what is requested. */
  lemma AtRestMeansProvided(h: Host, pci: string)
    requires WellFormed(h) && pci in h.specs && Prefix(pci) in h.devices
    requires !h.specs[pci].externallyManaged && LinksRight(h, Prefix(pci))
    ensures AtRest(h, pci) <==> Provides(h.devices[Prefix(pci)], RequestedVfs(h, h.specs[pci]))
  {
    var dev, spec := h.devices[Prefix(pci)], h.specs[pci];
    var total := RequestedVfs(h, spec);
    var vfs := HandleTotalVfs(dev, NO_CHANGES, spec, total);
    LinksRightMeansNoLinkChange(h, Prefix(pci), dev, HandleEnableSriov(total, dev, vfs.attrs).attrs);
  }

  /** An externally managed NIC is never written a VF count or a link type; asking for more VFs than it has, or for another link, is an error. */
  lemma ExternallyManagedIsChecked(h: Host, pci: string)
    requires WellFormed(h) && pci in h.specs && Prefix(pci) in h.devices && h.specs[pci].externallyManaged
    ensures Evaluate(h, pci).Ok? ==>
      Evaluate(h, pci).value.attrs.totalVfs == NO_VFS && Evaluate(h, pci).value.attrs.linkTypeP1 == "" && Evaluate(h, pci).value.attrs.linkTypeP2 == ""
    ensures LinksRight(h, Prefix(pci)) ==>
      (Evaluate(h, pci).Ok? <==> RequestedVfs(h, h.specs[pci]) <= h.devices[Prefix(pci)].current.totalVfs)
  {
    var dev, spec := h.devices[Prefix(pci)], h.specs[pci];
    var total := RequestedVfs(h, spec);
    var vfs := HandleTotalVfs(dev, NO_CHANGES, spec, total);
    if LinksRight(h, Prefix(pci)) {
      LinksRightMeansNoLinkChange(h, Prefix(pci), dev, HandleEnableSriov(total, dev, vfs.attrs).attrs);
    }
  }

  /** The link types the ports show once the written ones are in force. */
  function Relinked(h: Host, prefix: string, attrs: MlxNic): Host
    requires prefix in h.ports
  {
    var a := if attrs.linkTypeP1 != "" then h.ports[prefix][prefix + "0" := attrs.linkTypeP1] else h.ports[prefix];
    var b := if attrs.linkTypeP2 != "" then a[prefix + "1" := attrs.linkTypeP2] else a;
    h.(ports := h.ports[prefix := b])
  }

  lemma EqualFoldReflexive(s: string)
    ensures EqualFold(s, s)
  {
  }

  /** A port with a spec shows the link type it is to have. */
  predicate LinkRight(h: Host, prefix: string, pci: string) {
    pci in h.specs ==> h.specs[pci].linkType == "" || EqualFold(ObservedLinkType(h, prefix, pci), h.specs[pci].linkType)
  }

  /** A link type is written exactly for the ports that show another one than they are to have. */
  lemma LinksAsked(h: Host, prefix: string, dev: Device, attrs: MlxNic)
    requires attrs.linkTypeP1 == "" == attrs.linkTypeP2 && HandleLinkType(h, prefix, dev, attrs).Ok?
    ensures var ask := HandleLinkType(h, prefix, dev, attrs).value;
      && ask.attrs.linkTypeP1 == (if LinkRight(h, prefix, prefix + "0") then "" else h.specs[prefix + "0"].linkType)
      && ask.attrs.linkTypeP2 == (if LinkRight(h, prefix, prefix + "1") then "" else h.specs[prefix + "1"].linkType)
      && (ask.reboot <==> !LinkRight(h, prefix, prefix + "0") || !LinkRight(h, prefix, prefix + "1"))
  {
  }

  lemma LinksRightIs(h: Host, prefix: string)
    ensures LinksRight(h, prefix) <==> LinkRight(h, prefix, prefix + "0") && LinkRight(h, prefix, prefix + "1")
  {
    assert prefix + "0" in {prefix + "0", prefix + "1"} && prefix + "1" in {prefix + "0", prefix + "1"};
  }

  lemma RelinkedIsRight(h: Host, prefix: string, attrs: MlxNic)
    requires prefix in h.ports
    requires !LinkRight(h, prefix, prefix + "0") ==> attrs.linkTypeP1 == h.specs[prefix + "0"].linkType
    requires !LinkRight(h, prefix, prefix + "1") ==> attrs.linkTypeP2 == h.specs[prefix + "1"].linkType
    requires LinkRight(h, prefix, prefix + "0") ==> attrs.linkTypeP1 == ""
    requires LinkRight(h, prefix, prefix + "1") ==> attrs.linkTypeP2 == ""
    ensures LinksRight(Relinked(h, prefix, attrs), prefix)
  {
    var p1, p2 := prefix + "0", prefix + "1";
    assert p1[|prefix|] != p2[|prefix|];
    EqualFoldReflexive(attrs.linkTypeP1);
    EqualFoldReflexive(attrs.linkTypeP2);
    LinksRightIs(Relinked(h, prefix, attrs), prefix);
  }

  /** Once the link types asked for are in force, every specified port of the NIC has the one it is to have. */
  lemma LinkChangeConverges(h: Host, pci: string)
    requires WellFormed(h) && pci in h.specs && Evaluate(h, pci).Ok? && !h.specs[pci].externallyManaged
    ensures LinksRight(Relinked(h, Prefix(pci), Evaluate(h, pci).value.attrs), Prefix(pci))
    ensures !LinksRight(h, Prefix(pci)) ==> Evaluate(h, pci).value.reboot
  {
    var prefix, dev, spec := Prefix(pci), h.devices[Prefix(pci)], h.specs[pci];
    var total := RequestedVfs(h, spec);
    var sriov := HandleEnableSriov(total, dev, HandleTotalVfs(dev, NO_CHANGES, spec, total).attrs);
    LinksAsked(h, prefix, dev, sriov.attrs);
    RelinkedIsRight(h, prefix, Evaluate(h, pci).value.attrs);
    LinksRightIs(h, prefix);
  }

  /**
   * Convergence on a NIC that is not externally managed and whose links are right: one write and, if asked for, one
   * reboot leave nothing to ask for, except in the one stuck configuration, which asks for a reboot for ever.
   */
  lemma OneRoundConverges(h: Host, pci: string)
    requires WellFormed(h) && pci in h.specs && Prefix(pci) in h.devices
    requires !h.specs[pci].externallyManaged && LinksRight(h, Prefix(pci))
    ensures Evaluate(h, pci).Ok?
    ensures AtRest(Round(h, pci), pci) <==> !StuckEnabled(h.devices[Prefix(pci)], RequestedVfs(h, h.specs[pci]))
    ensures !StuckEnabled(h.devices[Prefix(pci)], RequestedVfs(h, h.specs[pci])) ==>
      Provides(Round(h, pci).devices[Prefix(pci)], RequestedVfs(h, h.specs[pci]))
    ensures StuckEnabled(h.devices[Prefix(pci)], RequestedVfs(h, h.specs[pci])) ==>
      Evaluate(h, pci).value.reboot && StuckEnabled(Round(h, pci).devices[Prefix(pci)], RequestedVfs(h, h.specs[pci]))
  {
    var dev, spec := h.devices[Prefix(pci)], h.specs[pci];
    var total := RequestedVfs(h, spec);
    var vfs := HandleTotalVfs(dev, NO_CHANGES, spec, total);
    LinksRightMeansNoLinkChange(h, Prefix(pci), dev, HandleEnableSriov(total, dev, vfs.attrs).attrs);
    WriteEffect(dev.next, Evaluate(h, pci).value.attrs);
    var h' := Round(h, pci);
    var dev' := h'.devices[Prefix(pci)];
    assert RequestedVfs(h', spec) == total;
    assert LinksRight(h', Prefix(pci));
    LinksRightMeansNoLinkChange(h', Prefix(pci), dev', HandleEnableSriov(total, dev', HandleTotalVfs(dev', NO_CHANGES, spec, total).attrs).attrs);
  }

  function Rounds(h: Host, pci: string, n: nat): (r: Outcome<Host>)
    requires WellFormed(h) && pci in h.specs
    ensures r.Ok? ==> r.value.specs == h.specs && r.value.ports == h.ports && WellFormed(r.value)
  {
    if n == 0 then Ok(h)
    else match Rounds(h, pci, n - 1)
         case Ok(g) => if Evaluate(g, pci).Ok? then Ok(Round(g, pci)) else Error
         case _ => Error
  }

  predicate Stuck(h: Host, pci: string)
    requires WellFormed(h) && pci in h.specs
  {
    && Prefix(pci) in h.devices && !h.specs[pci].externallyManaged && LinksRight(h, Prefix(pci))
    && StuckEnabled(h.devices[Prefix(pci)], RequestedVfs(h, h.specs[pci]))
  }

  lemma StuckRound(h: Host, pci: string)
    requires WellFormed(h) && pci in h.specs && Stuck(h, pci)
    ensures Evaluate(h, pci).Ok? && Evaluate(h, pci).value.reboot && Stuck(Round(h, pci), pci)
  {
    OneRoundConverges(h, pci);
    var h' := Round(h, pci);
    assert LinksRight(h', Prefix(pci)) && RequestedVfs(h', h.specs[pci]) == RequestedVfs(h, h.specs[pci]);
  }

  /** Once stuck, every further round asks for a reboot. */
  lemma {:induction false} StuckForEver(h: Host, pci: string, n: nat)
    requires WellFormed(h) && pci in h.specs && Stuck(h, pci)
    ensures Rounds(h, pci, n).Ok? && Stuck(Rounds(h, pci, n).value, pci)
    ensures var ask := Evaluate(Rounds(h, pci, n).value, pci); ask.Ok? && ask.value.reboot
  {
    if n > 0 {
      StuckForEver(h, pci, n - 1);
      StuckRound(Rounds(h, pci, n - 1).value, pci);
    }
    StuckRound(Rounds(h, pci, n).value, pci);
  }

  /** A NIC can be stuck: zero VFs are asked for, zero are configured, and SR-IOV is enabled all the same. */
  lemma SomeHostIsStuck()
    ensures var fw := MlxNic(true, 0, "ETH", "");
      var h := Host(map["a0" := PortSpec("a0", 0, false, "")], map["a" := map["a0" := "ETH"]], map["a" := Device(fw, fw)]);
      WellFormed(h) && Stuck(h, "a0")
  {
    assert Prefix("a0") == "a";
  }

  // ----- dual-port NICs -----

  lemma LinkVerdictIgnoresAttrs(h: Host, prefix: string, dev: Device, a: MlxNic, b: MlxNic)
    ensures HandleLinkType(h, prefix, dev, a).Ok? <==> HandleLinkType(h, prefix, dev, b).Ok?
    ensures var x, y := HandleLinkType(h, prefix, dev, a), HandleLinkType(h, prefix, dev, b);
      x.Ok? ==> x.value.reboot == y.value.reboot && x.value.attrs.totalVfs == a.totalVfs
  {
  }

  predicate AreTwins(h: Host, p: string, q: string)
    requires WellFormed(h)
  {
    p in h.specs && q in h.specs && IsDualPort(h, p) && p[|p| - 1] in "01" && q == OtherPort(p)
  }

  /** The firmware already has the VF count for good, and no link is to change. */
  predicate Settled(h: Host, p: string)
    requires WellFormed(h) && p in h.specs && Prefix(p) in h.devices
  {
    var dev, total := h.devices[Prefix(p)], RequestedVfs(h, h.specs[p]);
    var link := HandleLinkType(h, Prefix(p), dev, NO_CHANGES);
    dev.current.totalVfs == total == dev.next.totalVfs && link.Ok? && !link.value.reboot
  }

  lemma TwinsRequestTheSame(h: Host, p: string, q: string)
    requires WellFormed(h) && AreTwins(h, p, q)
    ensures Prefix(p) == Prefix(q) && OtherPort(q) == p && RequestedVfs(h, h.specs[p]) == RequestedVfs(h, h.specs[q])
  {
    OtherPortIsInvolution(p);
  }

  /**
   * The outcome is the same whichever port of a dual-port NIC is looked at, except when exactly one of the two is
   * externally managed and there is something to change.
   */
  lemma TwinsAgree(h: Host, p: string, q: string)
    requires WellFormed(h) && AreTwins(h, p, q) && Prefix(p) in h.devices
    ensures Evaluate(h, p) == Evaluate(h, q) <==>
      || h.specs[p].externallyManaged == h.specs[q].externallyManaged
      || !HandleLinkType(h, Prefix(p), h.devices[Prefix(p)], NO_CHANGES).Ok?
      || Settled(h, p)
  {
    TwinsRequestTheSame(h, p, q);
    var dev, total := h.devices[Prefix(p)], RequestedVfs(h, h.specs[p]);
    var vp := HandleTotalVfs(dev, NO_CHANGES, h.specs[p], total);
    var vq := HandleTotalVfs(dev, NO_CHANGES, h.specs[q], total);
    var ep, eq := HandleEnableSriov(total, dev, vp.attrs), HandleEnableSriov(total, dev, vq.attrs);
    LinkVerdictIgnoresAttrs(h, Prefix(p), dev, ep.attrs, NO_CHANGES);
    LinkVerdictIgnoresAttrs(h, Prefix(p), dev, eq.attrs, NO_CHANGES);
  }
}
