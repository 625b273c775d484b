/** The NodeState object the policy controller fills in place: Apply, mergeConfigs and ApplyBridgeConfig. */
module NodeState {
  import opened Base
  import opened Text
  import opened VfRange
  import opened Policies
  import opened Stacking
  import opened PolicyFold
  import B = Bridges

  /** The updates one policy makes, in status order, unless a pfNames entry of it cannot be read. */
  function EventsOf(p: Policy, status: seq<Nic>, equalPriority: bool): Outcome<seq<Event>> {
    if status == [] || IsEmpty(p.nics) || p.numVfs <= 0 then Ok([])
    else
      var k := |status| - 1;
      match EventsOf(p, status[..k], equalPriority)
      case Error => Error
      case Panic => Panic
      case Ok(es) =>
        if !Selects(p.nics, status[k]) then Ok(es)
        else match GroupFor(p, status[k])
             case Ok(g) => Ok(es + [Event(p, status[k], equalPriority, g)])
             case Error => Error
             case Panic => Panic
  }

  /** ApplyBridgeConfig's sanity check. */
  predicate BridgePolicyOk(p: Policy) {
    p.ovs.Some? ==>
      p.eswitchMode == "switchdev" && (p.linkType == "" || EqualFold(p.linkType, "ETH")) && !p.externallyManaged
  }

  function BridgeEventsOf(p: Policy, status: seq<Nic>): seq<B.Event> {
    if status == [] || IsEmpty(p.nics) then []
    else
      var k := |status| - 1;
      if Selects(p.nics, status[k]) then BridgeEventsOf(p, status[..k]) + [B.EventFor(p, status[k])]
      else BridgeEventsOf(p, status[..k])
  }

  /** A policy without any criterion selects no NIC at all, though each missing criterion by itself would let every NIC pass. */
  lemma EmptySelectorUpdatesNothing(p: Policy, status: seq<Nic>, equalPriority: bool)
    requires p.nics == NicSelector("", "", [], [], NoFilter)
    ensures EventsOf(p, status, equalPriority) == Ok([]) && BridgeEventsOf(p, status) == []
  {
  }

  predicate Readable(groups: seq<VfGroup>) {
    forall i :: 0 <= i < |groups| ==> ParseRange(groups[i].vfRange).Ok?
  }

  predicate AllReadable(ifaces: seq<Interface>) {
    forall i :: 0 <= i < |ifaces| ==> Readable(ifaces[i].vfGroups)
  }

  lemma FoldEventsSnoc(ifaces: seq<Interface>, es: seq<Event>, e: Event)
    ensures FoldEvents(ifaces, es + [e]) == ApplyEvent(FoldEvents(ifaces, es), e)
  {
    assert (es + [e])[..|es|] == es;
  }

  lemma FoldBridgesSnoc(list: seq<B.OvsBridge>, es: seq<B.Event>, e: B.Event)
    ensures B.Fold(list, es + [e]) == B.Step(B.Fold(list, es), e)
  {
    assert (es + [e])[..|es|] == es;
  }

  /** Every generated range can be read back. */
  lemma GroupIsReadable(p: Policy, nic: Nic)
    requires 0 < p.numVfs <= MAX_INT && GroupFor(p, nic).Ok?
    ensures ParseRange(GroupFor(p, nic).value.vfRange).Ok?
    ensures ParseRange(GroupFor(p, nic).value.vfRange) == RangeFor(p.nics.pfNames, p.numVfs, nic.name)
  {
    RangesAreNatural(p.nics.pfNames, p.numVfs, nic.name);
    RangesAreSmall(p.nics.pfNames, p.numVfs, nic.name);
    ParsePrinted(RangeFor(p.nics.pfNames, p.numVfs, nic.name).value);
  }

  lemma {:induction false} RangesAreSmall(pfNames: seq<string>, numVfs: int, name: string)
    requires numVfs <= MAX_INT
    ensures var r := RangeFor(pfNames, numVfs, name); r.Ok? ==> r.value.first <= MAX_INT && r.value.last <= MAX_INT
  {
    if pfNames != [] { RangesAreSmall(pfNames[1..], numVfs, name); }
  }

  /** Readable ranges never panic, so the test mergeConfigs makes of an older group is `Conflicts`. */
  lemma ReadableConflict(older: VfGroup, newer: VfGroup)
    requires ParseRange(older.vfRange).Ok? && ParseRange(newer.vfRange).Ok?
    ensures NoPanic(older, newer)
  {
  }

  predicate NoPanic(older: VfGroup, newer: VfGroup) { IsOverlapping(older.vfRange, newer.vfRange) != Panic }

  lemma NeverPanics(older: seq<VfGroup>, newer: VfGroup)
    requires Readable(older) && ParseRange(newer.vfRange).Ok?
    ensures forall i :: 0 <= i < |older| ==> NoPanic(older[i], newer)
  {
    forall i | 0 <= i < |older| ensures NoPanic(older[i], newer) {
      ReadableConflict(older[i], newer);
    }
  }

  lemma KeepReadable(older: seq<VfGroup>, newer: VfGroup)
    requires Readable(older)
    ensures Readable(Keep(older, newer, Conflicts))
  {
    var kept := Keep(older, newer, Conflicts);
    forall i | 0 <= i < |kept| ensures ParseRange(kept[i].vfRange).Ok? {
      KeepMembers(older, newer, Conflicts, kept[i]);
    }
  }

  lemma ReadableWith(g: VfGroup, rest: seq<VfGroup>)
    requires ParseRange(g.vfRange).Ok? && Readable(rest)
    ensures Readable([g] + rest)
  {
  }

  /** mergeConfigs: the merged entry that replaces the older one. */
  method MergeConfigs(older: Interface, e: Event) returns (input: Interface)
    requires Readable(older.vfGroups) && ParseRange(e.group.vfRange).Ok?
    ensures input == Merged(older, e) && Readable(input.vfGroups)
    ensures forall i :: 0 <= i < |older.vfGroups| ==> NoPanic(older.vfGroups[i], e.group)
  {
    NeverPanics(older.vfGroups, e.group);
    var spared := Spare(older.vfGroups, e.group, Conflicts);
    KeepReadable(older.vfGroups, e.group);
    ReadableWith(e.group, spared);
    input := Alone(e).(vfGroups := [e.group] + spared);
    if !e.equalPriority && spared == [] {
      return;
    }
    if input.mtu < older.mtu {
      input := input.(mtu := older.mtu);
    }
    if input.numVfs < older.numVfs {
      input := input.(numVfs := older.numVfs);
    }
  }

  lemma ReadableAlone(e: Event)
    requires ParseRange(e.group.vfRange).Ok?
    ensures Readable(Alone(e).vfGroups)
  {
  }

  lemma StillReadable(ifaces: seq<Interface>, k: nat, entry: Interface)
    requires AllReadable(ifaces) && Readable(entry.vfGroups) && k <= |ifaces|
    ensures AllReadable(if k == |ifaces| then ifaces + [entry] else ifaces[k := entry])
  {
  }

  /** The loop of Apply over the entries. */
  method FindEntry(ifaces: seq<Interface>, pci: string) returns (r: Option<nat>)
    ensures r == Find(ifaces, pci)
  {
    for i := 0 to |ifaces|
      invariant forall j :: 0 <= j < i ==> ifaces[j].pci != pci
    {
      if ifaces[i].pci == pci {
        FindUnique(ifaces, pci, i);
        return Some(i);
      }
    }
    return None;
  }

  class State {
    const status: seq<Nic>
    var interfaces: seq<Interface>
    var bridges: seq<B.OvsBridge>

    ghost predicate Valid()
      reads this
    {
      AllReadable(interfaces) && B.Sorted(bridges)
    }

    constructor (status: seq<Nic>)
      ensures Valid() && this.status == status && interfaces == [] && bridges == []
    {
      this.status := status;
      interfaces := [];
      bridges := [];
    }

    /** Merges one update into the entry of its NIC, or appends a new entry. */
    method Merge(e: Event)
      requires Valid() && ParseRange(e.group.vfRange).Ok?
      modifies this`interfaces
      ensures Valid() && interfaces == ApplyEvent(old(interfaces), e)
    {
      var found := FindEntry(interfaces, e.nic.pci);
      match found {
        case None =>
          ReadableAlone(e);
          StillReadable(interfaces, |interfaces|, Alone(e));
          interfaces := interfaces + [Alone(e)];
        case Some(k) =>
          var merged := MergeConfigs(interfaces[k], e);
          StillReadable(interfaces, k, merged);
          interfaces := interfaces[k := merged];
      }
    }

    /** One turn of Apply's loop, for a NIC the policy selects. */
    method ApplyToNic(p: Policy, nic: Nic, equalPriority: bool) returns (r: Outcome<()>)
      requires Valid() && 0 < p.numVfs <= MAX_INT
      modifies this`interfaces
      ensures Valid()
      ensures match GroupFor(p, nic)
        case Ok(group) => r == Ok(()) && interfaces == ApplyEvent(old(interfaces), Event(p, nic, equalPriority, group))
        case Error => r == Error
        case Panic => r == Panic
    {
      match GroupFor(p, nic) {
        case Error => return Error;
        case Panic => return Panic;
        case Ok(group) =>
          GroupIsReadable(p, nic);
          Merge(Event(p, nic, equalPriority, group));
          return Ok(());
      }
    }

    /** Apply: on success the interfaces are the fold of the policy's updates. */
    method Apply(p: Policy, equalPriority: bool) returns (r: Outcome<()>)
      requires Valid() && p.numVfs <= MAX_INT
      modifies this`interfaces
      ensures Valid()
      ensures match EventsOf(p, status, equalPriority)
        case Ok(es) => r == Ok(()) && interfaces == FoldEvents(old(interfaces), es)
        case Error => r == Error
        case Panic => r == Panic
    {
      if IsEmpty(p.nics) {
        return Ok(());
      }
      for i := 0 to |status|
        invariant Valid() && EventsOf(p, status[..i], equalPriority).Ok?
        invariant interfaces == FoldEvents(old(interfaces), EventsOf(p, status[..i], equalPriority).value)
      {
        assert status[..i + 1][..i] == status[..i];
        if Selects(p.nics, status[i]) && p.numVfs > 0 {
          r := ApplyToNic(p, status[i], equalPriority);
          if !r.Ok? {
            EventsError(p, status, equalPriority, i + 1);
            return;
          }
          FoldEventsSnoc(old(interfaces), EventsOf(p, status[..i], equalPriority).value,
                         Event(p, status[i], equalPriority, GroupFor(p, status[i]).value));
        }
      }
      assert status[..|status|] == status;
      return Ok(());
    }

    /** ApplyBridgeConfig: on success the bridges are the fold of the policy's updates, still sorted. */
    method ApplyBridgeConfig(p: Policy) returns (ok: bool)
      requires Valid()
      modifies this`bridges
      ensures Valid()
      ensures ok <==> IsEmpty(p.nics) || BridgePolicyOk(p)
      ensures !ok <==> !IsEmpty(p.nics) && p.ovs.Some? &&
                       (p.eswitchMode != "switchdev" || (p.linkType != "" && !EqualFold(p.linkType, "ETH")) || p.externallyManaged)
      ensures ok ==> bridges == B.Fold(old(bridges), BridgeEventsOf(p, status))
    {
      if IsEmpty(p.nics) {
        return true;
      }
      if p.ovs.Some? {
        if p.eswitchMode != "switchdev" {
          return false;
        }
        if p.linkType != "" && !EqualFold(p.linkType, "ETH") {
          return false;
        }
        if p.externallyManaged {
          return false;
        }
      }
      for i := 0 to |status|
        invariant Valid() && bridges == B.Fold(old(bridges), BridgeEventsOf(p, status[..i]))
      {
        assert status[..i + 1][..i] == status[..i];
        if Selects(p.nics, status[i]) {
          FoldBridgesSnoc(old(bridges), BridgeEventsOf(p, status[..i]), B.EventFor(p, status[i]));
          if p.ovs.None? {
            B.DropSorted(bridges, status[i].pci);
            bridges := B.Drop(bridges, status[i].pci);
            continue;
          }
          var b := B.BridgeFor(p, p.ovs.value, status[i]);
          var pos, exist := B.BinarySearch(bridges, b.name);
          B.PutAtLowerBound(bridges, b, pos);
          B.PutSorted(bridges, b);
          if exist {
            bridges := bridges[pos := b];
          } else {
            bridges := bridges[..pos] + [b] + bridges[pos..];
          }
        }
      }
      assert status[..|status|] == status;
      return true;
    }
  }

  /** An unreadable entry met on a prefix of the NICs is met on all of them. */
  lemma {:induction false} EventsError(p: Policy, status: seq<Nic>, eq: bool, i: nat)
    requires i <= |status| && !EventsOf(p, status[..i], eq).Ok?
    ensures EventsOf(p, status, eq) == EventsOf(p, status[..i], eq)
    decreases |status|
  {
    if i < |status| {
      var k := |status| - 1;
      assert status[..k][..i] == status[..i];
      EventsError(p, status[..k], eq, i);
    } else {
      assert status[..i] == status;
    }
  }
}
