/** The managed OVS bridges of a NodeState spec: a list kept sorted by name that stands for a map keyed by PF. */
module Bridges {
  import opened Base
  import opened Text
  import opened Policies

  datatype Uplink = Uplink(pci: string, name: string, settings: string, mtuRequest: Option<int>)

  datatype OvsBridge = OvsBridge(name: string, settings: string, uplinks: seq<Uplink>)

  /** One NIC updated by one policy: with a bridge, or with the word that it has none. */
  datatype Event = Event(pci: string, bridge: Option<OvsBridge>)

  function Underscored(pci: string): (r: string)
    ensures |r| == |pci|
    ensures forall i :: 0 <= i < |pci| ==> r[i] == if pci[i] == ':' then '_' else pci[i]
  {
    seq(|pci|, i requires 0 <= i < |pci| => if pci[i] == ':' then '_' else pci[i])
  }

  /** GenerateBridgeName. */
  function BridgeName(pci: string): string { "br-" + Underscored(pci) }

  /** The format of the names. */
  lemma BridgeNameFormat()
    ensures BridgeName("0000:00:03.0") == "br-0000_00_03.0"
  {
    var a, b := Underscored("0000:00:03.0"), "0000_00_03.0";
    assert forall i :: 0 <= i < |a| ==> a[i] == b[i];
    assert a == b;
  }

  function BridgeFor(p: Policy, o: OvsSettings, nic: Nic): OvsBridge {
    OvsBridge(BridgeName(nic.pci), o.bridge,
              [Uplink(nic.pci, nic.name, o.uplink, if p.mtu > 0 then Some(p.mtu) else o.mtuRequest)])
  }

  function EventFor(p: Policy, nic: Nic): Event {
    Event(nic.pci, match p.ovs case None => None case Some(o) => Some(BridgeFor(p, o, nic)))
  }

  predicate UplinkedTo(b: OvsBridge, pci: string) { exists i :: 0 <= i < |b.uplinks| && b.uplinks[i].pci == pci }

  /** slices.DeleteFunc over the bridges that use the NIC. */
  function Drop(list: seq<OvsBridge>, pci: string): seq<OvsBridge> {
    if list == [] then []
    else if UplinkedTo(list[0], pci) then Drop(list[1..], pci)
    else [list[0]] + Drop(list[1..], pci)
  }

  /** Insert or replace by name. */
  function Put(list: seq<OvsBridge>, b: OvsBridge): seq<OvsBridge> {
    if list == [] || Less(b.name, list[0].name) then [b] + list
    else if list[0].name == b.name then [b] + list[1..]
    else [list[0]] + Put(list[1..], b)
  }

  function Step(list: seq<OvsBridge>, e: Event): seq<OvsBridge> {
    match e.bridge
    case None => Drop(list, e.pci)
    case Some(b) => Put(list, b)
  }

  function Fold(list: seq<OvsBridge>, es: seq<Event>): seq<OvsBridge> {
    if es == [] then list else Step(Fold(list, es[..|es| - 1]), es[|es| - 1])
  }

  predicate Sorted(list: seq<OvsBridge>) {
    forall i, j :: 0 <= i < j < |list| ==> Less(list[i].name, list[j].name)
  }

  /** Every bridge has one uplink and is named after it. */
  predicate Owned(b: OvsBridge) { |b.uplinks| == 1 && b.name == BridgeName(b.uplinks[0].pci) }

  predicate AllOwned(list: seq<OvsBridge>) { forall i :: 0 <= i < |list| ==> Owned(list[i]) }

  predicate WellFormedEvent(e: Event) { e.bridge.Some? ==> Owned(e.bridge.value) && e.bridge.value.uplinks[0].pci == e.pci }

  lemma EventForIsWellFormed(p: Policy, nic: Nic)
    ensures WellFormedEvent(EventFor(p, nic))
  {
  }

  lemma {:induction false} DropMembers(list: seq<OvsBridge>, pci: string, b: OvsBridge)
    ensures b in Drop(list, pci) <==> b in list && !UplinkedTo(b, pci)
  {
    if list != [] {
      DropMembers(list[1..], pci, b);
      assert list == [list[0]] + list[1..];
    }
  }

  lemma {:induction false} DropSorted(list: seq<OvsBridge>, pci: string)
    requires Sorted(list)
    ensures Sorted(Drop(list, pci))
  {
    if list != [] {
      DropSorted(list[1..], pci);
      var rest := Drop(list[1..], pci);
      forall i | 0 <= i < |rest| ensures Less(list[0].name, rest[i].name) {
        DropMembers(list[1..], pci, rest[i]);
      }
    }
  }

  lemma {:induction false} PutMembers(list: seq<OvsBridge>, b: OvsBridge, x: OvsBridge)
    requires Sorted(list)
    ensures x in Put(list, b) <==> x == b || (x in list && x.name != b.name)
  {
    if list != [] {
      assert list == [list[0]] + list[1..];
      LessIrreflexive(b.name);
      if Less(b.name, list[0].name) {
        if x in list && x.name == b.name { NameOnce(list, x, b.name); }
      } else if list[0].name == b.name {
        if x in list[1..] {
          var i :| 0 <= i < |list| - 1 && list[1..][i] == x;
          assert Less(list[0].name, list[i + 1].name);
        }
      } else {
        PutMembers(list[1..], b, x);
      }
    }
  }

  /** A name below the first name does not occur. */
  lemma NameOnce(list: seq<OvsBridge>, x: OvsBridge, name: string)
    requires Sorted(list) && list != [] && Less(name, list[0].name) && x in list
    ensures x.name != name
  {
    var i :| 0 <= i < |list| && list[i] == x;
    if i > 0 { LessTransitive(name, list[0].name, list[i].name); }
    LessIrreflexive(name);
  }

  lemma {:induction false} PutSorted(list: seq<OvsBridge>, b: OvsBridge)
    requires Sorted(list)
    ensures Sorted(Put(list, b))
  {
    if list == [] {
    } else if Less(b.name, list[0].name) {
      forall j | 0 < j < |list| ensures Less(b.name, list[j].name) { LessTransitive(b.name, list[0].name, list[j].name); }
    } else if list[0].name == b.name {
    } else {
      PutSorted(list[1..], b);
      LessTotal(b.name, list[0].name);
      var rest := Put(list[1..], b);
      forall i | 0 <= i < |rest| ensures Less(list[0].name, rest[i].name) {
        PutMembers(list[1..], b, rest[i]);
      }
    }
  }

  /** Position b would be inserted at: the lower bound of its name. */
  predicate IsLowerBound(list: seq<OvsBridge>, name: string, pos: nat) {
    && pos <= |list|
    && (forall i :: 0 <= i < pos ==> Less(list[i].name, name))
    && (forall i :: pos <= i < |list| ==> !Less(list[i].name, name))
  }

  /** slices.BinarySearchFunc on the sorted list. */
  method BinarySearch(list: seq<OvsBridge>, name: string) returns (pos: nat, exist: bool)
    requires Sorted(list)
    ensures IsLowerBound(list, name, pos)
    ensures exist <==> pos < |list| && list[pos].name == name
  {
    var n := |list|;
    var i, j := 0, n;
    while i < j
      invariant 0 <= i <= j <= n
      invariant forall k :: 0 <= k < i ==> Less(list[k].name, name)
      invariant forall k :: j <= k < n ==> !Less(list[k].name, name)
    {
      var h := (i + j) / 2;
      if Less(list[h].name, name) {
        forall k | 0 <= k < h ensures Less(list[k].name, name) { LessTransitive(list[k].name, list[h].name, name); }
        i := h + 1;
      } else {
        forall k | h < k < n ensures !Less(list[k].name, name) {
          if Less(list[k].name, name) { LessTransitive(list[h].name, list[k].name, name); }
        }
        j := h;
      }
    }
    pos := i;
    exist := i < n && list[i].name == name;
  }

  /** Where insert-or-replace writes. */
  function WriteAt(list: seq<OvsBridge>, b: OvsBridge, pos: nat): seq<OvsBridge>
    requires pos <= |list|
  {
    if pos < |list| && list[pos].name == b.name then list[pos := b] else list[..pos] + [b] + list[pos..]
  }

  lemma WriteAtLater(list: seq<OvsBridge>, b: OvsBridge, pos: nat)
    requires 0 < pos <= |list|
    ensures WriteAt(list, b, pos) == [list[0]] + WriteAt(list[1..], b, pos - 1)
  {
    if pos < |list| && list[pos].name == b.name {
      assert list[pos := b] == [list[0]] + list[1..][pos - 1 := b];
    } else {
      assert list[..pos] == [list[0]] + list[1..][..pos - 1] && list[pos..] == list[1..][pos - 1..];
    }
  }

  lemma PutAtFront(list: seq<OvsBridge>, b: OvsBridge)
    requires IsLowerBound(list, b.name, 0)
    ensures Put(list, b) == WriteAt(list, b, 0)
  {
    if list != [] {
      LessTotal(b.name, list[0].name);
      LessIrreflexive(b.name);
      assert list[0 := b] == [b] + list[1..];
    }
  }

  /** Writing at the lower bound is insert-or-replace. */
  lemma {:induction false} PutAtLowerBound(list: seq<OvsBridge>, b: OvsBridge, pos: nat)
    requires Sorted(list) && IsLowerBound(list, b.name, pos)
    ensures Put(list, b) == WriteAt(list, b, pos)
  {
    if pos == 0 {
      PutAtFront(list, b);
    } else {
      assert Less(list[0].name, b.name);
      if Less(b.name, list[0].name) { LessTransitive(b.name, list[0].name, b.name); }
      LessIrreflexive(b.name);
      LowerBoundOfRest(list, b.name, pos);
      PutAtLowerBound(list[1..], b, pos - 1);
      WriteAtLater(list, b, pos);
    }
  }

  lemma LowerBoundOfRest(list: seq<OvsBridge>, name: string, pos: nat)
    requires Sorted(list) && IsLowerBound(list, name, pos) && 0 < pos
    ensures Sorted(list[1..]) && IsLowerBound(list[1..], name, pos - 1)
  {
  }

  /** The last event that concerns a PF. */
  function LastFor(es: seq<Event>, pci: string): Option<Event> {
    if es == [] then None
    else if es[|es| - 1].pci == pci then Some(es[|es| - 1])
    else LastFor(es[..|es| - 1], pci)
  }

  /** The bridge the policies ask for on a PF: that of the last policy selecting it. */
  function Wanted(es: seq<Event>, pci: string): Option<OvsBridge> {
    match LastFor(es, pci) case None => None case Some(e) => e.bridge
  }

  /** No two PFs of the node share a bridge name. */
  predicate NamesDistinct(es: seq<Event>) {
    forall i, j :: 0 <= i < |es| && 0 <= j < |es| && BridgeName(es[i].pci) == BridgeName(es[j].pci) ==> es[i].pci == es[j].pci
  }

  /** PCI addresses without '_' never collide. */
  lemma NoUnderscoreNoCollision(a: string, b: string)
    requires '_' !in a && '_' !in b && BridgeName(a) == BridgeName(b)
    ensures a == b
  {
    assert BridgeName(a)[3..] == Underscored(a) && BridgeName(b)[3..] == Underscored(b);
    assert |a| == |b|;
    forall i | 0 <= i < |a| ensures a[i] == b[i] {
      assert Underscored(a)[i] == Underscored(b)[i];
      assert a[i] in a && b[i] in b;
    }
  }

  lemma {:induction false} LastForFound(es: seq<Event>, pci: string)
    ensures LastFor(es, pci).Some? ==> LastFor(es, pci).value in es && LastFor(es, pci).value.pci == pci
  {
    if es != [] {
      LastForFound(es[..|es| - 1], pci);
    }
  }

  /** The list is always strictly sorted, and every bridge in it is the one some update asked for. */
  lemma {:induction false} FoldIsSorted(es: seq<Event>)
    requires forall i :: 0 <= i < |es| ==> WellFormedEvent(es[i])
    ensures Sorted(Fold([], es)) && AllOwned(Fold([], es))
  {
    if es != [] {
      var k := |es| - 1;
      FoldIsSorted(es[..k]);
      var before := Fold([], es[..k]);
      match es[k].bridge
      case None =>
        DropSorted(before, es[k].pci);
        forall i | 0 <= i < |Fold([], es)| ensures Owned(Fold([], es)[i]) { DropMembers(before, es[k].pci, Fold([], es)[i]); }
      case Some(b) =>
        PutSorted(before, b);
        forall i | 0 <= i < |Fold([], es)| ensures Owned(Fold([], es)[i]) { PutMembers(before, b, Fold([], es)[i]); }
    }
  }

  /**
   The list refines a map keyed by PF: a bridge with uplink `pci` is in it exactly when it is the bridge
   the last policy selecting that PF defines.
   */
  lemma {:induction false} FoldRefinesMap(es: seq<Event>, pci: string, x: OvsBridge)
    requires forall i :: 0 <= i < |es| ==> WellFormedEvent(es[i])
    requires NamesDistinct(es)
    requires Owned(x) && x.uplinks[0].pci == pci
    ensures x in Fold([], es) <==> Wanted(es, pci) == Some(x)
  {
    if es != [] {
      var k := |es| - 1;
      var e := es[k];
      FoldRefinesMap(es[..k], pci, x);
      FoldIsSorted(es[..k]);
      LastForFound(es[..k], pci);
      match e.bridge
      case None =>
        DropMembers(Fold([], es[..k]), e.pci, x);
        assert UplinkedTo(x, e.pci) <==> pci == e.pci;
      case Some(b) =>
        PutMembers(Fold([], es[..k]), b, x);
        if x in Fold([], es[..k]) && pci != e.pci {
          var other := LastFor(es[..k], pci).value;
          assert other in es;
          var i :| 0 <= i < |es| && es[i] == other;
          assert BridgeName(es[i].pci) != BridgeName(es[k].pci);
        }
    }
  }

  /** And only distinct names will do: if two PFs share one, the second bridge silently replaces the first. */
  lemma CollisionLosesBridge(a: Event, b: Event)
    requires WellFormedEvent(a) && WellFormedEvent(b) && a.bridge.Some? && b.bridge.Some?
    requires a.pci != b.pci && BridgeName(a.pci) == BridgeName(b.pci)
    ensures Wanted([a, b], a.pci) == a.bridge && Fold([], [a, b]) == [b.bridge.value] && a.bridge.value !in Fold([], [a, b])
  {
    var two := [a, b];
    assert two[..1] == [a] && [a][..0] == [] && [a][0] == a;
    assert LastFor(two, a.pci) == LastFor([a], a.pci);
    assert Fold([], [a]) == [a.bridge.value];
    LessIrreflexive(BridgeName(a.pci));
  }
}
