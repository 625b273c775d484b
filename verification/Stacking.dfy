/** Newest-first stacks in which a new element evicts the older ones it conflicts with. */
module Stacking {
  import opened Base

  /** What is left of a stack when a new element arrives. */
  function Keep<G>(stack: seq<G>, newer: G, conflicts: (G, G) -> bool): seq<G> {
    if stack == [] then []
    else if conflicts(stack[0], newer) then Keep(stack[1..], newer, conflicts)
    else [stack[0]] + Keep(stack[1..], newer, conflicts)
  }

  lemma {:induction false} KeepMembers<G>(stack: seq<G>, newer: G, conflicts: (G, G) -> bool, g: G)
    ensures g in Keep(stack, newer, conflicts) <==> g in stack && !conflicts(g, newer)
  {
    if stack != [] { KeepMembers(stack[1..], newer, conflicts, g); }
  }

  /** The destructive fold: each arrival goes on top of what it spares. */
  function Stack<G>(arrivals: seq<G>, conflicts: (G, G) -> bool): seq<G> {
    if arrivals == [] then []
    else
      var k := |arrivals| - 1;
      [arrivals[k]] + Keep(Stack(arrivals[..k], conflicts), arrivals[k], conflicts)
  }

  /** No later arrival conflicts with the k-th one. */
  predicate Survives<G>(arrivals: seq<G>, k: nat, conflicts: (G, G) -> bool)
    requires k < |arrivals|
  {
    forall j :: k < j < |arrivals| ==> !conflicts(arrivals[k], arrivals[j])
  }

  /** The surviving ones among the first n arrivals, newest first. */
  function Survivors<G>(arrivals: seq<G>, n: nat, conflicts: (G, G) -> bool): seq<G>
    requires n <= |arrivals|
  {
    if n == 0 then []
    else if Survives(arrivals, n - 1, conflicts) then [arrivals[n - 1]] + Survivors(arrivals, n - 1, conflicts)
    else Survivors(arrivals, n - 1, conflicts)
  }

  lemma {:induction false} SurvivorsEmptyIff<G>(arrivals: seq<G>, n: nat, conflicts: (G, G) -> bool)
    requires n <= |arrivals|
    ensures Survivors(arrivals, n, conflicts) == [] <==> forall j :: 0 <= j < n ==> !Survives(arrivals, j, conflicts)
  {
    if n > 0 { SurvivorsEmptyIff(arrivals, n - 1, conflicts); }
  }

  lemma {:induction false} KeepSnoc<G>(xs: seq<G>, x: G, newer: G, conflicts: (G, G) -> bool)
    ensures Keep(xs + [x], newer, conflicts) ==
      if conflicts(x, newer) then Keep(xs, newer, conflicts) else Keep(xs, newer, conflicts) + [x]
  {
    if xs == [] {
      assert [x][1..] == [];
    } else {
      KeepSnoc(xs[1..], x, newer, conflicts);
      assert (xs + [x])[1..] == xs[1..] + [x];
    }
  }

  /** One pass over the stack, appending what the new element spares. */
  method Spare<G>(stack: seq<G>, newer: G, conflicts: (G, G) -> bool) returns (spared: seq<G>)
    ensures spared == Keep(stack, newer, conflicts)
  {
    spared := [];
    for i := 0 to |stack|
      invariant spared == Keep(stack[..i], newer, conflicts)
    {
      KeepSnoc(stack[..i], stack[i], newer, conflicts);
      assert stack[..i + 1] == stack[..i] + [stack[i]];
      if conflicts(stack[i], newer) {
        continue;
      }
      spared := spared + [stack[i]];
    }
    assert stack[..|stack|] == stack;
  }

  lemma SurvivesOneMore<G>(xs: seq<G>, x: G, k: nat, conflicts: (G, G) -> bool)
    requires k < |xs|
    ensures Survives(xs + [x], k, conflicts) <==> Survives(xs, k, conflicts) && !conflicts(xs[k], x)
  {
    var more := xs + [x];
    assert more[|xs|] == x && more[k] == xs[k];
    assert forall j :: k < j < |xs| ==> more[j] == xs[j];
  }

  lemma {:induction false} SurvivorsOneMore<G>(xs: seq<G>, x: G, n: nat, conflicts: (G, G) -> bool)
    requires n <= |xs|
    ensures Survivors(xs + [x], n, conflicts) == Keep(Survivors(xs, n, conflicts), x, conflicts)
  {
    if n > 0 {
      SurvivorsOneMore(xs, x, n - 1, conflicts);
      SurvivesOneMore(xs, x, n - 1, conflicts);
      var rest := Survivors(xs, n - 1, conflicts);
      assert ([xs[n - 1]] + rest)[1..] == rest;
    }
  }

  /** The fold is exactly the list of arrivals no later arrival conflicts with, newest first. */
  lemma {:induction false} StackClosedForm<G>(arrivals: seq<G>, conflicts: (G, G) -> bool)
    ensures Stack(arrivals, conflicts) == Survivors(arrivals, |arrivals|, conflicts)
  {
    if arrivals != [] {
      var k := |arrivals| - 1;
      StackClosedForm(arrivals[..k], conflicts);
      SurvivorsOneMore(arrivals[..k], arrivals[k], k, conflicts);
      assert arrivals == arrivals[..k] + [arrivals[k]];
    }
  }

  /** Every element fits, and any two are apart. */
  predicate Spaced<G>(xs: seq<G>, fits: G -> bool, apart: (G, G) -> bool) {
    && (forall i :: 0 <= i < |xs| ==> fits(xs[i]))
    && (forall i, j :: 0 <= i < j < |xs| ==> apart(xs[i], xs[j]))
  }

  lemma {:induction false} KeepSpaced<G>(
    xs: seq<G>, newer: G, conflicts: (G, G) -> bool, fits: G -> bool, apart: (G, G) -> bool)
    requires Spaced(xs, fits, apart)
    ensures Spaced(Keep(xs, newer, conflicts), fits, apart)
  {
    if xs != [] {
      var rest := Keep(xs[1..], newer, conflicts);
      KeepSpaced(xs[1..], newer, conflicts, fits, apart);
      forall i | 0 <= i < |rest| ensures apart(xs[0], rest[i]) {
        KeepMembers(xs[1..], newer, conflicts, rest[i]);
      }
    }
  }

  /** Pushing keeps the stack spaced when sparing an element means being apart from it. */
  lemma PushSpaced<G(!new)>(
    xs: seq<G>, newer: G, conflicts: (G, G) -> bool, fits: G -> bool, fits': G -> bool, apart: (G, G) -> bool)
    requires Spaced(xs, fits, apart) && fits'(newer)
    requires Keep(xs, newer, conflicts) != [] ==> forall g :: fits(g) ==> fits'(g)
    requires forall g :: fits(g) && !conflicts(g, newer) ==> apart(newer, g)
    ensures Spaced([newer] + Keep(xs, newer, conflicts), fits', apart)
  {
    KeepSpaced(xs, newer, conflicts, fits, apart);
    var kept := Keep(xs, newer, conflicts);
    var all := [newer] + kept;
    forall i, j | 0 <= i < j < |all| ensures apart(all[i], all[j]) {
      assert all[j] == kept[j - 1];
      KeepMembers(xs, newer, conflicts, kept[j - 1]);
    }
  }

  function Without<G>(xs: seq<G>, i: nat): seq<G>
    requires i < |xs|
  {
    xs[..i] + xs[i + 1..]
  }

  lemma WithoutOne<G>(xs: seq<G>, i: nat)
    requires i < |xs|
    ensures multiset(Without(xs, i)) == multiset(xs) - multiset{xs[i]}
  {
    assert xs == xs[..i] + [xs[i]] + xs[i + 1..];
  }

  /** Two places of a list lead to two places of any rearrangement of it. */
  lemma TwoPlaces<G>(xs: seq<G>, ys: seq<G>, i: nat, j: nat) returns (p: nat, q: nat)
    requires multiset(xs) == multiset(ys) && i < j < |ys|
    ensures p < |xs| && q < |xs| && p != q && xs[p] == ys[i] && xs[q] == ys[j]
  {
    assert ys[i] in multiset(ys);
    p :| p < |xs| && xs[p] == ys[i];
    WithoutOne(ys, i);
    WithoutOne(xs, p);
    assert Without(ys, i)[j - 1] == ys[j];
    q := PlaceIn(Without(xs, p), Without(ys, i), j - 1);
    q := if q < p then q else q + 1;
  }

  lemma PlaceIn<G>(xs: seq<G>, ys: seq<G>, j: nat) returns (q: nat)
    requires multiset(xs) == multiset(ys) && j < |ys|
    ensures q < |xs| && xs[q] == ys[j]
  {
    assert ys[j] in multiset(ys);
    assert ys[j] in xs;
    q :| q < |xs| && xs[q] == ys[j];
  }

  function First<G>(xs: seq<G>, holds: G -> bool): Option<G> {
    if xs == [] then None else if holds(xs[0]) then Some(xs[0]) else First(xs[1..], holds)
  }

  /** Where no two places can both hold, the first to hold is the only one. */
  lemma {:induction false} FirstIsOnly<G>(xs: seq<G>, holds: G -> bool)
    requires forall i, j :: 0 <= i < j < |xs| ==> !(holds(xs[i]) && holds(xs[j]))
    ensures forall g :: g in xs && holds(g) <==> First(xs, holds) == Some(g)
  {
    if xs != [] {
      var rest := xs[1..];
      assert forall i :: 0 <= i < |rest| ==> rest[i] == xs[i + 1];
      FirstIsOnly(rest, holds);
      assert forall g :: g in xs <==> g == xs[0] || g in rest;
    }
  }
}
