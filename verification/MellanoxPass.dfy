/** The Mellanox plugin's pass over the NICs that have a spec, in whatever order a Go map yields them. */
module MellanoxPass {
  import opened Base
  import opened Mellanox

  /** An order in which a Go map may yield the specs. */
  predicate Visits(h: Host, order: seq<string>) {
    && (forall i :: 0 <= i < |order| ==> order[i] in h.specs)
    && (forall i, j :: 0 <= i < j < |order| ==> order[i] != order[j])
    && (forall pci :: pci in h.specs ==> pci in order)
  }

  predicate Known(h: Host, order: seq<string>) {
    forall i :: 0 <= i < |order| ==> order[i] in h.specs
  }

  /** The NICs of the first n ports. */
  function Prefixes(h: Host, order: seq<string>, n: nat): set<string>
    requires WellFormed(h) && Known(h, order) && n <= |order|
  {
    if n == 0 then {} else Prefixes(h, order, n - 1) + {Prefix(order[n - 1])}
  }

  lemma {:induction false} InPrefixes(h: Host, order: seq<string>, n: nat, prefix: string)
    requires WellFormed(h) && Known(h, order) && n <= |order|
    ensures prefix in Prefixes(h, order, n) <==> exists i :: 0 <= i < n && Prefix(order[i]) == prefix
  {
    if n > 0 { InPrefixes(h, order, n - 1, prefix); }
  }

  /** The ports that are evaluated among the first n: the first of each NIC. */
  function Leaders(h: Host, order: seq<string>, n: nat): (r: seq<string>)
    requires WellFormed(h) && Known(h, order) && n <= |order|
    ensures Known(h, r)
  {
    if n == 0 then []
    else if Prefix(order[n - 1]) in Prefixes(h, order, n - 1) then Leaders(h, order, n - 1)
    else Leaders(h, order, n - 1) + [order[n - 1]]
  }

  predicate Asks(h: Host, pci: string)
    requires WellFormed(h) && pci in h.specs
  {
    Evaluate(h, pci).Ok? && Evaluate(h, pci).value.reboot
  }

  predicate Writes(h: Host, pci: string)
    requires WellFormed(h) && pci in h.specs
  {
    Evaluate(h, pci).Ok? && (Evaluate(h, pci).value.reboot || Evaluate(h, pci).value.quiet)
  }

  function Resets(h: Host, leaders: seq<string>): (r: seq<string>)
    requires WellFormed(h) && Known(h, leaders)
    ensures Known(h, r)
  {
    if leaders == [] then []
    else
      var k := |leaders| - 1;
      var before := Resets(h, leaders[..k]);
      if Asks(h, leaders[k]) then before + [leaders[k]] else before
  }

  function Changes(h: Host, leaders: seq<string>): map<string, MlxNic>
    requires WellFormed(h) && Known(h, leaders)
  {
    if leaders == [] then map[]
    else
      var k := |leaders| - 1;
      var before := Changes(h, leaders[..k]);
      if Writes(h, leaders[k]) then before[leaders[k] := Evaluate(h, leaders[k]).value.attrs] else before
  }

  predicate Readable(h: Host, pci: string)
    requires WellFormed(h) && pci in h.specs
  {
    Evaluate(h, pci).Ok?
  }

  predicate AllReadable(h: Host, leaders: seq<string>)
    requires WellFormed(h) && Known(h, leaders)
  {
    forall i :: 0 <= i < |leaders| ==> Readable(h, leaders[i])
  }

  predicate LastAsks(h: Host, leaders: seq<string>)
    requires WellFormed(h) && Known(h, leaders)
  {
    leaders != [] && Asks(h, leaders[|leaders| - 1])
  }

  /** What the pass has gathered once the leaders have been evaluated. */
  datatype Gathered = Gathered(toReset: seq<string>, attributes: map<string, MlxNic>, needReboot: bool)

  function Gather(h: Host, leaders: seq<string>): Outcome<Gathered>
    requires WellFormed(h) && Known(h, leaders)
  {
    if AllReadable(h, leaders) then Ok(Gathered(Resets(h, leaders), Changes(h, leaders), LastAsks(h, leaders))) else Error
  }

  lemma AddLeader(h: Host, leaders: seq<string>, pci: string)
    requires WellFormed(h) && Known(h, leaders) && pci in h.specs
    ensures var more := leaders + [pci];
      && (AllReadable(h, more) <==> AllReadable(h, leaders) && Readable(h, pci))
      && Resets(h, more) == (if Asks(h, pci) then Resets(h, leaders) + [pci] else Resets(h, leaders))
      && Changes(h, more) ==
           (if Writes(h, pci) then Changes(h, leaders)[pci := Evaluate(h, pci).value.attrs] else Changes(h, leaders))
  {
    var more := leaders + [pci];
    assert more[..|leaders|] == leaders && more[|leaders|] == pci;
    if AllReadable(h, more) {
      forall i | 0 <= i < |leaders| ensures Readable(h, leaders[i]) { assert more[i] == leaders[i]; }
    }
  }

  /** Settings are written for exactly the evaluated ports that have something to change, and are the ones asked for. */
  lemma {:induction false} ChangesAreTheWrites(h: Host, leaders: seq<string>)
    requires WellFormed(h) && Known(h, leaders)
    ensures forall pci :: pci in Changes(h, leaders) <==> pci in leaders && Writes(h, pci)
    ensures forall pci :: pci in Changes(h, leaders) ==> Evaluate(h, pci).Ok? && Changes(h, leaders)[pci] == Evaluate(h, pci).value.attrs
  {
    if leaders != [] {
      var k := |leaders| - 1;
      ChangesAreTheWrites(h, leaders[..k]);
      assert leaders == leaders[..k] + [leaders[k]];
    }
  }

  lemma {:induction false} UnreadableStays(h: Host, order: seq<string>, i: nat)
    requires WellFormed(h) && Known(h, order) && i <= |order| && Gather(h, Leaders(h, order, i)) == Error
    ensures Gather(h, Leaders(h, order, |order|)) == Error
    decreases |order| - i
  {
    if i < |order| {
      AddLeader(h, Leaders(h, order, i), order[i]);
      UnreadableStays(h, order, i + 1);
    }
  }

  // ----- leaders -----

  /** Every visited NIC has a leader. */
  lemma {:induction false} LeaderOf(h: Host, order: seq<string>, n: nat, prefix: string) returns (k: nat)
    requires WellFormed(h) && Known(h, order) && n <= |order| && prefix in Prefixes(h, order, n)
    ensures k < |Leaders(h, order, n)| && Prefix(Leaders(h, order, n)[k]) == prefix
  {
    if prefix in Prefixes(h, order, n - 1) {
      k := LeaderOf(h, order, n - 1, prefix);
    } else {
      k := |Leaders(h, order, n)| - 1;
    }
  }

  lemma LeaderFor(h: Host, order: seq<string>, pci: string) returns (k: nat)
    requires WellFormed(h) && Visits(h, order) && pci in h.specs
    ensures k < |Leaders(h, order, |order|)| && Prefix(Leaders(h, order, |order|)[k]) == Prefix(pci)
  {
    InPrefixes(h, order, |order|, Prefix(pci));
    k := LeaderOf(h, order, |order|, Prefix(pci));
  }

  /** A leader is the first port of its NIC that is visited. */
  lemma {:induction false} LeaderIsFirst(h: Host, order: seq<string>, n: nat, k: nat) returns (i: nat)
    requires WellFormed(h) && Known(h, order) && n <= |order| && k < |Leaders(h, order, n)|
    ensures i < n && order[i] == Leaders(h, order, n)[k]
    ensures forall j :: 0 <= j < i ==> Prefix(order[j]) != Prefix(order[i])
  {
    if Prefix(order[n - 1]) !in Prefixes(h, order, n - 1) && k == |Leaders(h, order, n)| - 1 {
      i := n - 1;
      forall j | 0 <= j < i ensures Prefix(order[j]) != Prefix(order[i]) {
        InPrefixes(h, order, n - 1, Prefix(order[j]));
      }
    } else {
      i := LeaderIsFirst(h, order, n - 1, k);
    }
  }

  lemma {:induction false} ResetsAreTheAsking(h: Host, leaders: seq<string>)
    requires WellFormed(h) && Known(h, leaders)
    ensures forall pci :: pci in Resets(h, leaders) <==> pci in leaders && Asks(h, pci)
  {
    if leaders != [] {
      var k := |leaders| - 1;
      ResetsAreTheAsking(h, leaders[..k]);
      assert leaders == leaders[..k] + [leaders[k]];
    }
  }

  /** An order of a set. */
  lemma {:induction false} Order(s: set<string>) returns (order: seq<string>)
    ensures forall i :: 0 <= i < |order| ==> order[i] in s
    ensures forall i, j :: 0 <= i < j < |order| ==> order[i] != order[j]
    ensures forall x :: x in s ==> x in order
  {
    if s == {} {
      order := [];
    } else {
      var x :| x in s;
      var rest := Order(s - {x});
      order := [x] + rest;
    }
  }

  /** Visiting the ports of one set before all others. */
  lemma OrderStartingWith(h: Host, first: set<string>) returns (order: seq<string>, m: nat)
    requires first <= h.specs.Keys
    ensures Visits(h, order) && m <= |order| && forall i :: 0 <= i < |order| ==> (order[i] in first <==> i < m)
  {
    var a := Order(first);
    var b := Order(h.specs.Keys - first);
    order, m := a + b, |a|;
    forall i, j | 0 <= i < j < |order| ensures order[i] != order[j] {
      assert j < m || m <= i || (order[i] in first && order[j] !in first);
    }
    forall pci | pci in h.specs ensures pci in order {
      assert pci in a || pci in b;
    }
  }

  /** If every NIC has a port in the set, visiting the set first evaluates ports of the set only. */
  lemma LeadersFromSet(h: Host, first: set<string>) returns (order: seq<string>)
    requires WellFormed(h) && first <= h.specs.Keys
    ensures Visits(h, order)
    ensures forall k :: 0 <= k < |Leaders(h, order, |order|)| ==>
      Leaders(h, order, |order|)[k] in first || forall p :: p in first ==> Prefix(p) != Prefix(Leaders(h, order, |order|)[k])
  {
    var m;
    order, m := OrderStartingWith(h, first);
    var leaders := Leaders(h, order, |order|);
    forall k | 0 <= k < |leaders| ensures leaders[k] in first || forall p :: p in first ==> Prefix(p) != Prefix(leaders[k]) {
      var i := LeaderIsFirst(h, order, |order|, k);
      if order[i] !in first {
        forall p | p in first ensures Prefix(p) != Prefix(leaders[k]) {
          var j :| 0 <= j < |order| && order[j] == p;
          assert j < i;
        }
      }
    }
  }

  predicate SameNic(h: Host, p: string, q: string)
    requires WellFormed(h)
  {
    p in h.specs && q in h.specs && Prefix(p) == Prefix(q)
  }

  predicate Represented(h: Host, some: set<string>, pci: string)
    requires WellFormed(h)
  {
    exists q :: q in some && SameNic(h, pci, q)
  }

  lemma LeadersAllFrom(h: Host, good: set<string>) returns (order: seq<string>)
    requires WellFormed(h) && good <= h.specs.Keys && forall pci :: pci in h.specs ==> Represented(h, good, pci)
    ensures Visits(h, order) && forall k :: 0 <= k < |Leaders(h, order, |order|)| ==> Leaders(h, order, |order|)[k] in good
  {
    order := LeadersFromSet(h, good);
    var leaders := Leaders(h, order, |order|);
    forall k | 0 <= k < |leaders| ensures leaders[k] in good {
      assert Represented(h, good, leaders[k]);
    }
  }

  // ----- failure -----

  /** No port of the NIC can be evaluated. */
  predicate NicFails(h: Host, pci: string)
    requires WellFormed(h) && pci in h.specs
  {
    forall q :: q in h.specs && SameNic(h, pci, q) ==> !Readable(h, q)
  }

  predicate PassFails(h: Host, order: seq<string>)
    requires WellFormed(h) && Known(h, order)
  {
    !AllReadable(h, Leaders(h, order, |order|))
  }

  lemma NicFailsAlways(h: Host, order: seq<string>, pci: string)
    requires WellFormed(h) && Visits(h, order) && pci in h.specs && NicFails(h, pci)
    ensures PassFails(h, order)
  {
    var k := LeaderFor(h, order, pci);
    assert SameNic(h, pci, Leaders(h, order, |order|)[k]);
    assert !Readable(h, Leaders(h, order, |order|)[k]);
  }

  /** The pass fails in some order exactly when some port cannot be evaluated. */
  lemma FailsInSomeOrder(h: Host)
    requires WellFormed(h)
    ensures (exists order :: Visits(h, order) && PassFails(h, order)) <==> exists pci :: pci in h.specs && !Readable(h, pci)
  {
    if pci :| pci in h.specs && !Readable(h, pci) {
      var order := LeadersFromSet(h, {pci});
      var k := LeaderFor(h, order, pci);
      assert pci in {pci};
      assert !Readable(h, Leaders(h, order, |order|)[k]);
      assert Visits(h, order) && PassFails(h, order);
    }
    if order :| Visits(h, order) && PassFails(h, order) {
      var k :| 0 <= k < |Leaders(h, order, |order|)| && !Readable(h, Leaders(h, order, |order|)[k]);
    }
  }

  function Good(h: Host): set<string>
    requires WellFormed(h)
  {
    set pci | pci in h.specs && Readable(h, pci)
  }

  lemma GoodPort(h: Host, pci: string)
    requires WellFormed(h) && pci in h.specs && !NicFails(h, pci)
    ensures Represented(h, Good(h), pci)
  {
    var q :| q in h.specs && SameNic(h, pci, q) && Readable(h, q);
    assert q in Good(h);
  }

  /** If every NIC has a port that can be evaluated, visiting those ports first succeeds. */
  lemma SomeOrderSucceeds(h: Host) returns (order: seq<string>)
    requires WellFormed(h) && forall pci :: pci in h.specs ==> Represented(h, Good(h), pci)
    ensures Visits(h, order) && !PassFails(h, order)
  {
    order := LeadersAllFrom(h, Good(h));
  }

  /** It fails in every order exactly when some NIC has no port that can be evaluated. */
  lemma FailsInEveryOrder(h: Host)
    requires WellFormed(h)
    ensures (forall order :: Visits(h, order) ==> PassFails(h, order)) <==> exists pci :: pci in h.specs && NicFails(h, pci)
  {
    if pci :| pci in h.specs && NicFails(h, pci) {
      forall order | Visits(h, order) ensures PassFails(h, order) { NicFailsAlways(h, order, pci); }
    } else {
      forall pci | pci in h.specs ensures Represented(h, Good(h), pci) { GoodPort(h, pci); }
      var order := SomeOrderSucceeds(h);
    }
  }

  // ----- resets -----

  predicate IsReset(h: Host, order: seq<string>, prefix: string)
    requires WellFormed(h) && Known(h, order)
  {
    exists pci :: pci in Resets(h, Leaders(h, order, |order|)) && Prefix(pci) == prefix
  }

  lemma ResetByLeader(h: Host, order: seq<string>, pci: string)
    requires WellFormed(h) && Visits(h, order) && pci in h.specs
    requires forall k :: 0 <= k < |Leaders(h, order, |order|)| && Prefix(Leaders(h, order, |order|)[k]) == Prefix(pci) ==>
      Leaders(h, order, |order|)[k] == pci
    ensures IsReset(h, order, Prefix(pci)) <==> Asks(h, pci)
  {
    var leaders := Leaders(h, order, |order|);
    ResetsAreTheAsking(h, leaders);
    var k := LeaderFor(h, order, pci);
    assert leaders[k] in leaders;
    if q :| q in Resets(h, leaders) && Prefix(q) == Prefix(pci) {
      var j :| 0 <= j < |leaders| && leaders[j] == q;
    }
  }

  lemma ResetIfFirst(h: Host, pci: string) returns (order: seq<string>)
    requires WellFormed(h) && pci in h.specs
    ensures Visits(h, order) && (IsReset(h, order, Prefix(pci)) <==> Asks(h, pci))
  {
    order := LeadersFromSet(h, {pci});
    assert pci in {pci};
    ResetByLeader(h, order, pci);
  }

  /** A NIC is reset in some order exactly when one of its ports asks for a reboot. */
  lemma ResetInSomeOrder(h: Host, prefix: string)
    requires WellFormed(h)
    ensures (exists order :: Visits(h, order) && IsReset(h, order, prefix)) <==>
      exists pci :: pci in h.specs && Prefix(pci) == prefix && Asks(h, pci)
  {
    if pci :| pci in h.specs && Prefix(pci) == prefix && Asks(h, pci) {
      var order := ResetIfFirst(h, pci);
    }
    if order :| Visits(h, order) && IsReset(h, order, prefix) {
      ResetsAreTheAsking(h, Leaders(h, order, |order|));
    }
  }

  /** It is reset in every order exactly when it has ports and all of them ask. */
  lemma ResetInEveryOrder(h: Host, prefix: string)
    requires WellFormed(h)
    ensures (forall order :: Visits(h, order) ==> IsReset(h, order, prefix)) <==>
      && (exists pci :: pci in h.specs && Prefix(pci) == prefix)
      && (forall pci :: pci in h.specs && Prefix(pci) == prefix ==> Asks(h, pci))
  {
    if pci :| pci in h.specs && Prefix(pci) == prefix {
      if q :| q in h.specs && Prefix(q) == prefix && !Asks(h, q) {
        var order := ResetIfFirst(h, q);
      } else {
        forall order | Visits(h, order) ensures IsReset(h, order, prefix) {
          var k := LeaderFor(h, order, pci);
          ResetsAreTheAsking(h, Leaders(h, order, |order|));
          assert Leaders(h, order, |order|)[k] in Leaders(h, order, |order|);
        }
      }
    } else {
      var order := Order(h.specs.Keys);
      ResetsAreTheAsking(h, Leaders(h, order, |order|));
      assert Visits(h, order) && !IsReset(h, order, prefix);
    }
  }

  // ----- the reboot flag -----

  predicate SomeAsks(h: Host)
    requires WellFormed(h)
  {
    exists pci :: pci in h.specs && Asks(h, pci)
  }

  predicate AllAsk(h: Host)
    requires WellFormed(h)
  {
    forall pci :: pci in h.specs ==> Asks(h, pci)
  }

  /** A NIC visited after all others has the last leader. */
  lemma {:induction false} LastNicLeads(h: Host, order: seq<string>, m: nat, n: nat, prefix: string)
    requires WellFormed(h) && Known(h, order) && m < n <= |order|
    requires forall i :: 0 <= i < n ==> (Prefix(order[i]) == prefix <==> m <= i)
    ensures Leaders(h, order, n) == Leaders(h, order, m) + [order[m]]
  {
    InPrefixes(h, order, n - 1, prefix);
    assert Prefix(order[n - 1]) == prefix;
    if m < n - 1 {
      assert Prefix(order[m]) == prefix;
      LastNicLeads(h, order, m, n - 1, prefix);
    } else {
      assert prefix !in Prefixes(h, order, n - 1);
    }
  }

  /** Some order evaluates a given port last of all. */
  lemma OrderEndingWith(h: Host, pci: string) returns (order: seq<string>)
    requires WellFormed(h) && pci in h.specs
    ensures Visits(h, order) && (LastAsks(h, Leaders(h, order, |order|)) <==> Asks(h, pci))
  {
    var mine := set p | p in h.specs && Prefix(p) == Prefix(pci);
    var a := Order(h.specs.Keys - mine);
    var b := Order(mine - {pci});
    order := a + [pci] + b;
    assert order[|a|] == pci;
    forall p | p in h.specs ensures p in order {
      assert p in a || p == pci || p in b;
    }
    LastNicLeads(h, order, |a|, |order|, Prefix(pci));
  }

  /** Two NICs that disagree about a reboot: some order hides it. */
  lemma FlagCanBeWrong(h: Host) returns (order: seq<string>)
    requires WellFormed(h) && !AllAsk(h)
    ensures Visits(h, order) && !LastAsks(h, Leaders(h, order, |order|))
  {
    var q :| q in h.specs && !Asks(h, q);
    order := OrderEndingWith(h, q);
  }

  lemma FlagIsRight(h: Host, order: seq<string>)
    requires WellFormed(h) && Visits(h, order) && (AllAsk(h) || !SomeAsks(h))
    ensures LastAsks(h, Leaders(h, order, |order|)) <==> SomeAsks(h)
  {
    if p :| p in h.specs && Asks(h, p) {
      var k := LeaderFor(h, order, p);
    }
  }

  const FOUR_VFS := MlxNic(true, 4, "ETH", "")
  const AS_IT_IS := Device(FOUR_VFS, FOUR_VFS)

  /** Two single-port NICs: one needs its VF count raised, the other is done. */
  function TwoNics(): Host {
    Host(map["a0" := PortSpec("a0", 8, false, ""), "b0" := PortSpec("b0", 4, false, "")],
         map["a" := map["a0" := "ETH"], "b" := map["b0" := "ETH"]], map["a" := AS_IT_IS, "b" := AS_IT_IS])
  }

  lemma TwoNicsWellFormed()
    ensures WellFormed(TwoNics()) && Prefix("a0") == "a" && Prefix("b0") == "b"
  {
    var h := TwoNics();
    assert Prefix("a0") == "a" && Prefix("b0") == "b";
    assert h.specs["a0"] == PortSpec("a0", 8, false, "") && h.specs["b0"] == PortSpec("b0", 4, false, "");
    assert "a" in h.ports && "b" in h.ports;
    forall pci | pci in h.specs ensures pci != "" && h.specs[pci].pci == pci && h.specs[pci].numVfs >= 0 && Prefix(pci) in h.ports {
      assert pci == "a0" || pci == "b0";
    }
  }

  lemma TwoNicsAnswers()
    ensures WellFormed(TwoNics())
    ensures Evaluate(TwoNics(), "a0") == Ok(Ask(NO_CHANGES.(totalVfs := 8), true, false))
    ensures Evaluate(TwoNics(), "b0") == Ok(Ask(NO_CHANGES, false, false))
  {
    TwoNicsWellFormed();
    LinksRightMeansNoLinkChange(TwoNics(), "a", AS_IT_IS, NO_CHANGES.(totalVfs := 8));
    LinksRightMeansNoLinkChange(TwoNics(), "b", AS_IT_IS, NO_CHANGES);
  }

  /** Two NICs of which only the first has something to change. */
  lemma SecondHidesFirst(h: Host, p: string, q: string, attrs: MlxNic)
    requires WellFormed(h) && p in h.specs && q in h.specs && Prefix(p) != Prefix(q)
    requires Evaluate(h, p) == Ok(Ask(attrs, true, false)) && Evaluate(h, q) == Ok(Ask(NO_CHANGES, false, false))
    ensures Gather(h, Leaders(h, [p, q], 2)) == Ok(Gathered([p], map[p := attrs], false))
  {
    var order := [p, q];
    assert Leaders(h, order, 0) == [] && Prefixes(h, order, 0) == {};
    assert Leaders(h, order, 1) == [] + [p] && Prefixes(h, order, 1) == {Prefix(p)};
    assert Leaders(h, order, 2) == [p] + [q];
    AddLeader(h, [], p);
    AddLeader(h, [p], q);
    assert [] + [p] == [p];
  }

  /** Visited in that order, the first NIC's reset is recorded and no reboot is reported. */
  lemma RebootCanBeMissed()
    ensures WellFormed(TwoNics()) && Visits(TwoNics(), ["a0", "b0"])
    ensures Gather(TwoNics(), Leaders(TwoNics(), ["a0", "b0"], 2)) ==
      Ok(Gathered(["a0"], map["a0" := NO_CHANGES.(totalVfs := 8)], false))
  {
    TwoNicsWellFormed();
    TwoNicsAnswers();
    TwoNicsVisited();
    SecondHidesFirst(TwoNics(), "a0", "b0", NO_CHANGES.(totalVfs := 8));
  }

  lemma TwoNicsVisited()
    ensures Visits(TwoNics(), ["a0", "b0"])
  {
    var order := ["a0", "b0"];
    assert TwoNics().specs.Keys == {"a0", "b0"};
    assert order[0] == "a0" && order[1] == "b0";
    assert "a0"[0] != "b0"[0];
  }
}
