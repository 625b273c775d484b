/** 64-bit InfiniBand GUIDs: packing to and from eight octets, and allocation to virtual functions. */
module Guid {
  import opened Base
  import Text

  const GUID_LENGTH := 8
  const TWO_64: nat := 0x1_0000_0000_0000_0000

  type Guid = g: nat | g < TWO_64
  type Octet = b: nat | b < 256

  // ----- the bit operations, on naturals -----

  function Pow2(n: nat): (r: nat)
    ensures r > 0
  { if n == 0 then 1 else 2 * Pow2(n - 1) }

  function Or(a: nat, b: nat): nat {
    if a == 0 then b else if b == 0 then a
    else 2 * Or(a / 2, b / 2) + if a % 2 == 1 || b % 2 == 1 then 1 else 0
  }

  function And(a: nat, b: nat): nat {
    if a == 0 || b == 0 then 0
    else 2 * And(a / 2, b / 2) + if a % 2 == 1 && b % 2 == 1 then 1 else 0
  }

  /** The left shift of a uint64 drops what moves past bit 63. */
  function ShiftLeft(a: nat, n: nat): Guid { a * Pow2(n) % TWO_64 }

  function ShiftRight(a: nat, n: nat): nat { if n == 0 then a else ShiftRight(a / 2, n - 1) }

  lemma OrStep(a: nat, b: nat)
    ensures Or(2 * a, b) == 2 * Or(a, b / 2) + b % 2
  {
  }

  lemma Twice(a: nat, k: nat)
    requires k > 0
    ensures a * Pow2(k) == 2 * (a * Pow2(k - 1))
  {
  }

  lemma {:induction false} OrOfDisjoint(a: nat, b: nat, k: nat)
    requires b < Pow2(k)
    ensures Or(a * Pow2(k), b) == a * Pow2(k) + b
  {
    if k > 0 {
      Twice(a, k);
      OrStep(a * Pow2(k - 1), b);
      OrOfDisjoint(a, b / 2, k - 1);
    }
  }

  lemma AndStep(a: nat, m: nat)
    ensures And(a, 2 * m + 1) == 2 * And(a / 2, m) + a % 2
  {
  }

  lemma ShiftStep(a: nat, n: nat)
    ensures ShiftRight(a, n + 1) == ShiftRight(a / 2, n)
  {
  }

  lemma Pair(a: nat, m: nat, n: nat)
    ensures And(a, 4 * m + 3) == 4 * And(a / 4, m) + a % 4 && ShiftRight(a, n + 2) == ShiftRight(a / 4, n)
  {
    AndStep(a, 2 * m + 1);
    AndStep(a / 2, m);
    ShiftStep(a, n + 1);
    ShiftStep(a / 2, n);
    assert a / 2 / 2 == a / 4;
  }

  lemma Nibble(a: nat, m: nat, n: nat)
    ensures And(a, 16 * m + 15) == 16 * And(a / 16, m) + a % 16 && ShiftRight(a, n + 4) == ShiftRight(a / 16, n)
  {
    Pair(a, 4 * m + 3, n + 2);
    Pair(a / 4, m, n);
    TwoPairs(a);
  }

  lemma TwoPairs(a: nat)
    ensures a / 4 / 4 == a / 16 && 4 * (a / 4 % 4) + a % 4 == a % 16
  {
  }

  /** Masking and shifting one byte off are the remainder and the quotient by 256. */
  lemma LowByte(a: nat)
    ensures And(a, 0xff) == a % 256 && ShiftRight(a, 8) == a / 256
  {
    Nibble(a, 15, 4);
    Nibble(a / 16, 0, 0);
    assert And(a / 16 / 16, 0) == 0 && ShiftRight(a / 16 / 16, 0) == a / 16 / 16;
    TwoNibbles(a);
  }

  lemma TwoNibbles(a: nat)
    ensures a / 16 / 16 == a / 256 && 16 * (a / 16 % 16) + a % 16 == a % 256
  {
  }

  // ----- octets -----

  /** The big-endian number the octets write. */
  function Value(ha: seq<Octet>): nat {
    if ha == [] then 0 else Value(ha[..|ha| - 1]) * 256 + ha[|ha| - 1]
  }

  /** The last n octets of v, most significant first. */
  function Octets(v: nat, n: nat): (r: seq<Octet>)
    ensures |r| == n
  {
    if n == 0 then [] else Octets(v / 256, n - 1) + [v % 256]
  }

  lemma {:induction false} ValueBound(ha: seq<Octet>)
    ensures Value(ha) < Pow2(8 * |ha|)
  {
    if ha != [] {
      ValueBound(ha[..|ha| - 1]);
      Pow2Eight(|ha|);
    }
  }

  lemma Pow2Two(k: nat)
    ensures Pow2(k + 2) == 4 * Pow2(k)
  {
    assert Pow2(k + 2) == 2 * Pow2(k + 1);
  }

  lemma Pow2Four(k: nat)
    ensures Pow2(k + 4) == 16 * Pow2(k)
  {
    Pow2Two(k);
    Pow2Two(k + 2);
  }

  lemma Pow2Eight(n: nat)
    requires n > 0
    ensures Pow2(8 * n) == 256 * Pow2(8 * (n - 1))
  {
    Pow2Byte(8 * (n - 1));
    assert 8 * (n - 1) + 8 == 8 * n;
  }

  lemma Pow2Byte(k: nat)
    ensures Pow2(k + 8) == 256 * Pow2(k)
  {
    Pow2Four(k);
    Pow2Four(k + 4);
  }

  lemma {:induction false} ValueOfOctets(v: nat, n: nat)
    requires v < Pow2(8 * n)
    ensures Value(Octets(v, n)) == v
  {
    if n > 0 {
      Pow2Eight(n);
      ValueOfOctets(v / 256, n - 1);
      assert Octets(v, n)[..n - 1] == Octets(v / 256, n - 1);
    }
  }

  lemma {:induction false} OctetsOfValue(ha: seq<Octet>)
    ensures Octets(Value(ha), |ha|) == ha
  {
    if ha != [] {
      var init := ha[..|ha| - 1];
      OctetsOfValue(init);
      assert Value(ha) / 256 == Value(init) && Value(ha) % 256 == ha[|ha| - 1];
      assert ha == init + [ha[|ha| - 1]];
    }
  }

  lemma Width()
    ensures Pow2(8 * GUID_LENGTH) == TWO_64 && Pow2(8) == 256
  {
    assert Pow2(0) == 1;
    Pow2Eight(1);
    Pow2Eight(2);
    Pow2Eight(3);
    Pow2Eight(4);
    Pow2Eight(5);
    Pow2Eight(6);
    Pow2Eight(7);
    Pow2Eight(8);
  }

  /** ParseGUID after the text has been split into octets: Error unless there are eight. */
  method Parse(ha: seq<Octet>) returns (r: Outcome<Guid>)
    ensures r.Ok? <==> |ha| == GUID_LENGTH
    ensures r.Ok? ==> r.value == Value(ha)
    ensures !r.Ok? ==> r == Error
  {
    if |ha| != GUID_LENGTH {
      return Error;
    }
    var guid: nat := 0;
    Width();
    for i := 0 to |ha|
      invariant guid == Value(ha[..i]) * Pow2(8 * (GUID_LENGTH - i))
    {
      var k := 8 * (GUID_LENGTH - 1 - i);
      PackStep(ha, i);
      guid := Or(guid, ShiftLeft(ha[i], k));
    }
    assert ha[..|ha|] == ha;
    ValueBound(ha);
    return Ok(guid);
  }

  lemma PackStep(ha: seq<Octet>, i: nat)
    requires |ha| == GUID_LENGTH && i < GUID_LENGTH
    ensures var k := 8 * (GUID_LENGTH - 1 - i);
      Or(Value(ha[..i]) * Pow2(k + 8), ShiftLeft(ha[i], k)) == Value(ha[..i + 1]) * Pow2(k)
  {
    assert ha[..i + 1][..i] == ha[..i];
    OrShifted(Value(ha[..i]), ha[i], GUID_LENGTH - 1 - i);
  }

  lemma OrShifted(v: nat, b: Octet, n: nat)
    requires n < GUID_LENGTH
    ensures Or(v * Pow2(8 * n + 8), ShiftLeft(b, 8 * n)) == (v * 256 + b) * Pow2(8 * n)
  {
    Pow2Eight(n + 1);
    ShiftIsExact(b, n);
    OrOfDisjoint(v, b * Pow2(8 * n), 8 * n + 8);
    Distribute(v, b, Pow2(8 * n));
  }

  lemma ShiftIsExact(b: Octet, n: nat)
    requires n < GUID_LENGTH
    ensures ShiftLeft(b, 8 * n) == b * Pow2(8 * n) < Pow2(8 * n + 8)
  {
    var shifted := b * Pow2(8 * n);
    assert shifted < Pow2(8 * n + 8) by {
      Pow2Eight(n + 1);
      Smaller(b, Pow2(8 * n));
    }
    assert Pow2(8 * n + 8) <= TWO_64 by {
      Width();
      Pow2Monotone(8 * n + 8, 8 * GUID_LENGTH);
    }
    NoWrap(shifted);
  }

  lemma NoWrap(x: nat)
    requires x < TWO_64
    ensures x % TWO_64 == x
  {
  }

  lemma Smaller(b: Octet, p: nat)
    requires 0 < p
    ensures b * p < 256 * p
  {
  }

  lemma Distribute(v: nat, b: nat, p: nat)
    ensures v * (256 * p) + b * p == (v * 256 + b) * p
  {
  }

  lemma {:induction false} Pow2Monotone(a: nat, b: nat)
    requires a <= b
    ensures Pow2(a) <= Pow2(b)
    decreases b - a
  {
    if a < b { Pow2Monotone(a + 1, b); }
  }

  /** GUID.HardwareAddr: fill eight octets from the last one backwards. */
  method HardwareAddr(g: Guid) returns (addr: seq<Octet>)
    ensures addr == Octets(g, GUID_LENGTH)
    ensures |addr| == GUID_LENGTH && Value(addr) == g
  {
    var value: nat := g;
    var ha := new Octet[GUID_LENGTH](_ => 0);
    Width();
    var idx := GUID_LENGTH - 1;
    while idx >= 0
      invariant -1 <= idx < GUID_LENGTH
      invariant Octets(g, GUID_LENGTH) == Octets(value, idx + 1) + ha[idx + 1..]
    {
      LowByte(value);
      assert Octets(value, idx + 1) == Octets(value / 256, idx) + [value % 256];
      ha[idx] := And(value, 0xff);
      value := ShiftRight(value, 8);
      idx := idx - 1;
    }
    ValueOfOctets(g, GUID_LENGTH);
    return ha[..];
  }

  /** What HardwareAddr writes, Parse reads back, and the other way round. */
  lemma RoundTrip(g: Guid, ha: seq<Octet>)
    requires |ha| == GUID_LENGTH
    ensures Value(Octets(g, GUID_LENGTH)) == g
    ensures Value(ha) < TWO_64 && Octets(Value(ha), GUID_LENGTH) == ha
  {
    Width();
    ValueOfOctets(g, GUID_LENGTH);
    ValueBound(ha);
    OctetsOfValue(ha);
  }

  // ----- allocation -----

  datatype Range = Range(start: Guid, end: Guid)
  datatype Config = Config(guids: seq<Guid>, range: Option<Range>)

  /** getIbGUIDConfig refuses a range that ends before it starts. */
  predicate Loaded(pool: map<string, Config>) {
    forall pci | pci in pool :: pool[pci].range.Some? ==> pool[pci].range.value.start <= pool[pci].range.value.end
  }

  function Next(start: Guid, vf: nat): Guid { (start + vf) % TWO_64 }

  lemma NextCases(start: Guid, vf: nat)
    requires vf <= Text.MAX_INT
    ensures Next(start, vf) == if start + vf < TWO_64 then start + vf else start + vf - TWO_64
  {
  }

  /** GetVFGUID; the sum is taken on 64 bits. */
  function GetVfGuid(pool: map<string, Config>, pci: string, vf: nat): Outcome<seq<Octet>> {
    if pci !in pool then Error
    else if pool[pci].guids != [] then
      if vf >= |pool[pci].guids| then Error else Ok(Octets(pool[pci].guids[vf], GUID_LENGTH))
    else match pool[pci].range
         case None => Error
         case Some(r) =>
           var next := Next(r.start, vf);
           if next > r.end then Error else Ok(Octets(next, GUID_LENGTH))
  }

  /** A VF the range has room for. */
  predicate Fits(r: Range, vf: nat) { vf <= r.end - r.start }

  predicate AllocatesWithin(pool: map<string, Config>, pci: string, vf: nat, r: Range) {
    var got := GetVfGuid(pool, pci, vf);
    got.Ok? ==> r.start <= Value(got.value) <= r.end
  }

  /**
   * What a range hands out: start + vf when it fits; nothing when it does not,
   * unless the sum passes 2^64, when a GUID below the range is handed out.
   */
  lemma RangeAllocation(pool: map<string, Config>, pci: string, vf: nat)
    requires Loaded(pool) && vf <= Text.MAX_INT
    requires pci in pool && pool[pci].guids == [] && pool[pci].range.Some?
    ensures var r := pool[pci].range.value; var got := GetVfGuid(pool, pci, vf);
      && (Fits(r, vf) ==> got.Ok? && |got.value| == GUID_LENGTH && Value(got.value) == r.start + vf <= r.end)
      && (AllocatesWithin(pool, pci, vf, r) <==> r.start + vf < TWO_64)
      && (got.Ok? && r.start + vf < TWO_64 ==> Fits(r, vf))
  {
    var r := pool[pci].range.value;
    Width();
    NextCases(r.start, vf);
    ValueOfOctets(Next(r.start, vf), GUID_LENGTH);
  }

  /** A list hands out its entries by VF index, whatever the range says; a PF without list, range or pool gets nothing. */
  lemma ListAllocation(pool: map<string, Config>, pci: string, vf: nat)
    ensures pci !in pool || (pool[pci].guids == [] && pool[pci].range.None?) ==> GetVfGuid(pool, pci, vf) == Error
    ensures pci in pool && pool[pci].guids != [] ==>
      var got := GetVfGuid(pool, pci, vf);
      && (got.Ok? <==> vf < |pool[pci].guids|)
      && (got.Ok? ==> |got.value| == GUID_LENGTH && Value(got.value) == pool[pci].guids[vf])
  {
    Width();
    if pci in pool && vf < |pool[pci].guids| { ValueOfOctets(pool[pci].guids[vf], GUID_LENGTH); }
  }

  /** A one-GUID range at the very top gives its second VF the all-zero GUID. */
  lemma WrapsBelowTheRange(pci: string)
    ensures var top := TWO_64 - 1; var pool := map[pci := Config([], Some(Range(top, top)))];
      Loaded(pool) && GetVfGuid(pool, pci, 1).Ok? && Value(GetVfGuid(pool, pci, 1).value) == 0
  {
    Width();
    ValueOfOctets(0, GUID_LENGTH);
  }

  /** Two VFs of one PF get the same GUID exactly when the configured list repeats it. */
  lemma AllocationsAreDistinct(pool: map<string, Config>, pci: string, v: nat, w: nat)
    requires v != w && v <= Text.MAX_INT && w <= Text.MAX_INT
    requires GetVfGuid(pool, pci, v).Ok? && GetVfGuid(pool, pci, w).Ok?
    ensures GetVfGuid(pool, pci, v) == GetVfGuid(pool, pci, w) <==>
            pool[pci].guids != [] && pool[pci].guids[v] == pool[pci].guids[w]
  {
    Width();
    if pool[pci].guids == [] {
      var r := pool[pci].range.value;
      NextCases(r.start, v);
      NextCases(r.start, w);
      ValueOfOctets(Next(r.start, v), GUID_LENGTH);
      ValueOfOctets(Next(r.start, w), GUID_LENGTH);
    } else {
      ValueOfOctets(pool[pci].guids[v], GUID_LENGTH);
      ValueOfOctets(pool[pci].guids[w], GUID_LENGTH);
    }
  }
}
