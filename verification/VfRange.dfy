/** VF index ranges: the texts policies carry, the texts VF groups carry, and what the webhook admits. */
module VfRange {
  import opened Base
  import opened Text

  datatype Span = Span(first: int, last: int)

  const NO_RANGE := Span(-1, -1)

  predicate Contains(s: Span, i: int) { s.first <= i <= s.last }

  /** parseRange: it indexes the second part without looking how many there are. */
  function ParseRange(r: string): Outcome<Span> {
    var parts := Split(r, '-');
    match Atoi(parts[0])
    case None => Error
    case Some(first) =>
      if |parts| < 2 then Panic
      else match Atoi(parts[1])
           case None => Error
           case Some(last) => Ok(Span(first, last))
  }

  function PrintRange(s: Span): string
    requires 0 <= s.first && 0 <= s.last
  {
    Itoa(s.first) + "-" + Itoa(s.last)
  }

  /** Round trip: a printed range reads back as the same pair. */
  lemma ParsePrinted(s: Span)
    requires 0 <= s.first <= MAX_INT && 0 <= s.last <= MAX_INT
    ensures ParseRange(PrintRange(s)) == Ok(s)
  {
    var a, b := Itoa(s.first), Itoa(s.last);
    assert '-' !in a && '-' !in b;
    SplitPair(a, '-', b);
    assert PrintRange(s) == a + ['-'] + b;
    AtoiOfItoa(s.first);
    AtoiOfItoa(s.last);
  }

  /** IndexInRange; an unreadable range contains nothing. */
  function IndexInRange(i: int, r: string): Outcome<bool> {
    match ParseRange(r)
    case Ok(s) => Ok(s.first <= i && i <= s.last)
    case Error => Ok(false)
    case Panic => Panic
  }

  /** VfGroup.isVFRangeOverlapping. */
  function IsOverlapping(mine: string, other: string): Outcome<bool> {
    match ParseRange(mine)
    case Panic => Panic
    case Error => Ok(false)
    case Ok(a) =>
      match ParseRange(other)
      case Panic => Panic
      case Error => Ok(false)
      case Ok(b) =>
        if a.first < b.first then Either(IndexInRange(b.first, mine), IndexInRange(b.last, mine))
        else Either(IndexInRange(a.first, other), IndexInRange(a.last, other))
  }

  function Either(a: Outcome<bool>, b: Outcome<bool>): Outcome<bool> {
    if a.Ok? && a.value then a else if a.Ok? then b else a
  }

  /** On readable, non-empty ranges the test is exactly "some VF index lies in both". */
  lemma OverlappingMeansSharedIndex(mine: string, other: string, a: Span, b: Span)
    requires ParseRange(mine) == Ok(a) && ParseRange(other) == Ok(b)
    requires a.first <= a.last && b.first <= b.last
    ensures IsOverlapping(mine, other).Ok?
    ensures IsOverlapping(mine, other).value <==> exists i :: Contains(a, i) && Contains(b, i)
  {
    if a.first < b.first {
      if Contains(a, b.first) { assert Contains(b, b.first); }
    } else {
      if Contains(b, a.first) { assert Contains(a, a.first); }
    }
  }

  /** SplitDeviceFromRange. */
  function SplitDeviceFromRange(device: string): (string, string) {
    var fields := Split(device, '#');
    if |fields| > 1 then (fields[0], fields[1]) else (device, "")
  }

  /** ParseVfRange: a PF name and the range behind '#', if any. */
  function ParseVfRange(device: string): Outcome<(string, Span)> {
    var (name, range) := SplitDeviceFromRange(device);
    if range == "" then Ok((device, NO_RANGE))
    else match ParseRange(range)
         case Ok(s) => Ok((name, s))
         case Error => Error
         case Panic => Panic
  }

  /** The webhook's check of one pfNames entry against the policy's numVfs. */
  predicate AdmitsPfName(pf: string, numVfs: int) {
    var fields := Split(pf, '#');
    if |fields| == 1 then true
    else
      && |fields| == 2
      && var rng := Split(fields[1], '-');
         && |rng| == 2
         && Atoi(rng[0]).Some? && Atoi(rng[1]).Some?
         && Atoi(rng[0]).value <= Atoi(rng[1]).value < numVfs
  }

  predicate AdmitsPfNames(pfNames: seq<string>, numVfs: int) {
    forall i :: 0 <= i < |pfNames| ==> AdmitsPfName(pfNames[i], numVfs)
  }

  lemma NoMinusIsNatural(s: string)
    requires '-' !in s && Atoi(s).Some?
    ensures 0 <= Atoi(s).value <= MAX_INT
  {
  }

  /** An admitted entry parses, and its range, if it has one, lies inside [0, numVfs). */
  lemma AdmittedEntryParses(pf: string, numVfs: int)
    requires AdmitsPfName(pf, numVfs)
    ensures ParseVfRange(pf).Ok?
    ensures var (_, s) := ParseVfRange(pf).value; s == NO_RANGE || 0 <= s.first <= s.last < numVfs
  {
    var fields := Split(pf, '#');
    if |fields| == 2 {
      var rng := Split(fields[1], '-');
      assert fields[1] != "";
      assert rng[0] in rng && rng[1] in rng;
      NoMinusIsNatural(rng[0]);
      NoMinusIsNatural(rng[1]);
    }
  }

  /** The range generatePfNameVfGroup gives a PF: that of the first entry naming it, or every VF. */
  function RangeFor(pfNames: seq<string>, numVfs: int, ifaceName: string): Outcome<Span> {
    if pfNames == [] then Ok(Span(0, numVfs - 1))
    else match ParseVfRange(pfNames[0])
         case Ok((name, s)) =>
           if name != ifaceName then RangeFor(pfNames[1..], numVfs, ifaceName)
           else Ok(if s == NO_RANGE then Span(0, numVfs - 1) else s)
         case Error => Error
         case Panic => Panic
  }

  /** The entry can be read and names another PF. */
  predicate NamesOther(entry: string, ifaceName: string) {
    ParseVfRange(entry).Ok? && ParseVfRange(entry).value.0 != ifaceName
  }

  /** The first entry that names the PF, or cannot be read, decides. */
  lemma {:induction false} FirstEntryDecides(pfNames: seq<string>, numVfs: int, ifaceName: string, k: nat)
    requires k < |pfNames| && (forall j :: 0 <= j < k ==> NamesOther(pfNames[j], ifaceName)) && !NamesOther(pfNames[k], ifaceName)
    ensures match ParseVfRange(pfNames[k])
      case Ok((_, s)) => RangeFor(pfNames, numVfs, ifaceName) == Ok(if s == NO_RANGE then Span(0, numVfs - 1) else s)
      case Error => RangeFor(pfNames, numVfs, ifaceName) == Error
      case Panic => RangeFor(pfNames, numVfs, ifaceName) == Panic
  {
    if k > 0 {
      assert NamesOther(pfNames[0], ifaceName);
      forall j | 0 <= j < k - 1 ensures NamesOther(pfNames[1..][j], ifaceName) { assert pfNames[1..][j] == pfNames[j + 1]; }
      FirstEntryDecides(pfNames[1..], numVfs, ifaceName, k - 1);
    }
  }

  /** A PF that no entry names gets every VF. */
  lemma {:induction false} NoEntryMeansAll(pfNames: seq<string>, numVfs: int, ifaceName: string)
    requires forall j :: 0 <= j < |pfNames| ==> NamesOther(pfNames[j], ifaceName)
    ensures RangeFor(pfNames, numVfs, ifaceName) == Ok(Span(0, numVfs - 1))
  {
    if pfNames != [] {
      assert NamesOther(pfNames[0], ifaceName);
      forall j | 0 <= j < |pfNames| - 1 ensures NamesOther(pfNames[1..][j], ifaceName) { assert pfNames[1..][j] == pfNames[j + 1]; }
      NoEntryMeansAll(pfNames[1..], numVfs, ifaceName);
    }
  }

  lemma PrintedHasNoHash(s: Span)
    requires 0 <= s.first && 0 <= s.last
    ensures '#' !in PrintRange(s) && PrintRange(s) != ""
  {
    assert '#' !in Itoa(s.first) && '#' !in Itoa(s.last);
  }

  /** How the text of an entry is read: a name alone, or a name and a range behind '#'. */
  lemma EntryText(name: string, s: Span)
    requires '#' !in name && 0 <= s.first <= MAX_INT && 0 <= s.last <= MAX_INT
    ensures ParseVfRange(name) == Ok((name, NO_RANGE))
    ensures ParseVfRange(name + "#" + PrintRange(s)) == Ok((name, s))
  {
    PrintedHasNoHash(s);
    SplitPair(name, '#', PrintRange(s));
    assert name + "#" + PrintRange(s) == name + ['#'] + PrintRange(s);
    ParsePrinted(s);
  }

  /** What the webhook admits: any name alone, and a name with a range exactly when the range is not empty and fits. */
  lemma AdmitsExactly(name: string, s: Span, numVfs: int)
    requires '#' !in name && 0 <= s.first <= MAX_INT && 0 <= s.last <= MAX_INT
    ensures AdmitsPfName(name, numVfs)
    ensures AdmitsPfName(name + "#" + PrintRange(s), numVfs) <==> s.first <= s.last < numVfs
  {
    PrintedHasNoHash(s);
    var a, b := Itoa(s.first), Itoa(s.last);
    SplitPair(name, '#', PrintRange(s));
    assert name + "#" + PrintRange(s) == name + ['#'] + PrintRange(s);
    assert '-' !in a && '-' !in b;
    SplitPair(a, '-', b);
    assert PrintRange(s) == a + ['-'] + b;
    AtoiOfItoa(s.first);
    AtoiOfItoa(s.last);
  }

  /** The loop of generatePfNameVfGroup. */
  method FindRange(pfNames: seq<string>, numVfs: int, ifaceName: string) returns (r: Outcome<Span>)
    ensures r == RangeFor(pfNames, numVfs, ifaceName)
  {
    for k := 0 to |pfNames|
      invariant RangeFor(pfNames, numVfs, ifaceName) == RangeFor(pfNames[k..], numVfs, ifaceName)
    {
      assert pfNames[k..][1..] == pfNames[k + 1..];
      var parsed := ParseVfRange(pfNames[k]);
      match parsed {
        case Error => return Error;
        case Panic => return Panic;
        case Ok((name, span)) =>
          if name == ifaceName {
            if span.first == -1 && span.last == -1 {
              return Ok(Span(0, numVfs - 1));
            }
            return Ok(span);
          }
      }
    }
    return Ok(Span(0, numVfs - 1));
  }

  /** Admission is enough: the group's range is computed without error and lies inside [0, numVfs). */
  lemma {:induction false} AdmittedRangeInBounds(pfNames: seq<string>, numVfs: int, ifaceName: string)
    requires AdmitsPfNames(pfNames, numVfs) && 0 < numVfs
    ensures RangeFor(pfNames, numVfs, ifaceName).Ok?
    ensures var s := RangeFor(pfNames, numVfs, ifaceName).value; 0 <= s.first <= s.last < numVfs
  {
    if pfNames != [] {
      AdmittedEntryParses(pfNames[0], numVfs);
      AdmittedRangeInBounds(pfNames[1..], numVfs, ifaceName);
    }
  }
}
