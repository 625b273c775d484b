/** The parts of Go's strconv and strings packages that the operator's range texts go through. */
module Text {
  import opened Base

  const MAX_INT := 0x7fff_ffff_ffff_ffff

  predicate IsDigit(c: char) { '0' <= c <= '9' }

  predicate AllDigits(s: string) { forall i :: 0 <= i < |s| ==> IsDigit(s[i]) }

  function DigitsValue(s: string): nat
    requires AllDigits(s)
  {
    if s == [] then 0 else 10 * DigitsValue(s[..|s| - 1]) + (s[|s| - 1] as int - '0' as int)
  }

  /** strconv.Atoi: an optional sign, at least one digit, and a value that fits a 64-bit int. */
  function Atoi(s: string): Option<int> {
    var negative := |s| > 0 && s[0] == '-';
    var body := if |s| > 0 && (s[0] == '-' || s[0] == '+') then s[1..] else s;
    if body == [] || !AllDigits(body) then None
    else
      var v: int := if negative then -(DigitsValue(body) as int) else DigitsValue(body);
      if -MAX_INT - 1 <= v <= MAX_INT then Some(v) else None
  }

  /** strconv.Itoa on the non-negative indices the operator prints. */
  function Itoa(n: nat): (s: string)
    ensures s != [] && AllDigits(s) && DigitsValue(s) == n
  {
    var last := ['0' + (n % 10) as char];
    if n < 10 then assert last[..0] == []; last
    else
      var s := Itoa(n / 10) + last;
      assert s[..|s| - 1] == Itoa(n / 10);
      s
  }

  /** Printing an index and reading it back gives the index. */
  lemma AtoiOfItoa(n: nat)
    requires n <= MAX_INT
    ensures Atoi(Itoa(n)) == Some(n)
  {
    var s := Itoa(n);
    assert IsDigit(s[0]);
  }

  /** A number that does not fit 64 bits is refused, and so is text with a character that is no digit after the sign. */
  lemma AtoiRefuses(n: nat, s: string, i: nat)
    ensures n > MAX_INT ==> Atoi(Itoa(n)) == None
    ensures 0 < i < |s| && !IsDigit(s[i]) ==> Atoi(s) == None
  {
    assert IsDigit(Itoa(n)[0]);
    if 0 < i < |s| && !IsDigit(s[i]) {
      var body := if s[0] == '-' || s[0] == '+' then s[1..] else s;
      assert body[if s[0] == '-' || s[0] == '+' then i - 1 else i] == s[i];
    }
  }

  /** strings.Split with a one-character separator. */
  function Split(s: string, sep: char): (parts: seq<string>)
    ensures |parts| >= 1
    ensures forall p :: p in parts ==> sep !in p
    ensures |parts| == 1 <==> sep !in s
  {
    if sep !in s then [s]
    else
      var i := IndexOf(s, sep);
      [s[..i]] + Split(s[i + 1..], sep)
  }

  function IndexOf(s: string, c: char): (i: nat)
    requires c in s
    ensures i < |s| && s[i] == c && c !in s[..i]
  {
    if s[0] == c then 0 else 1 + IndexOf(s[1..], c)
  }

  lemma SplitPair(a: string, sep: char, b: string)
    requires sep !in a && sep !in b
    ensures Split(a + [sep] + b, sep) == [a, b]
  {
    var s := a + [sep] + b;
    assert s[|a|] == sep;
    var i := IndexOf(s, sep);
    assert i == |a|;
    assert s[..i] == a && s[i + 1..] == b;
  }

  /** Go's string order, `a < b`. */
  predicate Less(a: string, b: string) {
    if b == [] then false
    else if a == [] then true
    else a[0] < b[0] || (a[0] == b[0] && Less(a[1..], b[1..]))
  }

  lemma {:induction false} LessIrreflexive(a: string)
    ensures !Less(a, a)
  {
    if a != [] { LessIrreflexive(a[1..]); }
  }

  lemma LessTotal(a: string, b: string)
    ensures a == b || Less(a, b) || Less(b, a)
  {
    if a != [] && b != [] && a[0] == b[0] {
      LessTotal(a[1..], b[1..]);
      assert a == [a[0]] + a[1..] && b == [b[0]] + b[1..];
    }
  }

  lemma LessTransitive(a: string, b: string, c: string)
    requires Less(a, b) && Less(b, c)
    ensures Less(a, c)
  {
    if a != [] && a[0] == b[0] && b[0] == c[0] {
      LessTransitive(a[1..], b[1..], c[1..]);
    }
  }

  function LowerCase(c: char): char { if 'A' <= c <= 'Z' then c - 'A' + 'a' else c }

  /** strings.EqualFold against a word without the letters K and S, the only ones with a non-ASCII variant. */
  predicate EqualFold(a: string, b: string) {
    |a| == |b| && forall i :: 0 <= i < |a| ==> LowerCase(a[i]) == LowerCase(b[i])
  }
}
