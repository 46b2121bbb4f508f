/** Strict semantic versions: printing and parsing undo each other in both directions. */
module SemVer {
  import opened Wrappers

  datatype SchemaVersion = SchemaVersion(major: nat, minor: nat, patch: nat)

  datatype VersionError = InvalidVersion

  // ----- Numerals -----

  predicate IsDigit(c: char) { '0' <= c <= '9' }

  function DigitValue(c: char): nat
    requires IsDigit(c)
  {
    c as int - '0' as int
  }

  function DigitOf(d: nat): (c: char)
    requires d < 10
    ensures IsDigit(c) && DigitValue(c) == d
  {
    (d + '0' as int) as char
  }

  predicate AllDigits(s: string) { forall i | 0 <= i < |s| :: IsDigit(s[i]) }

  /** Digits without a superfluous leading zero. */
  predicate IsNumeral(s: string) {
    s != [] && AllDigits(s) && (s[0] == '0' ==> |s| == 1)
  }

  function Decimal(n: nat): (s: string)
    ensures IsNumeral(s)
    ensures n > 0 ==> s[0] != '0'
  {
    if n < 10 then [DigitOf(n)] else Decimal(n / 10) + [DigitOf(n % 10)]
  }

  function ValueOf(s: string): nat
    requires AllDigits(s)
  {
    if s == [] then 0 else 10 * ValueOf(s[..|s| - 1]) + DigitValue(s[|s| - 1])
  }

  lemma {:induction false} ValueOfDecimal(n: nat)
    ensures ValueOf(Decimal(n)) == n
  {
    if n >= 10 {
      ValueOfDecimal(n / 10);
      var s := Decimal(n);
      assert s[..|s| - 1] == Decimal(n / 10);
    } else {
      assert Decimal(n)[..0] == [];
    }
  }

  lemma {:induction false} LeadingDigitPositive(s: string)
    requires IsNumeral(s) && s[0] != '0'
    ensures ValueOf(s) > 0
  {
    if |s| > 1 { LeadingDigitPositive(s[..|s| - 1]); } else { assert s[..0] == []; }
  }

  lemma {:induction false} DecimalOfValue(s: string)
    requires IsNumeral(s)
    ensures Decimal(ValueOf(s)) == s
  {
    var front, last := s[..|s| - 1], s[|s| - 1];
    assert s == front + [last];
    assert DigitOf(DigitValue(last)) == last;
    if front != [] {
      LeadingDigitPositive(front);
      DecimalOfValue(front);
      assert ValueOf(s) / 10 == ValueOf(front) && ValueOf(s) % 10 == DigitValue(last);
    }
  }

  // ----- Versions -----

  function Print(v: SchemaVersion): string {
    Decimal(v.major) + "." + Decimal(v.minor) + "." + Decimal(v.patch)
  }

  /** The position of the first dot, or the length. */
  function FirstDot(s: string): (i: nat)
    ensures i <= |s| && (i < |s| ==> s[i] == '.')
    ensures forall k | 0 <= k < i :: s[k] != '.'
  {
    if s == [] || s[0] == '.' then 0 else 1 + FirstDot(s[1..])
  }

  function Parse(s: string): Result<SchemaVersion, VersionError> {
    var i := FirstDot(s);
    if i == |s| then Err(InvalidVersion)
    else
      var rest := s[i + 1..];
      var j := FirstDot(rest);
      if j == |rest| then Err(InvalidVersion)
      else
        var a, b, c := s[..i], rest[..j], rest[j + 1..];
        if IsNumeral(a) && IsNumeral(b) && IsNumeral(c)
        then Ok(SchemaVersion(ValueOf(a), ValueOf(b), ValueOf(c)))
        else Err(InvalidVersion)
  }

  lemma FirstDotAfterDigits(a: string, t: string)
    requires AllDigits(a)
    ensures FirstDot(a + "." + t) == |a|
  {
    var s := a + "." + t;
    assert s[|a|] == '.';
    assert forall k | 0 <= k < |a| :: s[k] == a[k] && IsDigit(a[k]);
  }

  /** Three dotted numerals parse to their values. */
  lemma ParseDotted(a: string, b: string, c: string)
    requires IsNumeral(a) && IsNumeral(b) && IsNumeral(c)
    ensures Parse(a + "." + b + "." + c) == Ok(SchemaVersion(ValueOf(a), ValueOf(b), ValueOf(c)))
  {
    var rest := b + "." + c;
    JoinDots(a, b, c);
    var s := a + "." + rest;
    FirstDotAfterDigits(a, rest);
    AroundDot(a, rest);
    FirstDotAfterDigits(b, c);
    AroundDot(b, c);
    hide FirstDot;
    hide ValueOf;
    hide IsNumeral;
    assert Parse(s) == Ok(SchemaVersion(ValueOf(a), ValueOf(b), ValueOf(c)));
  }

  lemma AroundDot(a: string, t: string)
    ensures var s := a + "." + t;
            |a| < |s| && s[..|a|] == a && s[|a| + 1..] == t
  {
  }

  /** Parsing a printed version gives it back. */
  lemma PrintThenParse(v: SchemaVersion)
    ensures Parse(Print(v)) == Ok(v)
  {
    ParseDotted(Decimal(v.major), Decimal(v.minor), Decimal(v.patch));
    ValueOfDecimal(v.major);
    ValueOfDecimal(v.minor);
    ValueOfDecimal(v.patch);
  }

  lemma SplitAtDot(s: string, i: nat)
    requires i < |s| && s[i] == '.'
    ensures s == s[..i] + "." + s[i + 1..]
  {
  }

  lemma JoinDots(a: string, b: string, c: string)
    ensures a + "." + (b + "." + c) == a + "." + b + "." + c
  {
  }

  lemma PrintOf(v: SchemaVersion, a: string, b: string, c: string)
    requires Decimal(v.major) == a && Decimal(v.minor) == b && Decimal(v.patch) == c
    ensures Print(v) == a + "." + b + "." + c
  {
  }

  /** An accepted string is printed back exactly. */
  lemma ParseThenPrint(s: string)
    requires Parse(s).Ok?
    ensures Print(Parse(s).value) == s
  {
    var i := FirstDot(s);
    var rest := s[i + 1..];
    var j := FirstDot(rest);
    var a, b, c := s[..i], rest[..j], rest[j + 1..];
    assert Parse(s) == Ok(SchemaVersion(ValueOf(a), ValueOf(b), ValueOf(c)));
    DecimalOfValue(a);
    DecimalOfValue(b);
    DecimalOfValue(c);
    assert s[i] == '.' && rest[j] == '.';
    hide *;
    SplitAtDot(s, i);
    SplitAtDot(rest, j);
    assert s == a + "." + (b + "." + c);
    JoinDots(a, b, c);
    PrintOf(SchemaVersion(ValueOf(a), ValueOf(b), ValueOf(c)), a, b, c);
  }

  /** The accepted strings are exactly the dotted triples of numerals without leading zeros:
      the version cores of section 2 of Semantic Versioning 2.0.0. */
  lemma AcceptedIffVersionCore(s: string)
    ensures Parse(s).Ok? <==>
              exists a, b, c :: IsNumeral(a) && IsNumeral(b) && IsNumeral(c) && s == a + "." + b + "." + c
  {
    if Parse(s).Ok? {
      var v := Parse(s).value;
      ParseThenPrint(s);
      assert s == Decimal(v.major) + "." + Decimal(v.minor) + "." + Decimal(v.patch);
    }
    if a, b, c :| IsNumeral(a) && IsNumeral(b) && IsNumeral(c) && s == a + "." + b + "." + c {
      ParseDotted(a, b, c);
    }
  }

  /** Different strings never denote the same version. */
  lemma ParseInjective(s: string, t: string)
    requires Parse(s).Ok? && Parse(s) == Parse(t)
    ensures s == t
  {
    ParseThenPrint(s);
    ParseThenPrint(t);
  }
}
