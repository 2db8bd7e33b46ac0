/** Text as Go and SQLite compare and print it: byte order, decimal numerals, the last-colon split. */
module Text {
  import opened Prelude

  // ----- byte order -----

  /** a sorts strictly before b, byte by byte; a proper prefix sorts first. */
  predicate Less(a: string, b: string) {
    b != "" && (a == "" || a[0] < b[0] || (a[0] == b[0] && Less(a[1..], b[1..])))
  }

  lemma {:induction false} LessIsStrictOrder(a: string, b: string, c: string)
    ensures !Less(a, a)
    ensures Less(a, b) && Less(b, c) ==> Less(a, c)
    ensures a == b || Less(a, b) || Less(b, a)
    ensures !(Less(a, b) && Less(b, a))
    decreases |a| + |b| + |c|
  {
    if a != "" && b != "" && c != "" {
      LessIsStrictOrder(a[1..], b[1..], c[1..]);
      assert a == [a[0]] + a[1..] && b == [b[0]] + b[1..];
    } else if a != "" && b != "" {
      LessIsStrictOrder(a[1..], b[1..], "");
      assert a == [a[0]] + a[1..] && b == [b[0]] + b[1..];
    } else if a != "" {
      LessIsStrictOrder(a[1..], "", "");
    }
  }

  /** Equal-width fronts decide; only if they tie do the rests matter. */
  lemma {:induction false} LessOfConcat(p: string, q: string, s: string, t: string)
    requires |p| == |q|
    ensures Less(p + s, q + t) <==> Less(p, q) || (p == q && Less(s, t))
    decreases |p|
  {
    if p == "" {
      assert p + s == s && q + t == t;
    } else {
      LessOfConcat(p[1..], q[1..], s, t);
      assert (p + s)[1..] == p[1..] + s && (q + t)[1..] == q[1..] + t;
      assert p == [p[0]] + p[1..] && q == [q[0]] + q[1..];
    }
  }

  predicate ProperPrefix(a: string, b: string) {
    |a| < |b| && b[..|a|] == a
  }

  // ----- decimal numerals -----

  predicate IsDigit(c: char) {
    '0' <= c <= '9'
  }

  predicate AllDigits(s: string) {
    forall i | 0 <= i < |s| :: IsDigit(s[i])
  }

  function DigitChar(d: nat): (c: char)
    requires d < 10
    ensures IsDigit(c)
  {
    '0' + d as char
  }

  /** The number a digit string denotes, leading zeros allowed. */
  function Value(s: string): nat
    requires AllDigits(s)
  {
    if s == "" then 0 else Value(s[..|s| - 1]) * 10 + (s[|s| - 1] - '0') as nat
  }

  /** strconv.Itoa on non-negative numbers. */
  function Itoa(n: nat): (s: string)
    ensures AllDigits(s) && s != ""
  {
    if n < 10 then [DigitChar(n)] else Itoa(n / 10) + [DigitChar(n % 10)]
  }

  predicate Canonical(s: string) {
    s != "" && AllDigits(s) && (|s| > 1 ==> s[0] != '0')
  }

  lemma {:induction false} ValueOfItoa(n: nat)
    ensures Value(Itoa(n)) == n && Canonical(Itoa(n))
    decreases n
  {
    if n >= 10 {
      ValueOfItoa(n / 10);
      var front := Itoa(n / 10);
      assert (front + [DigitChar(n % 10)])[..|front|] == front;
      assert |front| == 1 ==> front[..0] == "";
    } else {
      assert [DigitChar(n)][..0] == "";
    }
  }

  lemma {:induction false} PositiveValue(s: string)
    requires Canonical(s) && s[0] != '0'
    ensures Value(s) > 0
    decreases |s|
  {
    if |s| > 1 {
      PositiveValue(s[..|s| - 1]);
    }
  }

  /** A canonical numeral is the numeral of its own value. */
  lemma {:induction false} ItoaOfValue(s: string)
    requires Canonical(s)
    ensures Itoa(Value(s)) == s
    decreases |s|
  {
    var last := (s[|s| - 1] - '0') as nat;
    assert DigitChar(last) == s[|s| - 1];
    if |s| == 1 {
      assert Value(s) == last by { assert s[..0] == ""; }
    } else {
      var front := s[..|s| - 1];
      PositiveValue(front);
      ItoaOfValue(front);
      assert Value(s) / 10 == Value(front) && Value(s) % 10 == last;
      assert s == front + [s[|s| - 1]];
    }
  }

  const INT64_MAX := 0x7fff_ffff_ffff_ffff

  /** strconv.FormatInt in base 10. */
  function FormatInt(n: int): string {
    if n < 0 then "-" + Itoa(-n) else Itoa(n)
  }

  /** strconv.ParseInt in base 10 with 64 bits: optional sign, at least one digit, range checked. */
  function ParseInt(s: string): Option<int> {
    if s == "" then None
    else
      var negative := s[0] == '-';
      var digits := if s[0] == '-' || s[0] == '+' then s[1..] else s;
      if digits == "" || !AllDigits(digits) then None
      else
        var v: int := Value(digits);
        var n := if negative then -v else v;
        if -INT64_MAX - 1 <= n <= INT64_MAX then Some(n) else None
  }

  /** s writes n: a digit string, with a sign or without. */
  ghost predicate Spells(s: string, n: int) {
    exists digits | digits != "" && AllDigits(digits) ::
      || ((s == digits || s == "+" + digits) && n == Value(digits))
      || (s == "-" + digits && -n == Value(digits))
  }

  /** Parsing accepts exactly the 64-bit integers written that way, with their value. */
  lemma {:induction false} ParseIntIff(s: string, n: int)
    ensures ParseInt(s) == Some(n) <==> Spells(s, n) && -INT64_MAX - 1 <= n <= INT64_MAX
  {
    hide Value;
    if ParseInt(s) == Some(n) {
      var digits := if s[0] == '-' || s[0] == '+' then s[1..] else s;
      assert s[0] == '-' ==> s == "-" + digits;
      assert s[0] == '+' ==> s == "+" + digits;
    }
    if Spells(s, n) {
      var digits :| digits != "" && AllDigits(digits) &&
        (((s == digits || s == "+" + digits) && n == Value(digits)) || (s == "-" + digits && -n == Value(digits)));
      assert IsDigit(digits[0]);
      assert ("+" + digits)[1..] == digits && ("-" + digits)[1..] == digits;
    }
  }

  lemma {:induction false} ParseOfFormat(n: int)
    requires -INT64_MAX - 1 <= n <= INT64_MAX
    ensures ParseInt(FormatInt(n)) == Some(n)
  {
    hide Value, Itoa;
    var digits := Itoa(if n < 0 then -n else n);
    ValueOfItoa(if n < 0 then -n else n);
    assert IsDigit(digits[0]) && ("-" + digits)[1..] == digits;
  }

  // ----- fixed-width numerals -----

  function Pow10(w: nat): (p: nat)
    ensures p > 0
  {
    if w == 0 then 1 else 10 * Pow10(w - 1)
  }

  /** The w low decimal digits of n, zero-padded. */
  function Pad(n: nat, w: nat): (s: string)
    ensures |s| == w && AllDigits(s)
    decreases w, n
  {
    if w == 0 then "" else Pad(n / 10, w - 1) + [DigitChar(n % 10)]
  }

  lemma {:induction false} PadOrder(m: nat, n: nat, w: nat)
    requires m < Pow10(w) && n < Pow10(w)
    ensures Less(Pad(m, w), Pad(n, w)) <==> m < n
    ensures Pad(m, w) == Pad(n, w) <==> m == n
    decreases w
  {
    if w > 0 {
      var c, d := [DigitChar(m % 10)], [DigitChar(n % 10)];
      PadOrder(m / 10, n / 10, w - 1);
      LessOfConcat(Pad(m / 10, w - 1), Pad(n / 10, w - 1), c, d);
      assert Less(c, d) <==> m % 10 < n % 10;
      assert Pad(m, w)[..w - 1] == Pad(m / 10, w - 1) && Pad(n, w)[..w - 1] == Pad(n / 10, w - 1);
      assert Pad(m, w)[w - 1] == c[0] && Pad(n, w)[w - 1] == d[0];
    }
  }

  // ----- splitting at the last occurrence -----

  /** strings.LastIndexByte: the last position of c in s, or -1. */
  function LastIndex(s: string, c: char): (i: int)
    ensures -1 <= i < |s|
    ensures i >= 0 ==> s[i] == c
    ensures forall j | i < j < |s| :: s[j] != c
  {
    if s == "" then -1
    else if s[|s| - 1] == c then |s| - 1
    else LastIndex(s[..|s| - 1], c)
  }
}
