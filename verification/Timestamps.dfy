/**
 Timestamps as the store writes them: RFC 3339 text in UTC with the fraction's trailing zeros
 trimmed. The store and the read side compare this text, not the instants.
 */
module Timestamps {
  import opened Text

  /** The whole-second part of a UTC instant, by calendar fields. */
  datatype Second = Second(year: nat, month: nat, day: nat, hour: nat, minute: nat, second: nat) {
    predicate InRange() {
      year < 10000 && month < 100 && day < 100 && hour < 100 && minute < 100 && second < 100
    }

    predicate Before(o: Second) {
      year < o.year || (year == o.year &&
      (month < o.month || (month == o.month &&
      (day < o.day || (day == o.day &&
      (hour < o.hour || (hour == o.hour &&
      (minute < o.minute || (minute == o.minute &&
      second < o.second)))))))))
    }

    function Render(): (s: string)
      ensures |s| == 19
    {
      Pad(year, 4) + ("-" + (Pad(month, 2) + ("-" + (Pad(day, 2) + ("T" +
      (Pad(hour, 2) + (":" + (Pad(minute, 2) + (":" + Pad(second, 2))))))))))
    }
  }

  const NANOS := 1_000_000_000

  datatype Moment = Moment(at: Second, nano: nat)

  /** An instant in the years 0000 to 9999, the range RFC 3339 can write. */
  type Instant = t: Moment | t.at.InRange() && t.nano < NANOS
    witness Moment(Second(1970, 1, 1, 0, 0, 0), 0)

  predicate Earlier(a: Instant, b: Instant) {
    a.at.Before(b.at) || (a.at == b.at && a.nano < b.nano)
  }

  /** s without its trailing zeros. */
  function Trim(s: string): string {
    if s == "" then ""
    else
      var rest := Trim(s[1..]);
      if rest == "" && s[0] == '0' then "" else [s[0]] + rest
  }

  function Digits(t: Instant): string {
    Trim(Pad(t.nano, 9))
  }

  function Tail(digits: string): string {
    if digits == "" then "Z" else "." + digits + "Z"
  }

  /** The text written for an instant: layout 2006-01-02T15:04:05.999999999Z07:00 in UTC. */
  function FormatTime(t: Instant): string {
    t.at.Render() + Tail(Digits(t))
  }

  // ----- whole seconds -----

  lemma {:induction false} FieldOrder(m: nat, n: nat, w: nat, sep: string, s: string, t: string)
    requires m < Pow10(w) && n < Pow10(w)
    ensures Less(Pad(m, w) + (sep + s), Pad(n, w) + (sep + t)) <==> m < n || (m == n && Less(s, t))
  {
    PadOrder(m, n, w);
    LessOfConcat(Pad(m, w), Pad(n, w), sep + s, sep + t);
    LessOfConcat(sep, sep, s, t);
    LessIsStrictOrder(sep, sep, sep);
  }

  lemma {:induction false} SecondOrder(a: Second, b: Second)
    requires a.InRange() && b.InRange()
    ensures Less(a.Render(), b.Render()) <==> a.Before(b)
    ensures a == b || a.Before(b) || b.Before(a)
  {
    assert Pow10(2) == 100 && Pow10(4) == 10000;
    var (s6, t6) := (Pad(a.second, 2), Pad(b.second, 2));
    PadOrder(a.second, b.second, 2);
    var (s5, t5) := (Pad(a.minute, 2) + (":" + s6), Pad(b.minute, 2) + (":" + t6));
    FieldOrder(a.minute, b.minute, 2, ":", s6, t6);
    var (s4, t4) := (Pad(a.hour, 2) + (":" + s5), Pad(b.hour, 2) + (":" + t5));
    FieldOrder(a.hour, b.hour, 2, ":", s5, t5);
    var (s3, t3) := (Pad(a.day, 2) + ("T" + s4), Pad(b.day, 2) + ("T" + t4));
    FieldOrder(a.day, b.day, 2, "T", s4, t4);
    var (s2, t2) := (Pad(a.month, 2) + ("-" + s3), Pad(b.month, 2) + ("-" + t3));
    FieldOrder(a.month, b.month, 2, "-", s3, t3);
    FieldOrder(a.year, b.year, 4, "-", s2, t2);
  }

  // ----- fractions -----

  lemma {:induction false} NanoOrder(a: Instant, b: Instant)
    ensures Less(Pad(a.nano, 9), Pad(b.nano, 9)) <==> a.nano < b.nano
    ensures Pad(a.nano, 9) == Pad(b.nano, 9) <==> a.nano == b.nano
  {
    assert Pow10(9) == NANOS;
    PadOrder(a.nano, b.nano, 9);
  }

  /** Trimming is dropping a run of zeros at the end, all of it. */
  lemma {:induction false} TrimMeaning(s: string)
    ensures |Trim(s)| <= |s| && Trim(s) == s[..|Trim(s)|]
    ensures forall i | |Trim(s)| <= i < |s| :: s[i] == '0'
    ensures Trim(s) != "" ==> Trim(s)[|Trim(s)| - 1] != '0'
    decreases |s|
  {
    if s != "" {
      TrimMeaning(s[1..]);
      forall i | |Trim(s)| <= i < |s|
        ensures s[i] == '0'
      {
        if i > 0 { assert s[i] == s[1..][i - 1]; }
      }
    }
  }

  lemma {:induction false} ConsPrefix(c: char, x: string, y: string)
    ensures ProperPrefix([c] + x, [c] + y) <==> ProperPrefix(x, y)
  {
    if |x| < |y| {
      assert ([c] + y)[..|[c] + x|] == [c] + y[..|x|];
      assert y[..|x|] == ([c] + y)[..|[c] + x|][1..];
      assert ([c] + x)[1..] == x;
    }
  }

  /** What ClosedOrder says of a and b, whose trimmed forms are x and y. */
  predicate Compares(a: string, b: string, x: string, y: string) {
    && x != y
    && (ProperPrefix(x, y) ==> Less(a, b) && Less(y + "Z", x + "Z"))
    && (!ProperPrefix(x, y) && !ProperPrefix(y, x) ==> (Less(x + "Z", y + "Z") <==> Less(a, b)))
  }

  lemma {:induction false} DifferentHeads(a: string, b: string)
    requires AllDigits(a) && AllDigits(b) && a != "" && b != "" && a[0] != b[0]
    ensures Compares(a, b, Trim(a), Trim(b))
  {
    var x, y := Trim(a), Trim(b);
    assert x == "" || x[0] == a[0];
    assert y == "" || y[0] == b[0];
    if x != "" && y != "" {
      assert !ProperPrefix(x, y) && !ProperPrefix(y, x);
      assert (x + "Z")[0] == a[0] && (y + "Z")[0] == b[0];
    }
  }

  lemma {:induction false} ConsLess(c: char, x: string, y: string)
    ensures Less([c] + x, [c] + y) <==> Less(x, y)
  {
    assert ([c] + x)[1..] == x && ([c] + y)[1..] == y;
  }

  lemma {:induction false} ConsCompares(c: char, a: string, b: string, x: string, y: string)
    requires Compares(a, b, x, y)
    ensures Compares([c] + a, [c] + b, [c] + x, [c] + y)
  {
    hide Less, ProperPrefix;
    ConsPrefix(c, x, y);
    ConsPrefix(c, y, x);
    ConsLess(c, a, b);
    ConsLess(c, x + "Z", y + "Z");
    ConsLess(c, y + "Z", x + "Z");
    assert [c] + x + "Z" == [c] + (x + "Z") && [c] + y + "Z" == [c] + (y + "Z");
    assert ([c] + x)[1..] == x && ([c] + y)[1..] == y;
  }

  lemma {:induction false} SameHeads(c: char, a: string, b: string)
    requires IsDigit(c) && Compares(a, b, Trim(a), Trim(b)) && Compares(b, a, Trim(b), Trim(a))
    ensures Compares([c] + a, [c] + b, Trim([c] + a), Trim([c] + b))
  {
    var x, y := Trim(a), Trim(b);
    assert ([c] + a)[1..] == a && ([c] + b)[1..] == b;
    ConsLess(c, a, b);
    if c == '0' && (x == "" || y == "") {
      var longer := if x == "" then y else x;
      assert ([c] + longer + "Z")[0] < 'Z';
    } else {
      ConsCompares(c, a, b, x, y);
    }
  }

  /** How two trimmed digit strings compare once the closing Z is attached. */
  lemma {:induction false} ClosedOrder(a: string, b: string)
    requires |a| == |b| && AllDigits(a) && AllDigits(b) && a != b
    ensures Compares(a, b, Trim(a), Trim(b)) && Compares(b, a, Trim(b), Trim(a))
    decreases |a|
  {
    assert a == [a[0]] + a[1..] && b == [b[0]] + b[1..];
    if a[0] == b[0] {
      ClosedOrder(a[1..], b[1..]);
      SameHeads(a[0], a[1..], b[1..]);
      SameHeads(a[0], b[1..], a[1..]);
    } else {
      DifferentHeads(a, b);
      DifferentHeads(b, a);
    }
  }

  predicate SameSecondPrefix(a: Instant, b: Instant) {
    a.at == b.at && (ProperPrefix(Digits(a), Digits(b)) || ProperPrefix(Digits(b), Digits(a)))
  }

  lemma {:induction false} SameSecondOrder(a: Instant, b: Instant)
    requires a.at == b.at
    ensures Less(FormatTime(a), FormatTime(b)) <==> Less(Tail(Digits(a)), Tail(Digits(b)))
  {
    var front := a.at.Render();
    LessOfConcat(front, front, Tail(Digits(a)), Tail(Digits(b)));
    LessIsStrictOrder(front, front, front);
  }

  /** Within one second a shorter fraction that begins a longer one sorts after it, though it is earlier. */
  lemma {:induction false} PrefixReverses(a: Instant, b: Instant)
    requires a.at == b.at && ProperPrefix(Digits(a), Digits(b))
    ensures Earlier(a, b) && Less(FormatTime(b), FormatTime(a))
  {
    var (m, n) := (Pad(a.nano, 9), Pad(b.nano, 9));
    NanoOrder(a, b);
    assert Digits(a) == Trim(m) && Digits(b) == Trim(n);
    ClosedOrder(m, n);
    DigitsAreDigits(a);
    DigitsAreDigits(b);
    TailOrder(Digits(b), Digits(a));
    SameSecondOrder(b, a);
  }

  lemma {:induction false} TailOrder(x: string, y: string)
    requires AllDigits(x) && AllDigits(y)
    ensures x != "" && y != "" ==> (Less(Tail(x), Tail(y)) <==> Less(x + "Z", y + "Z"))
    ensures x != "" && y == "" ==> Less(Tail(x), Tail(y))
    ensures x == "" && y != "" ==> !Less(Tail(x), Tail(y))
  {
    if x != "" && y != "" {
      assert Tail(x)[1..] == x + "Z" && Tail(y)[1..] == y + "Z";
    }
  }

  /** The smallest case: the whole second sorts after everything else in it. */
  lemma {:induction false} WholeSecondSortsLast(at: Second, nano: nat)
    requires at.InRange() && 0 < nano < NANOS
    ensures Earlier(Moment(at, 0), Moment(at, nano))
    ensures Less(FormatTime(Moment(at, nano)), FormatTime(Moment(at, 0)))
  {
    hide FormatTime, Trim, Pad;
    var a: Instant, b: Instant := Moment(at, 0), Moment(at, nano);
    NanoOrder(a, b);
    var zeros, text := Pad(0, 9), Pad(nano, 9);
    TrimMeaning(zeros);
    TrimMeaning(text);
    PadZero(9);
    assert Trim(text) == "" ==> text == zeros;
    PrefixReverses(a, b);
  }

  lemma {:induction false} PadZero(w: nat)
    ensures forall i | 0 <= i < w :: Pad(0, w)[i] == '0'
    decreases w
  {
    if w > 0 { PadZero(w - 1); }
  }

  /** Text order is time order unless the two share a second and one fraction begins the other. */
  lemma {:induction false} TextOrderIsTimeOrderIff(a: Instant, b: Instant)
    requires a != b
    ensures (Less(FormatTime(a), FormatTime(b)) <==> Earlier(a, b)) <==> !SameSecondPrefix(a, b)
  {
    SecondOrder(a.at, b.at);
    LessOfConcat(a.at.Render(), b.at.Render(), Tail(Digits(a)), Tail(Digits(b)));
    if a.at == b.at {
      LessIsStrictOrder(a.at.Render(), a.at.Render(), a.at.Render());
      NanoOrder(a, b);
      ClosedOrder(Pad(a.nano, 9), Pad(b.nano, 9));
      if ProperPrefix(Digits(a), Digits(b)) {
        PrefixReverses(a, b);
        LessIsStrictOrder(FormatTime(a), FormatTime(b), FormatTime(a));
      } else if ProperPrefix(Digits(b), Digits(a)) {
        PrefixReverses(b, a);
      } else {
        DigitsAreDigits(a);
        DigitsAreDigits(b);
        TailOrder(Digits(a), Digits(b));
        assert Digits(a) != "" && Digits(b) != "";
      }
    } else {
      RenderInjective(a.at, b.at);
    }
  }

  lemma {:induction false} DigitsAreDigits(t: Instant)
    ensures AllDigits(Digits(t))
  {
    TrimMeaning(Pad(t.nano, 9));
  }

  lemma {:induction false} RenderInjective(a: Second, b: Second)
    requires a.InRange() && b.InRange() && a != b
    ensures a.Render() != b.Render()
  {
    SecondOrder(a, b);
    SecondOrder(b, a);
    LessIsStrictOrder(a.Render(), b.Render(), a.Render());
  }

  /** Equal text means equal instant. */
  lemma {:induction false} FormatTimeInjective(a: Instant, b: Instant)
    requires FormatTime(a) == FormatTime(b)
    ensures a == b
  {
    if a != b {
      LessIsStrictOrder(FormatTime(a), FormatTime(b), FormatTime(a));
      if SameSecondPrefix(a, b) {
        if ProperPrefix(Digits(a), Digits(b)) { PrefixReverses(a, b); } else { PrefixReverses(b, a); }
      } else {
        TextOrderIsTimeOrderIff(a, b);
        TextOrderIsTimeOrderIff(b, a);
        SecondOrder(a.at, b.at);
      }
    }
  }

  /** The case section 5.1 of RFC 3339 covers: fractions written to the same width sort by time. */
  lemma {:induction false} SameWidthSortsByTime(a: Instant, b: Instant)
    requires |Digits(a)| == |Digits(b)|
    ensures Less(FormatTime(a), FormatTime(b)) <==> Earlier(a, b)
  {
    if a == b {
      LessIsStrictOrder(FormatTime(a), FormatTime(a), FormatTime(a));
    } else {
      TextOrderIsTimeOrderIff(a, b);
    }
  }

  // ----- reading the text back -----

  /** The fields stand where RFC 3339 has them, between its separators. */
  lemma {:induction false} SecondReadsBack(at: Second)
    requires at.InRange()
    ensures var s := at.Render();
            && s[4] == s[7] == '-' && s[10] == 'T' && s[13] == s[16] == ':'
            && s[..4] == Pad(at.year, 4) && s[5..7] == Pad(at.month, 2) && s[8..10] == Pad(at.day, 2)
            && s[11..13] == Pad(at.hour, 2) && s[14..16] == Pad(at.minute, 2) && s[17..] == Pad(at.second, 2)
  {
    hide Pad;
  }

  /** The number written with that many digits is the number. */
  lemma {:induction false} ValueOfPad(n: nat, w: nat)
    requires n < Pow10(w)
    ensures Value(Pad(n, w)) == n
    decreases w
  {
    if w > 0 {
      ValueOfPad(n / 10, w - 1);
      assert Pad(n, w)[..w - 1] == Pad(n / 10, w - 1);
    }
  }

  /**
   An instant can be read off its text: the second up to the nineteenth character, then nothing or a
   point and the fraction without trailing zeros, and the Z of UTC.
   */
  lemma {:induction false} FractionReadsBack(t: Instant)
    ensures var s, digits := FormatTime(t), Digits(t);
            && s[..19] == t.at.Render() && s[|s| - 1] == 'Z'
            && (t.nano == 0 ==> |s| == 20)
            && (t.nano > 0 ==> |s| > 21 && s[19] == '.' && s[20..|s| - 1] == digits && digits[|digits| - 1] != '0')
            && |digits| <= 9 && Pad(t.nano, 9) == digits + Zeros(9 - |digits|)
  {
    hide Trim, Pad;
    TrimMeaning(Pad(t.nano, 9));
    NanoOrder(t, Moment(t.at, 0));
    PadZero(9);
    assert Pad(t.nano, 9) == Digits(t) + Zeros(9 - |Digits(t)|);
  }

  function Zeros(n: nat): string {
    seq(n, _ => '0')
  }

  /** s is in the same second as x, and its fraction begins x's: earlier, but greater as text. */
  predicate StartsEarlierInSecond(s: Instant, x: Instant) {
    s.at == x.at && ProperPrefix(Digits(s), Digits(x))
  }

  lemma {:induction false} UnlessStartsEarlier(s: Instant, x: Instant)
    requires !Less(FormatTime(s), FormatTime(x))
    ensures Earlier(s, x) <==> StartsEarlierInSecond(s, x)
  {
    hide FormatTime, Less, Digits, ProperPrefix;
    if Earlier(s, x) {
      TextOrderIsTimeOrderIff(s, x);
      if StartsEarlierInSecond(x, s) { PrefixReverses(x, s); }
    }
    if StartsEarlierInSecond(s, x) { PrefixReverses(s, x); }
  }
}
