/**
 The printer of message TTLs (src/client/jetstream.record.ts) against the single-unit grammar of
 Go's `time.ParseDuration`. Numbers of nanoseconds are integers here; the source's are at most
 2^53 - 1, where a double is exact and prints without an exponent.
 */
module Durations {
  import opened Options

  datatype Unit = Hour | Minute | Second | Milli | Micro | Nano

  function Nanos(u: Unit): nat {
    match u
    case Hour => 3_600_000_000_000
    case Minute => 60_000_000_000
    case Second => 1_000_000_000
    case Milli => 1_000_000
    case Micro => 1_000
    case Nano => 1
  }

  function Suffix(u: Unit): string {
    match u
    case Hour => "h"
    case Minute => "m"
    case Second => "s"
    case Milli => "ms"
    case Micro => "us"
    case Nano => "ns"
  }

  // ----- Decimal numerals -----

  predicate IsDigit(c: char) {
    '0' <= c <= '9'
  }

  function Decimal(n: nat): (s: string)
    ensures |s| > 0 && forall c :: c in s ==> IsDigit(c)
  {
    if n < 10 then [(n + '0' as int) as char] else Decimal(n / 10) + [(n % 10 + '0' as int) as char]
  }

  function Value(digits: string): nat
    requires forall c :: c in digits ==> IsDigit(c)
  {
    if digits == "" then 0
    else
      var last := digits[|digits|-1];
      assert IsDigit(last);
      10 * Value(digits[..|digits|-1]) + (last as int - '0' as int)
  }

  lemma {:induction false} ValueOfDecimal(n: nat)
    ensures Value(Decimal(n)) == n
  {
    if n >= 10 {
      ValueOfDecimal(n / 10);
      assert Decimal(n)[..|Decimal(n)|-1] == Decimal(n / 10);
    }
  }

  lemma {:induction false} DecimalIsMonotone(a: nat, b: nat)
    requires a <= b
    ensures |Decimal(a)| <= |Decimal(b)|
  {
    if a >= 10 {
      DecimalIsMonotone(a / 10, b / 10);
    }
  }

  // ----- Printing and reading -----

  /** A number of units in writing. */
  function Form(count: nat, u: Unit): string {
    Decimal(count) + Suffix(u)
  }

  predicate Exact(n: nat, u: Unit) {
    n % Nanos(u) == 0
  }

  /** The unit the printer picks: the first that divides, from hours down, never microseconds. */
  function Picked(n: nat): Unit {
    if n >= Nanos(Hour) && Exact(n, Hour) then Hour
    else if n >= Nanos(Minute) && Exact(n, Minute) then Minute
    else if n >= Nanos(Second) && Exact(n, Second) then Second
    else if n >= Nanos(Milli) && Exact(n, Milli) then Milli
    else Nano
  }

  function NanosToGoDuration(n: nat): string {
    Form(n / Nanos(Picked(n)), Picked(n))
  }

  /** How many leading characters are digits. */
  function DigitRun(s: string): (k: nat)
    ensures k <= |s| && forall c :: c in s[..k] ==> IsDigit(c)
  {
    if s == "" || !IsDigit(s[0]) then 0
    else
      assert forall k :: 0 <= k < |s| ==> s[..k+1] == [s[0]] + s[1..][..k];
      DigitRun(s[1..]) + 1
  }

  function UnitNamed(name: string): Option<Unit> {
    if name == "h" then Some(Hour)
    else if name == "m" then Some(Minute)
    else if name == "s" then Some(Second)
    else if name == "ms" then Some(Milli)
    else if name == "us" then Some(Micro)
    else if name == "ns" then Some(Nano)
    else None
  }

  /** One integer and one unit. */
  function ParseDuration(s: string): Option<nat> {
    var k := DigitRun(s);
    if k == 0 then None
    else
      match UnitNamed(s[k..])
      case None => None
      case Some(u) => Some(Value(s[..k]) * Nanos(u))
  }

  lemma {:induction false} DigitRunStops(digits: string, rest: string)
    requires forall c :: c in digits ==> IsDigit(c)
    requires rest != "" && !IsDigit(rest[0])
    ensures DigitRun(digits + rest) == |digits|
  {
    if digits == "" {
      assert digits + rest == rest;
    } else {
      assert (digits + rest)[1..] == digits[1..] + rest;
      assert digits[0] in digits;
      DigitRunStops(digits[1..], rest);
    }
  }

  lemma FormParses(count: nat, u: Unit)
    ensures ParseDuration(Form(count, u)) == Some(count * Nanos(u))
  {
    var digits := Decimal(count);
    DigitRunStops(digits, Suffix(u));
    ValueOfDecimal(count);
    assert (digits + Suffix(u))[..|digits|] == digits;
    assert (digits + Suffix(u))[|digits|..] == Suffix(u);
  }

  lemma ExactDivision(n: nat, u: Unit)
    requires Exact(n, u)
    ensures n / Nanos(u) * Nanos(u) == n
  {
  }

  /** What a unit is worth in nanoseconds (Go's package `time`, ParseDuration). */
  lemma UnitIsWorth(n: nat, name: string, worth: nat)
    requires (name, worth) in {("h", 3_600_000_000_000), ("m", 60_000_000_000), ("s", 1_000_000_000),
                               ("ms", 1_000_000), ("us", 1_000), ("ns", 1)}
    ensures ParseDuration(Decimal(n) + name) == Some(n * worth)
  {
    var u := UnitNamed(name).value;
    assert Suffix(u) == name && Nanos(u) == worth;
    FormParses(n, u);
  }

  /** Reading a printed duration gives it back. */
  lemma RoundTrip(n: nat)
    ensures ParseDuration(NanosToGoDuration(n)) == Some(n)
  {
    FormParses(n / Nanos(Picked(n)), Picked(n));
    ExactDivision(n, Picked(n));
  }

  lemma QuotientShrinks(n: nat, u: Unit, larger: Unit)
    requires Nanos(u) <= Nanos(larger)
    ensures n / Nanos(larger) <= n / Nanos(u)
  {
  }

  /** Over h, m, s, ms and ns no exact form is shorter. */
  lemma PrintedIsShortest(n: nat, u: Unit)
    requires n >= 1 && Exact(n, u) && u != Micro
    ensures |NanosToGoDuration(n)| <= |Form(n / Nanos(u), u)|
  {
    assert n >= Nanos(u);
    assert Nanos(u) <= Nanos(Picked(n));
    QuotientShrinks(n, u, Picked(n));
    DecimalIsMonotone(n / Nanos(Picked(n)), n / Nanos(u));
  }

  lemma {:induction false} ThousandIsThreeDigits(n: nat)
    requires n >= 1000
    ensures |Decimal(n)| == |Decimal(n / 1000)| + 3
  {
    assert n / 10 / 10 / 10 == n / 1000;
    assert |Decimal(n)| == |Decimal(n / 10)| + 1;
    assert |Decimal(n / 10)| == |Decimal(n / 10 / 10)| + 1;
    assert |Decimal(n / 10 / 10)| == |Decimal(n / 10 / 10 / 10)| + 1;
  }

  lemma MillionDivides(a: nat)
    ensures a * 1_000_000 % 1_000_000 == 0
  {
  }

  lemma CoarserIsMillis(n: nat, u: Unit)
    ensures Exact(n, u) && u in {Hour, Minute, Second} ==> Exact(n, Milli)
  {
    if !Exact(n, u) {
      return;
    }
    match u
    case Hour => MillionDivides(n / 3_600_000_000_000 * 3_600_000);
    case Minute => MillionDivides(n / 60_000_000_000 * 60_000);
    case Second => MillionDivides(n / 1_000_000_000 * 1_000);
    case _ =>
  }

  lemma NanosArePicked(n: nat)
    requires !Exact(n, Milli)
    ensures Picked(n) == Nano && NanosToGoDuration(n) == Form(n, Nano)
  {
    CoarserIsMillis(n, Hour);
    CoarserIsMillis(n, Minute);
    CoarserIsMillis(n, Second);
    assert n / Nanos(Nano) == n;
  }

  /** A whole number of microseconds but not of milliseconds is shorter by three digits in `us`. */
  lemma MicrosWouldBeShorter(n: nat)
    requires n >= 1 && Exact(n, Micro) && !Exact(n, Milli)
    ensures |NanosToGoDuration(n)| == |Form(n / Nanos(Micro), Micro)| + 3
  {
    NanosArePicked(n);
    assert n >= 1000;
    ThousandIsThreeDigits(n);
  }

  lemma ShortestOfAll(n: nat, u: Unit)
    requires n >= 1 && Exact(n, u) && (Exact(n, Micro) ==> Exact(n, Milli))
    ensures |NanosToGoDuration(n)| <= |Form(n / Nanos(u), u)|
  {
    PrintedIsShortest(n, if u == Micro then Milli else u);
    QuotientShrinks(n, Micro, Milli);
    DecimalIsMonotone(n / Nanos(Milli), n / Nanos(Micro));
  }

  /**
   Over all of Go's units the printed form is the shortest if and only if the duration is not a
   whole number of microseconds that is no whole number of milliseconds.
   */
  lemma ShortestInGoIff(n: nat)
    requires n >= 1
    ensures (forall u :: Exact(n, u) ==> |NanosToGoDuration(n)| <= |Form(n / Nanos(u), u)|)
            <==> !(Exact(n, Micro) && !Exact(n, Milli))
  {
    if Exact(n, Micro) && !Exact(n, Milli) {
      MicrosWouldBeShorter(n);
    } else {
      forall u | Exact(n, u)
        ensures |NanosToGoDuration(n)| <= |Form(n / Nanos(u), u)|
      {
        ShortestOfAll(n, u);
      }
    }
  }
}
