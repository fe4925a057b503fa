/** The best-time store and the `mm:ss` time formatter.
  *
  * The browser's `localStorage` is modelled as a `LocalStore` object holding
  * a map from keys to already-parsed numbers. */
module Storage {

  const BestTimeKey := "christmas_survival_best_time"

  class LocalStore {
    var items: map<string, real>

    constructor (initial: map<string, real>)
      ensures items == initial
    {
      items := initial;
    }

    /** The stored best time, or 0 when nothing is stored. */
    function GetBestTime(): (best: real)
      reads this
      ensures BestTimeKey !in items ==> best == 0.0
      ensures BestTimeKey in items ==> best == items[BestTimeKey]
    {
      if BestTimeKey in items then items[BestTimeKey] else 0.0
    }

    /** Stores `time` when it beats the current best; says whether it did. */
    method SaveBestTime(time: real) returns (saved: bool)
      modifies this
      ensures saved <==> time > old(GetBestTime())
      ensures items == if saved then old(items)[BestTimeKey := time] else old(items)
      ensures GetBestTime() >= old(GetBestTime())
      ensures saved ==> GetBestTime() == time
    {
      var currentBest := GetBestTime();
      if time > currentBest {
        items := items[BestTimeKey := time];
        return true;
      }
      return false;
    }
  }

  // ---------------------------------------------------------------------------
  // Decimal rendering of whole numbers, as Number.prototype.toString does it.

  predicate IsDigit(c: char) { '0' <= c <= '9' }

  predicate AllDigits(s: string) { forall i :: 0 <= i < |s| ==> IsDigit(s[i]) }

  function DigitChar(d: nat): (c: char)
    requires d < 10
    ensures IsDigit(c) && DigitValue(c) == d
  {
    (48 + d) as char
  }

  function DigitValue(c: char): nat
    requires IsDigit(c)
  {
    c as nat - 48
  }

  function NatToString(n: nat): (s: string)
    ensures 1 <= |s| && AllDigits(s)
    ensures n < 10 ==> |s| == 1
    ensures 10 <= n < 100 ==> |s| == 2
    ensures n >= 10 ==> |s| >= 2
  {
    if n < 10 then [DigitChar(n)] else NatToString(n / 10) + [DigitChar(n % 10)]
  }

  /** Reads a string of decimal digits back as a number. */
  function ParseNat(s: string): nat
    requires AllDigits(s)
  {
    if s == [] then 0 else 10 * ParseNat(s[..|s| - 1]) + DigitValue(s[|s| - 1])
  }

  lemma {:induction false} ParseNatToString(n: nat)
    ensures ParseNat(NatToString(n)) == n
  {
    if n >= 10 {
      var s := NatToString(n);
      assert s[..|s| - 1] == NatToString(n / 10);
      ParseNatToString(n / 10);
    }
  }

  lemma {:induction false} ParseNatLeadingZero(s: string)
    requires AllDigits(s)
    ensures AllDigits("0" + s) && ParseNat("0" + s) == ParseNat(s)
  {
    if s != [] {
      assert ("0" + s)[..|"0" + s| - 1] == "0" + s[..|s| - 1];
      ParseNatLeadingZero(s[..|s| - 1]);
    }
  }

  /** `n.toString()`: a minus sign before the digits of a negative number. */
  function IntToString(n: int): (s: string)
    ensures n >= 0 ==> s == NatToString(n)
    ensures n < 0 ==> |s| >= 2 && s[0] == '-' && s[1..] == NatToString(-n)
  {
    if n < 0 then "-" + NatToString(-n) else NatToString(n)
  }

  /** `s.padStart(2, '0')`. */
  function PadStart2(s: string): (r: string)
    ensures |s| >= 2 ==> r == s
    ensures |s| < 2 ==> |r| == 2 && r[2 - |s|..] == s
    ensures forall i :: 0 <= i < |r| - |s| ==> r[i] == '0'
  {
    if |s| >= 2 then s else seq(2 - |s|, _ => '0') + s
  }

  // ---------------------------------------------------------------------------
  // Math.floor, truncation and the `%` operator on numbers.

  /** Rounding toward zero. */
  function Trunc(x: real): (t: int)
    ensures x >= 0.0 ==> t == x.Floor
    ensures x < 0.0 ==> t == -((-x).Floor)
  {
    if x >= 0.0 then x.Floor else -((-x).Floor)
  }

  /** JavaScript's `a % n`: the remainder of truncating division, with the sign of `a`. */
  function JsRem(a: real, n: real): real
    requires n != 0.0
  {
    a - n * (Trunc(a / n) as real)
  }

  function Minutes(totalSeconds: real): int { (totalSeconds / 60.0).Floor }

  function Seconds(totalSeconds: real): int { JsRem(totalSeconds, 60.0).Floor }

  /** `formatTime`: minutes and seconds, each padded to two digits, joined by ':'. */
  function FormatTime(totalSeconds: real): string
  {
    var minutes := Minutes(totalSeconds);
    var seconds := Seconds(totalSeconds);
    PadStart2(IntToString(minutes)) + ":" + PadStart2(IntToString(seconds))
  }

  /** For a non-negative time, the minutes are the whole minutes and the
    * seconds field is what is left over, always 0..59. */
  lemma FieldsOfNonNegative(t: real)
    requires t >= 0.0
    ensures Minutes(t) >= 0
    ensures 0 <= Seconds(t) <= 59
    ensures 60 * Minutes(t) + Seconds(t) == t.Floor
  {
    var m := Minutes(t);
    assert Trunc(t / 60.0) == m;
    var rem := t - 60.0 * (m as real);
    assert 0.0 <= rem < 60.0;
    assert JsRem(t, 60.0) == rem;
    assert (rem + 60.0 * (m as real)).Floor == rem.Floor + 60 * m;
  }

  /** Below 100 minutes the text is exactly `mm:ss`. */
  lemma FormatTimeShape(t: real)
    requires 0.0 <= t < 6000.0
    ensures |FormatTime(t)| == 5 && FormatTime(t)[2] == ':'
    ensures AllDigits(FormatTime(t)[..2]) && AllDigits(FormatTime(t)[3..])
  {
    FieldsOfNonNegative(t);
    assert Minutes(t) < 100;
  }

  /** `r` is `minutes:ss` with two second digits, and the fields make up
    * `seconds` whole seconds. */
  predicate ReadsBackAs(r: string, seconds: int) {
    && |r| >= 5 && r[|r| - 3] == ':'
    && AllDigits(r[..|r| - 3]) && AllDigits(r[|r| - 2..])
    && 60 * ParseNat(r[..|r| - 3]) + ParseNat(r[|r| - 2..]) == seconds
  }

  /** Reading the two fields back recovers the whole seconds, however many
    * minutes there are (the minutes field is not truncated). */
  lemma FormatTimeReadBack(t: real)
    requires t >= 0.0
    ensures ReadsBackAs(FormatTime(t), t.Floor)
  {
    FieldsOfNonNegative(t);
    var m, s := Minutes(t), Seconds(t);
    var mm, ss := PadStart2(NatToString(m)), PadStart2(NatToString(s));
    var r := FormatTime(t);
    assert r == mm + ":" + ss;
    assert |ss| == 2;
    assert r[..|r| - 3] == mm && r[|r| - 2..] == ss;
    PaddedValue(m);
    PaddedValue(s);
  }

  lemma PaddedValue(n: nat)
    ensures AllDigits(PadStart2(NatToString(n)))
    ensures ParseNat(PadStart2(NatToString(n))) == n
  {
    var s := NatToString(n);
    ParseNatToString(n);
    if |s| < 2 {
      assert PadStart2(s) == "0" + s;
      ParseNatLeadingZero(s);
    }
  }
}
