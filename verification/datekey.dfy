/**
 * The `YYYY-MM-DD` lookup key of `formatDate`: the year as JavaScript prints
 * a number (no padding), then month and day each padded to two digits with
 * `('00' + n).slice(-2)`. `ParseKey` is its inverse, used to show that the
 * key identifies the date.
 */
module DateKey {
  import opened Options
  import opened Calendar

  predicate IsDigit(c: char) {
    '0' <= c <= '9'
  }

  predicate AllDigits(s: string) {
    forall i :: 0 <= i < |s| ==> IsDigit(s[i])
  }

  function DigitChar(k: int): (c: char)
    requires 0 <= k < 10
    ensures IsDigit(c)
    ensures c as int - '0' as int == k
  {
    (k + '0' as int) as char
  }

  /** The value of a string of decimal digits, most significant first ("" is 0). */
  function DigitsValue(s: string): nat
    requires AllDigits(s)
  {
    if |s| == 0 then 0
    else 10 * DigitsValue(s[..|s| - 1]) + (s[|s| - 1] as int - '0' as int)
  }

  /** The decimal digits of `n` without leading zeros, as JavaScript prints a non-negative integer. */
  function NatToDigits(n: nat): string
    decreases n
  {
    if n < 10 then [DigitChar(n)] else NatToDigits(n / 10) + [DigitChar(n % 10)]
  }

  /** The printed digits read back as `n`; a single digit exactly below ten. */
  lemma {:induction false} NatToDigitsValue(n: nat)
    ensures 1 <= |NatToDigits(n)| && AllDigits(NatToDigits(n))
    ensures DigitsValue(NatToDigits(n)) == n
    ensures n < 10 <==> |NatToDigits(n)| == 1
    decreases n
  {
    if n >= 10 {
      NatToDigitsValue(n / 10);
      var s := NatToDigits(n);
      assert s[..|s| - 1] == NatToDigits(n / 10);
    }
  }

  /** JavaScript's `${n}` for an integer `n`. */
  function IntToString(n: int): string {
    if n < 0 then "-" + NatToDigits(-n) else NatToDigits(n)
  }

  /** Reads back what `IntToString` prints; `None` for anything else. */
  function ParseInt(s: string): Option<int> {
    if 2 <= |s| && s[0] == '-' && AllDigits(s[1..]) then Some(-(DigitsValue(s[1..]) as int))
    else if 1 <= |s| && AllDigits(s) then Some(DigitsValue(s))
    else None
  }

  lemma ParseIntOfIntToString(n: int)
    ensures ParseInt(IntToString(n)) == Some(n)
  {
    var s := IntToString(n);
    NatToDigitsValue(if n < 0 then -n else n);
    if n < 0 {
      assert s[1..] == NatToDigits(-n);
    } else {
      assert !AllDigits(s[1..]) || s[0] != '-' by {
        assert IsDigit(s[0]);
      }
    }
  }

  /** `('00' + n).slice(-2)`: the last two characters of `n` printed after two zeros. */
  function Pad2(n: nat): string {
    var s := "00" + NatToDigits(n);
    s[|s| - 2..]
  }

  /** Two digits that read back as `n` whenever `n` has at most two digits. */
  lemma Pad2Value(n: nat)
    ensures |Pad2(n)| == 2 && AllDigits(Pad2(n))
    ensures n < 100 ==> DigitsValue(Pad2(n)) == n
  {
    NatToDigitsValue(n);
    var s := "00" + NatToDigits(n);
    var r := Pad2(n);
    assert AllDigits(r) by {
      forall i | 0 <= i < |r|
        ensures IsDigit(r[i])
      {
        assert r[i] == s[|s| - 2 + i];
      }
    }
    if n < 10 {
      assert r == ['0', DigitChar(n)];
      assert r[..1] == ['0'];
    } else if n < 100 {
      NatToDigitsValue(n / 10);
      assert NatToDigits(n) == [DigitChar(n / 10), DigitChar(n % 10)];
      assert r == NatToDigits(n);
    }
  }

  /** `formatDate`: year, two-digit month and two-digit day joined by '-'. */
  function FormatDate(d: Date): string
    requires ValidDate(d)
  {
    IntToString(d.year) + "-" + Pad2(d.month) + "-" + Pad2(d.day)
  }

  /**
   * Where each field sits in the key: the year, a '-', two digits of month,
   * a '-', two digits of day, the last six characters fixed in width.
   */
  lemma FormatDateLayout(d: Date)
    requires ValidDate(d)
    ensures var key := FormatDate(d);
      && |key| == |IntToString(d.year)| + 6
      && key[..|key| - 6] == IntToString(d.year)
      && key[|key| - 6] == '-' && key[|key| - 3] == '-'
      && AllDigits(key[|key| - 5..|key| - 3]) && DigitsValue(key[|key| - 5..|key| - 3]) == d.month
      && AllDigits(key[|key| - 2..]) && DigitsValue(key[|key| - 2..]) == d.day
  {
    var y := IntToString(d.year);
    var key := FormatDate(d);
    Pad2Value(d.month);
    Pad2Value(d.day);
    assert key[..|key| - 6] == y;
    assert key[|key| - 5..|key| - 3] == Pad2(d.month);
    assert key[|key| - 2..] == Pad2(d.day);
  }

  /** Four-digit years give the ten-character ISO 8601 calendar-date form. */
  lemma KeyLengthForFourDigitYears(d: Date)
    requires ValidDate(d)
    requires 1000 <= d.year <= 9999
    ensures |FormatDate(d)| == 10
  {
    var n: nat := d.year;
    NatToDigitsValue(n / 1000);
    NatToDigitsValue(n / 100);
    NatToDigitsValue(n / 10);
    NatToDigitsValue(n);
    assert |NatToDigits(n / 1000)| == 1;
    assert |NatToDigits(n / 100)| == 2 by {
      assert (n / 100) / 10 == n / 1000;
    }
    assert |NatToDigits(n / 10)| == 3 by {
      assert (n / 10) / 10 == n / 100;
    }
    assert |NatToDigits(n)| == 4;
  }

  /** Reads a `formatDate` key back into the date it names; `None` if it is not one. */
  function ParseKey(key: string): Option<Date> {
    if |key| < 7 || key[|key| - 6] != '-' || key[|key| - 3] != '-' then None
    else
      var mm := key[|key| - 5..|key| - 3];
      var dd := key[|key| - 2..];
      if !AllDigits(mm) || !AllDigits(dd) then None
      else match ParseInt(key[..|key| - 6])
        case None => None
        case Some(y) =>
          var d := Date(y, DigitsValue(mm), DigitsValue(dd));
          if ValidDate(d) then Some(d) else None
  }

  /** Every key `formatDate` produces reads back as the date it was made from. */
  lemma KeyRoundTrip(d: Date)
    requires ValidDate(d)
    ensures ParseKey(FormatDate(d)) == Some(d)
  {
    FormatDateLayout(d);
    ParseIntOfIntToString(d.year);
  }

  /** Distinct dates get distinct keys, so the holiday lookup never confuses two days. */
  lemma KeyInjective(a: Date, b: Date)
    requires ValidDate(a) && ValidDate(b)
    requires FormatDate(a) == FormatDate(b)
    ensures a == b
  {
    KeyRoundTrip(a);
    KeyRoundTrip(b);
  }

  lemma KeyExample()
    ensures FormatDate(Date(2024, 1, 1)) == "2024-01-01"
  {
    assert NatToDigits(2) == "2";
    assert NatToDigits(20) == "20";
    assert NatToDigits(202) == "202";
    assert NatToDigits(2024) == "2024";
    assert NatToDigits(1) == "1";
    assert Pad2(1) == "01";
  }
}
