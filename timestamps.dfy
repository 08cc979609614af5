/**
 * `datetime_to_string` and `string_to_datetime` of dtos/object_mapper.py: the fixed format
 * "%Y-%m-%dT%H:%M:%SZ" written by `strftime` and read back by `strptime`.
 */
module Timestamps {
  import opened Basics

  /** A Python `datetime` without time zone. */
  datatype DateTime = DateTime(year: nat, month: nat, day: nat,
                               hour: nat, minute: nat, second: nat, microsecond: nat)

  predicate IsLeapYear(y: nat) {
    y % 4 == 0 && (y % 100 != 0 || y % 400 == 0)
  }

  function DaysInMonth(y: nat, m: nat): nat {
    if m == 2 then (if IsLeapYear(y) then 29 else 28)
    else if m in {4, 6, 9, 11} then 30
    else 31
  }

  /** The field ranges Python's `datetime` constructor accepts (MINYEAR 1, MAXYEAR 9999). */
  predicate ValidDateTime(d: DateTime) {
    && 1 <= d.year <= 9999
    && 1 <= d.month <= 12
    && 1 <= d.day <= DaysInMonth(d.year, d.month)
    && d.hour <= 23 && d.minute <= 59 && d.second <= 59
    && d.microsecond <= 999999
  }

  predicate IsDigit(c: char) { '0' <= c <= '9' }

  predicate AllDigits(s: string) { forall i :: 0 <= i < |s| ==> IsDigit(s[i]) }

  function DigitChar(n: nat): (c: char)
    requires n < 10
    ensures IsDigit(c)
  {
    (48 + n) as char
  }

  function DigitValue(c: char): (n: nat)
    requires IsDigit(c)
    ensures n < 10 && DigitChar(n) == c
  {
    (c as int - 48) as nat
  }

  /** `n` in decimal without leading zeros: what glibc's `%Y` prints for a year. */
  function Decimal(n: nat): (s: string)
    ensures 1 <= |s| && AllDigits(s)
  {
    if n < 10 then [DigitChar(n)] else Decimal(n / 10) + [DigitChar(n % 10)]
  }

  /** `n` on two digits with a leading zero: `%m`, `%d`, `%H`, `%M`, `%S`. */
  function Pad2(n: nat): string {
    if n < 10 then ['0', DigitChar(n)] else Decimal(n)
  }

  /** The number written by a string of decimal digits. */
  function DecimalValue(s: string): nat
    requires AllDigits(s)
  {
    if s == [] then 0 else 10 * DecimalValue(s[..|s| - 1]) + DigitValue(s[|s| - 1])
  }

  /** `datetime_to_string`: `strftime("%Y-%m-%dT%H:%M:%SZ")`; microseconds are not written. */
  function Format(d: DateTime): string {
    Decimal(d.year) + "-" + Pad2(d.month) + "-" + Pad2(d.day) + "T"
      + Pad2(d.hour) + ":" + Pad2(d.minute) + ":" + Pad2(d.second) + "Z"
  }

  /** The string has the exact shape "DDDD-DD-DDTDD:DD:DDZ". */
  predicate HasLayout(s: string) {
    && |s| == 20
    && s[4] == '-' && s[7] == '-' && s[10] == 'T' && s[13] == ':' && s[16] == ':' && s[19] == 'Z'
    && AllDigits(s[0..4]) && AllDigits(s[5..7]) && AllDigits(s[8..10])
    && AllDigits(s[11..13]) && AllDigits(s[14..16]) && AllDigits(s[17..19])
  }

  /**
   * `string_to_datetime`: `strptime(s, "%Y-%m-%dT%H:%M:%SZ")`, with `None` where Python
   * raises ValueError (the string does not match, or the fields are out of range).
   */
  function Parse(s: string): (r: Option<DateTime>)
    ensures r.Some? ==> HasLayout(s) && ValidDateTime(r.value) && r.value.microsecond == 0
  {
    if !HasLayout(s) then None
    else
      var d := DateTime(DecimalValue(s[0..4]), DecimalValue(s[5..7]), DecimalValue(s[8..10]),
                        DecimalValue(s[11..13]), DecimalValue(s[14..16]), DecimalValue(s[17..19]), 0);
      if ValidDateTime(d) then Some(d) else None
  }

  lemma {:induction false} DecimalRoundTrip(n: nat)
    ensures DecimalValue(Decimal(n)) == n
  {
    var s := Decimal(n);
    if n >= 10 {
      DecimalRoundTrip(n / 10);
      assert s[..|s| - 1] == Decimal(n / 10);
    }
  }

  lemma {:induction false} DecimalLength(n: nat)
    ensures n < 10 ==> |Decimal(n)| == 1
    ensures 10 <= n < 100 ==> |Decimal(n)| == 2
    ensures 100 <= n < 1000 ==> |Decimal(n)| == 3
    ensures 1000 <= n < 10000 ==> |Decimal(n)| == 4
  {
    if n >= 10 {
      DecimalLength(n / 10);
    }
  }

  lemma Pad2Facts(n: nat)
    requires n < 100
    ensures |Pad2(n)| == 2 && AllDigits(Pad2(n)) && DecimalValue(Pad2(n)) == n
  {
    DecimalLength(n);
    if n < 10 {
      assert Pad2(n)[..1] == ['0'];
      assert DecimalValue(['0']) == 0 by {
        assert ['0'][..0] == [];
      }
    } else {
      DecimalRoundTrip(n);
    }
  }

  /** For a four-digit year the string is 20 characters with separators at fixed places. */
  lemma FormatLayout(d: DateTime)
    requires ValidDateTime(d) && 1000 <= d.year
    ensures HasLayout(Format(d))
    ensures Format(d)[0..4] == Decimal(d.year)
    ensures Format(d)[5..7] == Pad2(d.month) && Format(d)[8..10] == Pad2(d.day)
    ensures Format(d)[11..13] == Pad2(d.hour) && Format(d)[14..16] == Pad2(d.minute)
    ensures Format(d)[17..19] == Pad2(d.second)
  {
    DecimalLength(d.year);
    Pad2Facts(d.month);
    Pad2Facts(d.day);
    Pad2Facts(d.hour);
    Pad2Facts(d.minute);
    Pad2Facts(d.second);
    var s := Format(d);
    var y, mo, da, h, mi, se := Decimal(d.year), Pad2(d.month), Pad2(d.day), Pad2(d.hour), Pad2(d.minute), Pad2(d.second);
    assert s == y + ['-'] + mo + ['-'] + da + ['T'] + h + [':'] + mi + [':'] + se + ['Z'];
    assert s[0..4] == y;
    assert s[5..7] == mo;
    assert s[8..10] == da;
    assert s[11..13] == h;
    assert s[14..16] == mi;
    assert s[17..19] == se;
  }

  /**
   * Round trip: parsing the formatted string gives the datetime back with its microseconds
   * dropped, for every year of four digits.
   */
  lemma ParseFormat(d: DateTime)
    requires ValidDateTime(d) && 1000 <= d.year
    ensures Parse(Format(d)) == Some(d.(microsecond := 0))
  {
    FormatLayout(d);
    DecimalRoundTrip(d.year);
    Pad2Facts(d.month);
    Pad2Facts(d.day);
    Pad2Facts(d.hour);
    Pad2Facts(d.minute);
    Pad2Facts(d.second);
  }

  /** The round trip asked of the format: exact for datetimes without microseconds. */
  lemma FormatRoundTrip(d: DateTime)
    requires ValidDateTime(d) && 1000 <= d.year && d.microsecond == 0
    ensures Parse(Format(d)) == Some(d)
  {
    ParseFormat(d);
  }

  /** Below year 1000 `%Y` prints fewer than four digits and `strptime` rejects the string. */
  lemma ShortYearDoesNotParse(d: DateTime)
    requires ValidDateTime(d) && d.year < 1000
    ensures Parse(Format(d)) == None
  {
    DecimalLength(d.year);
    Pad2Facts(d.month);
    Pad2Facts(d.day);
    Pad2Facts(d.hour);
    Pad2Facts(d.minute);
    Pad2Facts(d.second);
    assert |Format(d)| < 20;
  }
  lemma {:induction false} LeadingDigitPositive(t: string)
    requires AllDigits(t) && |t| >= 1 && t[0] != '0'
    ensures DecimalValue(t) >= 1
  {
    if |t| > 1 {
      LeadingDigitPositive(t[..|t| - 1]);
    }
  }

  /** A digit string without a leading zero is the decimal writing of its value. */
  lemma {:induction false} DecimalOfValue(t: string)
    requires AllDigits(t) && |t| >= 1 && t[0] != '0'
    ensures Decimal(DecimalValue(t)) == t
  {
    var v := DecimalValue(t);
    if |t| == 1 {
      assert t[..0] == [];
    } else {
      var p := t[..|t| - 1];
      LeadingDigitPositive(p);
      DecimalOfValue(p);
      assert v / 10 == DecimalValue(p) && v % 10 == DigitValue(t[|t| - 1]);
      assert t == p + [t[|t| - 1]];
    }
  }

  /** A two-digit string is the `Pad2` writing of its value. */
  lemma Pad2OfValue(u: string)
    requires AllDigits(u) && |u| == 2
    ensures Pad2(DecimalValue(u)) == u
  {
    assert u[..1][..0] == [];
    if u[0] != '0' {
      DecimalOfValue(u);
    } else {
      assert DecimalValue(u[..1]) == 0;
      assert DecimalValue(u) == DigitValue(u[1]);
      assert u == ['0', u[1]];
    }
  }

  /**
   * The other direction of the round trip: a string that parses and whose year does not start
   * with '0' is exactly what `Format` writes for the parsed datetime.
   */
  lemma FormatParse(s: string, d: DateTime)
    requires Parse(s) == Some(d) && s[0] != '0'
    ensures Format(d) == s
  {
    DecimalOfValue(s[0..4]);
    Pad2OfValue(s[5..7]);
    Pad2OfValue(s[8..10]);
    Pad2OfValue(s[11..13]);
    Pad2OfValue(s[14..16]);
    Pad2OfValue(s[17..19]);
    assert s == s[0..4] + [s[4]] + s[5..7] + [s[7]] + s[8..10] + [s[10]] + s[11..13] + [s[13]]
              + s[14..16] + [s[16]] + s[17..19] + [s[19]];
  }
}
