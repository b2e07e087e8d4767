/** The sort key of a reservation: `date + "T" + two-digit hour + ":00:00Z"`
    (reservations.py, add_reservation and check_availability build it with
    the same f-string). The module also gives the rendering of an hour with
    `str`, and a decoder that recovers date and hour from a key, which shows
    that the key names its slot unambiguously. */
module SlotKeys {
  import opened Wrappers

  predicate IsDigit(c: char)
  {
    '0' <= c <= '9'
  }

  predicate AllDigits(s: string)
  {
    forall i :: 0 <= i < |s| ==> IsDigit(s[i])
  }

  function DigitChar(d: nat): (c: char)
    requires d < 10
    ensures IsDigit(c)
  {
    ('0' as int + d) as char
  }

  function DigitValue(c: char): (d: nat)
    requires IsDigit(c)
    ensures d < 10 && DigitChar(d) == c
  {
    c as int - '0' as int
  }

  /** Decimal digits of `n`, most significant first, without leading zeros. */
  function Digits(n: nat): (s: string)
    ensures 1 <= |s|
    ensures (n < 10) == (|s| == 1)
    decreases n
  {
    if n < 10 then [DigitChar(n)] else Digits(n / 10) + [DigitChar(n % 10)]
  }

  lemma {:induction false} DigitsAreDigits(n: nat)
    ensures AllDigits(Digits(n))
    decreases n
  {
    if n >= 10 {
      DigitsAreDigits(n / 10);
      var s := Digits(n);
      forall i | 0 <= i < |s| ensures IsDigit(s[i]) {
        if i < |s| - 1 { assert s[i] == Digits(n / 10)[i]; }
      }
    }
  }

  /** Python's `str(n)` for an integer. */
  function IntText(n: int): (s: string)
  {
    if n < 0 then "-" + Digits(-n) else Digits(n)
  }

  /** Python's `f"{n:02d}"`: zero-padded to width two; a minus sign takes
      part of the width, so `-5` renders as `-5`. */
  function HourText(n: int): string
  {
    if n < 0 then "-" + Digits(-n)
    else if n < 10 then "0" + Digits(n)
    else Digits(n)
  }

  /** The padding: a non-negative hour has at least two digits, exactly
      two below 100; a negative one is a minus sign and digits. */
  lemma HourTextShape(n: int)
    ensures n >= 0 ==> 2 <= |HourText(n)| && AllDigits(HourText(n))
    ensures 0 <= n < 100 ==> |HourText(n)| == 2
    ensures n < 0 ==> 2 <= |HourText(n)| && HourText(n)[0] == '-' && AllDigits(HourText(n)[1..])
  {
    if n < 0 {
      DigitsAreDigits(-n);
      assert HourText(n)[1..] == Digits(-n);
    } else if n < 10 {
      assert HourText(n) == ['0', DigitChar(n)];
    } else {
      DigitsAreDigits(n);
    }
  }

  const KeySuffix: string := ":00:00Z"

  /** The `datetime_reservation` of the slot for `hour` on `date`. */
  function SlotKey(date: string, hour: int): string
  {
    date + "T" + HourText(hour) + KeySuffix
  }

  /** Reads back a run of decimal digits (leading zeros allowed). */
  function ParseDigits(s: string): nat
    requires AllDigits(s)
  {
    if s == [] then 0 else ParseDigits(s[..|s| - 1]) * 10 + DigitValue(s[|s| - 1])
  }

  /** Reads back an hour written by `HourText` or `IntText`. */
  function ParseHour(s: string): Option<int>
  {
    if 2 <= |s| && s[0] == '-' && AllDigits(s[1..]) then Some(-(ParseDigits(s[1..]) as int))
    else if 1 <= |s| && AllDigits(s) then Some(ParseDigits(s))
    else None
  }

  /** Position of the last occurrence of `c` in `s`. */
  function LastIndex(s: string, c: char): (r: Option<nat>)
    ensures r.Some? ==> r.value < |s| && s[r.value] == c
    ensures r.Some? ==> forall j :: r.value < j < |s| ==> s[j] != c
    ensures r.None? ==> forall j :: 0 <= j < |s| ==> s[j] != c
  {
    if s == [] then None
    else if s[|s| - 1] == c then Some(|s| - 1)
    else LastIndex(s[..|s| - 1], c)
  }

  /** Splits a key into date and hour: the hour text holds no `T`, so the
      date is everything before the last `T`. */
  function DecodeSlotKey(key: string): Option<(string, int)>
  {
    if |key| < |KeySuffix| || key[|key| - |KeySuffix|..] != KeySuffix then None
    else
      var body := key[..|key| - |KeySuffix|];
      match LastIndex(body, 'T')
      case None => None
      case Some(i) =>
        match ParseHour(body[i + 1..])
        case None => None
        case Some(h) => Some((body[..i], h))
  }

  lemma {:induction false} DigitsRoundTrip(n: nat)
    ensures AllDigits(Digits(n)) && ParseDigits(Digits(n)) == n
    decreases n
  {
    DigitsAreDigits(n);
    if n >= 10 {
      var s := Digits(n);
      assert s[..|s| - 1] == Digits(n / 10);
      DigitsRoundTrip(n / 10);
    }
  }

  lemma ParseNegative(s: string)
    requires 1 <= |s| && AllDigits(s)
    ensures ParseHour("-" + s) == Some(-(ParseDigits(s) as int))
  {
    assert ("-" + s)[0] == '-' && ("-" + s)[1..] == s;
  }

  lemma ParseUnsigned(s: string)
    requires 1 <= |s| && AllDigits(s)
    ensures ParseHour(s) == Some(ParseDigits(s))
  {
    assert IsDigit(s[0]);
  }

  /** `str(hour)`, as stored in `hour_reservation`, reads back as the hour. */
  lemma IntTextRoundTrip(n: int)
    ensures ParseHour(IntText(n)) == Some(n)
  {
    if n < 0 {
      var ds := Digits(-n);
      assert IntText(n) == "-" + ds;
      DigitsRoundTrip(-n);
      ParseNegative(ds);
    } else {
      var ds := Digits(n);
      assert IntText(n) == ds;
      DigitsRoundTrip(n);
      ParseUnsigned(ds);
    }
  }

  /** The two-digit text inside a key reads back as the hour. */
  lemma HourTextRoundTrip(n: int)
    ensures ParseHour(HourText(n)) == Some(n)
  {
    if 0 <= n < 10 {
      PaddedDigitRoundTrip(n);
    } else {
      assert HourText(n) == IntText(n);
      IntTextRoundTrip(n);
    }
  }

  lemma PaddedDigitRoundTrip(n: nat)
    requires n < 10
    ensures ParseHour("0" + Digits(n)) == Some(n)
  {
    var s := "0" + Digits(n);
    var z := s[..1];
    assert z == "0" && z[..0] == [];
    assert ParseDigits(z) == 0;
    assert s[1] == DigitChar(n);
    assert ParseDigits(s) == ParseDigits(z) * 10 + DigitValue(s[1]);
  }

  lemma HourTextHasNoT(n: int)
    ensures forall j :: 0 <= j < |HourText(n)| ==> HourText(n)[j] != 'T'
  {
    var s := HourText(n);
    HourTextShape(n);
    if n < 0 {
      forall j | 0 <= j < |s| ensures s[j] != 'T' {
        if j > 0 { assert s[j] == s[1..][j - 1]; }
      }
    }
  }

  /** Decoding a key gives back the date and hour it was built from. */
  lemma SlotKeyRoundTrip(date: string, hour: int)
    ensures DecodeSlotKey(SlotKey(date, hour)) == Some((date, hour))
  {
    var h := HourText(hour);
    var key := SlotKey(date, hour);
    var body := date + "T" + h;
    assert key == body + KeySuffix;
    assert key[|key| - |KeySuffix|..] == KeySuffix;
    assert key[..|key| - |KeySuffix|] == body;
    HourTextHasNoT(hour);
    assert body[|date|] == 'T';
    forall j | |date| < j < |body| ensures body[j] != 'T' {
      assert body[j] == h[j - |date| - 1];
    }
    var r := LastIndex(body, 'T');
    assert r == Some(|date|);
    assert body[|date| + 1..] == h;
    assert body[..|date|] == date;
    HourTextRoundTrip(hour);
  }

  /** Distinct (date, hour) pairs never share a key, so a key identifies
      exactly one slot. */
  lemma SlotKeyInjective(d1: string, h1: int, d2: string, h2: int)
    requires SlotKey(d1, h1) == SlotKey(d2, h2)
    ensures d1 == d2 && h1 == h2
  {
    SlotKeyRoundTrip(d1, h1);
    SlotKeyRoundTrip(d2, h2);
  }
}
