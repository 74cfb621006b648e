/**
 * Times of day as the clock reads them from its bird data and from
 * `strftime("%H:%M")`: zero-padded 24-hour "HH:MM" strings, compared the way
 * Python compares strings (code point by code point, a proper prefix first).
 */
module TimeText {

  /** Python's `a <= b` on two strings. */
  predicate StrLe(a: string, b: string)
  {
    if |a| == 0 then true
    else if |b| == 0 then false
    else if a[0] != b[0] then a[0] < b[0]
    else StrLe(a[1..], b[1..])
  }

  /** Python's `a < b` on two strings. */
  predicate StrLt(a: string, b: string)
  {
    if |b| == 0 then false
    else if |a| == 0 then true
    else if a[0] != b[0] then a[0] < b[0]
    else StrLt(a[1..], b[1..])
  }

  lemma {:induction false} StrLeReflexive(a: string)
    ensures StrLe(a, a)
  {
    if |a| != 0 {
      StrLeReflexive(a[1..]);
    }
  }

  lemma {:induction false} StrLeAntisymmetric(a: string, b: string)
    requires StrLe(a, b) && StrLe(b, a)
    ensures a == b
  {
    if |a| != 0 && |b| != 0 {
      StrLeAntisymmetric(a[1..], b[1..]);
      assert a == [a[0]] + a[1..] && b == [b[0]] + b[1..];
    }
  }

  lemma {:induction false} StrLeTransitive(a: string, b: string, c: string)
    requires StrLe(a, b) && StrLe(b, c)
    ensures StrLe(a, c)
  {
    if |a| != 0 && |b| != 0 && |c| != 0 && a[0] == b[0] && b[0] == c[0] {
      StrLeTransitive(a[1..], b[1..], c[1..]);
    }
  }

  lemma {:induction false} StrLeTotal(a: string, b: string)
    ensures StrLe(a, b) || StrLe(b, a)
  {
    if |a| != 0 && |b| != 0 && a[0] == b[0] {
      StrLeTotal(a[1..], b[1..]);
    }
  }

  /** Python's `<` is the strict part of its `<=`, and the complement of the reversed `<=`. */
  lemma {:induction false} StrLtIsStrictLe(a: string, b: string)
    ensures StrLt(a, b) <==> StrLe(a, b) && a != b
    ensures StrLt(a, b) <==> !StrLe(b, a)
  {
    if |a| != 0 && |b| != 0 && a[0] == b[0] {
      StrLtIsStrictLe(a[1..], b[1..]);
      assert a == [a[0]] + a[1..] && b == [b[0]] + b[1..];
      assert a[1..] == b[1..] ==> a == b;
    }
  }

  predicate IsDigit(c: char)
  {
    '0' <= c <= '9'
  }

  function DigitValue(c: char): int
  {
    c as int - '0' as int
  }

  function DigitChar(d: int): (c: char)
    requires 0 <= d < 10
    ensures IsDigit(c) && DigitValue(c) == d
  {
    ('0' as int + d) as char
  }

  /** A zero-padded 24-hour "HH:MM" time of day. */
  predicate WellFormed(s: string)
  {
    && |s| == 5
    && IsDigit(s[0]) && IsDigit(s[1]) && s[2] == ':' && IsDigit(s[3]) && IsDigit(s[4])
    && DigitValue(s[0]) * 10 + DigitValue(s[1]) < 24
    && DigitValue(s[3]) < 6
  }

  /** Minutes since midnight of a well-formed time of day. */
  function Minutes(s: string): (m: int)
    requires WellFormed(s)
    ensures 0 <= m < 1440
  {
    (DigitValue(s[0]) * 10 + DigitValue(s[1])) * 60 + DigitValue(s[3]) * 10 + DigitValue(s[4])
  }

  /** `strftime("%H:%M")` of an hour and a minute. */
  function Format(hour: int, minute: int): (s: string)
    requires 0 <= hour < 24 && 0 <= minute < 60
    ensures WellFormed(s)
    ensures Minutes(s) == hour * 60 + minute
  {
    [DigitChar(hour / 10), DigitChar(hour % 10), ':', DigitChar(minute / 10), DigitChar(minute % 10)]
  }

  /** Every well-formed time of day is what `Format` writes for its own minutes. */
  lemma FormatOfMinutes(s: string)
    requires WellFormed(s)
    ensures Format(Minutes(s) / 60, Minutes(s) % 60) == s
  {
    var h := DigitValue(s[0]) * 10 + DigitValue(s[1]);
    var m := DigitValue(s[3]) * 10 + DigitValue(s[4]);
    assert Minutes(s) / 60 == h && Minutes(s) % 60 == m;
    var f := Format(h, m);
    assert f[0] == s[0] && f[1] == s[1] && f[2] == s[2] && f[3] == s[3] && f[4] == s[4];
  }

  /**
   * On well-formed times, Python's string order is the order of minutes since
   * midnight; the resolver's `<=` and `<` on "HH:MM" strings rely on this.
   */
  lemma OrderAgrees(a: string, b: string)
    requires WellFormed(a) && WellFormed(b)
    ensures StrLe(a, b) <==> Minutes(a) <= Minutes(b)
    ensures StrLt(a, b) <==> Minutes(a) < Minutes(b)
  {
    FiveCharOrder(a, b);
    StrLtIsStrictLe(a, b);
    if Minutes(a) == Minutes(b) {
      FormatOfMinutes(a);
      FormatOfMinutes(b);
    }
  }

  /** `StrLe` on two five-character strings, unrolled. */
  lemma FiveCharOrder(a: string, b: string)
    requires |a| == 5 && |b| == 5
    ensures StrLe(a, b) <==>
      (a[0] < b[0] || (a[0] == b[0] &&
      (a[1] < b[1] || (a[1] == b[1] &&
      (a[2] < b[2] || (a[2] == b[2] &&
      (a[3] < b[3] || (a[3] == b[3] &&
      a[4] <= b[4]))))))))
  {
    assert a[1..][1..] == a[2..] && b[1..][1..] == b[2..];
    assert a[2..][1..] == a[3..] && b[2..][1..] == b[3..];
    assert a[3..][1..] == a[4..] && b[3..][1..] == b[4..];
    assert |a[4..][1..]| == 0;
    assert StrLe(a[4..], b[4..]) <==> a[4] <= b[4];
    assert StrLe(a[3..], b[3..]) <==> a[3] < b[3] || (a[3] == b[3] && StrLe(a[4..], b[4..]));
    assert StrLe(a[2..], b[2..]) <==> a[2] < b[2] || (a[2] == b[2] && StrLe(a[3..], b[3..]));
    assert StrLe(a[1..], b[1..]) <==> a[1] < b[1] || (a[1] == b[1] && StrLe(a[2..], b[2..]));
  }
}
