/**
 * The Python string built-ins the statistics code relies on, for ASCII text:
 * `str(n)` and `int(s)` on decimal numerals, the `,` thousands separator of
 * format specs (`f'{n:,}'`), `str(n / 100)`, `s.split(".")[-1]` and `s.lower()`.
 */
module PyText {
  import opened PyValues

  predicate IsDigit(c: char) { '0' <= c <= '9' }

  predicate AllDigits(s: string) { forall i :: 0 <= i < |s| ==> IsDigit(s[i]) }

  function DigitChar(d: nat): (c: char)
    requires d < 10
    ensures IsDigit(c)
  {
    ('0' as int + d) as char
  }

  function DigitValue(c: char): nat
    requires IsDigit(c)
  {
    c as int - '0' as int
  }

  function Pow10(k: nat): (p: nat)
    ensures p >= 1
  {
    if k == 0 then 1 else 10 * Pow10(k - 1)
  }

  /** `str(n)` for a non-negative integer: its decimal digits, no leading zero. */
  function NatToString(n: nat): (s: string)
    ensures 1 <= |s| && AllDigits(s)
    ensures n < 10 ==> |s| == 1
    ensures n < 100 ==> |s| <= 2
    ensures n < 1000 ==> |s| <= 3
  {
    if n < 10 then [DigitChar(n)] else NatToString(n / 10) + [DigitChar(n % 10)]
  }

  /** `int(s)` for a string of decimal digits (leading zeros allowed). */
  function ParseDigits(s: string): nat
    requires AllDigits(s)
  {
    if s == [] then 0 else ParseDigits(s[..|s| - 1]) * 10 + DigitValue(s[|s| - 1])
  }

  /** `int(str(n)) == n`. */
  lemma {:induction false} ParseNatToString(n: nat)
    ensures ParseDigits(NatToString(n)) == n
  {
    if n >= 10 {
      var s := NatToString(n);
      assert s[..|s| - 1] == NatToString(n / 10);
      ParseNatToString(n / 10);
    }
  }

  /** Reading digits `a` then `b` shifts the value of `a` by the length of `b`. */
  lemma {:induction false} ParseAppend(a: string, b: string)
    requires AllDigits(a) && AllDigits(b)
    ensures AllDigits(a + b)
    ensures ParseDigits(a + b) == ParseDigits(a) * Pow10(|b|) + ParseDigits(b)
  {
    if b == [] {
      assert a + b == a;
    } else {
      var b' := b[..|b| - 1];
      assert (a + b)[..|a + b| - 1] == a + b';
      ParseAppend(a, b');
      ShiftByDigit(a, b, b');
    }
  }

  /** One more digit after `b'` shifts the value of `a` ten times further. */
  lemma ShiftByDigit(a: string, b: string, b': string)
    requires AllDigits(a) && |b| == |b'| + 1
    ensures ParseDigits(a) * Pow10(|b|) == (ParseDigits(a) * Pow10(|b'|)) * 10
  {
    var pa, p := ParseDigits(a), Pow10(|b'|);
    assert Pow10(|b|) == p * 10;
    assert pa * (p * 10) == (pa * p) * 10;
  }

  /** The three digits of `k`, zero-padded: one group of `f'{n:,}'`. */
  function ThreeDigits(k: nat): (s: string)
    requires k < 1000
    ensures |s| == 3 && AllDigits(s)
  {
    [DigitChar(k / 100), DigitChar(k / 10 % 10), DigitChar(k % 10)]
  }

  lemma ParseThreeDigits(k: nat)
    requires k < 1000
    ensures ParseDigits(ThreeDigits(k)) == k
  {
    var s := ThreeDigits(k);
    assert s[..2][..1] == s[..1] && s[..1][..0] == [];
    assert ParseDigits(s[..1]) == k / 100;
    assert ParseDigits(s[..2]) == (k / 100) * 10 + k / 10 % 10;
    assert ParseDigits(s) == ((k / 100) * 10 + k / 10 % 10) * 10 + k % 10;
  }

  /** `f'{n:,}'` for `n >= 0`. */
  function GroupDigits(n: nat): (s: string)
    ensures |s| >= 1
  {
    if n < 1000 then NatToString(n) else GroupDigits(n / 1000) + "," + ThreeDigits(n % 1000)
  }

  /** `f'{n:,}'`: decimal digits, a `,` between groups of three, a leading `-` when negative. */
  function Grouped(n: int): string {
    if n < 0 then "-" + GroupDigits(-n) else GroupDigits(n)
  }

  /**
   * The layout `f'{n:,}'` produces: a leading digit that is `0` only in "0"
   * itself, then commas exactly every fourth place from the right.
   */
  ghost predicate WellGrouped(s: string) {
    && |s| > 0
    && IsDigit(s[0])
    && (s[0] == '0' ==> |s| == 1)
    && forall i :: 0 <= i < |s| ==> (s[i] == ',' <==> (|s| - i) % 4 == 0) && (s[i] != ',' ==> IsDigit(s[i]))
  }

  /** `str(n)` of a positive integer does not start with `0`. */
  lemma {:induction false} NatToStringLeading(n: nat)
    requires n >= 1
    ensures NatToString(n)[0] != '0'
  {
    if n >= 10 {
      NatToStringLeading(n / 10);
      assert NatToString(n)[0] == NatToString(n / 10)[0];
    }
  }

  lemma {:induction false} GroupDigitsShape(n: nat)
    ensures WellGrouped(GroupDigits(n))
    ensures n >= 1 ==> GroupDigits(n)[0] != '0'
  {
    if n < 1000 {
      if n >= 1 {
        NatToStringLeading(n);
      }
    } else {
      GroupDigitsShape(n / 1000);
      AppendGroup(GroupDigits(n / 1000), ThreeDigits(n % 1000));
    }
  }

  /** A `,` and three more digits keep a grouped numeral that does not start with `0` grouped. */
  lemma AppendGroup(g: string, t: string)
    requires WellGrouped(g) && g[0] != '0' && |t| == 3 && AllDigits(t)
    ensures WellGrouped(g + "," + t)
  {
    var s := g + "," + t;
    forall i | 0 <= i < |s|
      ensures (s[i] == ',' <==> (|s| - i) % 4 == 0) && (s[i] != ',' ==> IsDigit(s[i]))
    {
      if i < |g| {
        assert s[i] == g[i];
        assert |s| - i == (|g| - i) + 4;
      } else if i == |g| {
        assert s[i] == ',';
      } else {
        assert s[i] == t[i - |g| - 1];
      }
    }
  }

  /** `s` with every `,` removed. */
  function StripCommas(s: string): string {
    if s == [] then [] else (if s[0] == ',' then [] else [s[0]]) + StripCommas(s[1..])
  }

  lemma {:induction false} StripCommasAppend(a: string, b: string)
    ensures StripCommas(a + b) == StripCommas(a) + StripCommas(b)
  {
    if a == [] {
      assert a + b == b;
    } else {
      assert (a + b)[1..] == a[1..] + b;
      StripCommasAppend(a[1..], b);
    }
  }

  lemma {:induction false} StripCommasOfDigits(s: string)
    requires AllDigits(s)
    ensures StripCommas(s) == s
  {
    if s != [] {
      StripCommasOfDigits(s[1..]);
    }
  }

  lemma {:induction false} GroupDigitsDigits(n: nat)
    ensures AllDigits(StripCommas(GroupDigits(n)))
    ensures ParseDigits(StripCommas(GroupDigits(n))) == n
  {
    if n < 1000 {
      StripCommasOfDigits(NatToString(n));
      ParseNatToString(n);
    } else {
      var g, t := GroupDigits(n / 1000), ThreeDigits(n % 1000);
      GroupDigitsDigits(n / 1000);
      StripAppendGroup(g, t);
      ParseAppend(StripCommas(g), t);
      ParseThreeDigits(n % 1000);
      assert Pow10(3) == 1000;
      assert ParseDigits(StripCommas(g) + t) == (n / 1000) * 1000 + n % 1000;
    }
  }

  /** Removing the commas of `g + "," + t`, where `t` has none, leaves `g`'s digits then `t`. */
  lemma StripAppendGroup(g: string, t: string)
    requires AllDigits(t)
    ensures StripCommas(g + "," + t) == StripCommas(g) + t
  {
    var ct := [','] + t;
    assert StripCommas(ct) == t by {
      assert ct[0] == ',' && ct[1..] == t;
      StripCommasOfDigits(t);
    }
    assert g + "," + t == g + ct;
    StripCommasAppend(g, ct);
  }

  /** Reads back a numeral written with `,` separators and an optional leading `-`. */
  function ReadGrouped(s: string): Option<int> {
    var negative := |s| > 0 && s[0] == '-';
    var body := if negative then s[1..] else s;
    var digits := StripCommas(body);
    if digits == [] || !AllDigits(digits) then None
    else if negative then Some(0 - ParseDigits(digits) as int)
    else Some(ParseDigits(digits))
  }

  /** `f'{n:,}'` loses nothing: its layout is the grouped one and it reads back as `n`. */
  lemma GroupedRoundTrip(n: int)
    ensures WellGrouped(if n < 0 then Grouped(n)[1..] else Grouped(n))
    ensures ReadGrouped(Grouped(n)) == Some(n)
  {
    var m: nat := if n < 0 then -n else n;
    GroupDigitsShape(m);
    GroupDigitsDigits(m);
    var s := Grouped(n);
    if n < 0 {
      assert s[0] == '-' && s[1..] == GroupDigits(m);
      assert ReadGrouped(s) == Some(0 - ParseDigits(StripCommas(GroupDigits(m))) as int);
    } else {
      assert s == GroupDigits(m) && s[0] != '-';
      assert ReadGrouped(s) == Some(ParseDigits(StripCommas(GroupDigits(m))));
    }
  }

  /** The digits `str` prints after the point of `r / 100`, for `r < 100`: no trailing zero, but at least one digit. */
  function HundredthsFraction(r: nat): (f: string)
    requires r < 100
    ensures 1 <= |f| <= 2 && AllDigits(f)
  {
    if r % 10 == 0 then [DigitChar(r / 10)] else [DigitChar(r / 10), DigitChar(r % 10)]
  }

  /**
   * `str(n / 100)` for an integer `n`, as the exact hundredths in positional
   * notation. Python prints these digits while the double nearest `n / 100`
   * still tells hundredths apart, for `|n|` below about 10^15; from
   * `|n| = 10^18` on, `n / 100` reaches 10^16 and Python switches to
   * exponent notation.
   */
  function HundredthsText(n: int): string {
    var m := if n < 0 then -n else n;
    (if n < 0 then "-" else "") + NatToString(m / 100) + "." + HundredthsFraction(m % 100)
  }

  /** `str(n / 100).split(".")[-1]` is the fraction part. */
  lemma HundredthsTail(n: int)
    ensures AfterLastDot(HundredthsText(n)) == HundredthsFraction((if n < 0 then -n else n) % 100)
  {
    var m := if n < 0 then -n else n;
    var f := HundredthsFraction(m % 100);
    assert '.' !in f by {
      forall i | 0 <= i < |f| ensures f[i] != '.' { assert IsDigit(f[i]); }
    }
    AfterLastDotOf((if n < 0 then "-" else "") + NatToString(m / 100), f);
  }

  /** `s.split(".")[-1]`: the text after the last `.`, or all of `s` when it has none. */
  function AfterLastDot(s: string): string {
    if s == [] then []
    else if s[|s| - 1] == '.' then []
    else AfterLastDot(s[..|s| - 1]) + [s[|s| - 1]]
  }

  lemma {:induction false} AfterLastDotOf(p: string, f: string)
    requires '.' !in f
    ensures AfterLastDot(p + "." + f) == f
  {
    if f == [] {
      assert p + "." + f == p + ".";
    } else {
      var f' := f[..|f| - 1];
      assert (p + "." + f)[..|p + "." + f| - 1] == p + "." + f';
      AfterLastDotOf(p, f');
    }
  }

  /** `a < b` on Python strings: lexicographic by code point, a proper prefix before the longer string. */
  predicate StrLess(a: string, b: string) {
    if |a| == 0 then |b| > 0
    else if |b| == 0 then false
    else if a[0] != b[0] then a[0] < b[0]
    else StrLess(a[1..], b[1..])
  }

  /** String order is a strict total order: irreflexive and asymmetric, and any two strings compare. */
  lemma {:induction false} StrLessTotal(a: string, b: string)
    ensures !(StrLess(a, b) && StrLess(b, a))
    ensures a == b || StrLess(a, b) || StrLess(b, a)
    ensures a == b ==> !StrLess(a, b)
  {
    if |a| > 0 && |b| > 0 && a[0] == b[0] {
      StrLessTotal(a[1..], b[1..]);
      if a[1..] == b[1..] {
        assert a == [a[0]] + a[1..] && b == [b[0]] + b[1..];
      }
    }
  }

  lemma {:induction false} StrLessTransitive(a: string, b: string, c: string)
    requires StrLess(a, b) && StrLess(b, c)
    ensures StrLess(a, c)
  {
    if |a| > 0 && a[0] == b[0] && b[0] == c[0] {
      StrLessTransitive(a[1..], b[1..], c[1..]);
    }
  }

  predicate IsUpperAscii(c: char) { 'A' <= c <= 'Z' }

  predicate IsLowerAscii(c: char) { 'a' <= c <= 'z' }

  /** `c.isalpha()`, for ASCII. */
  predicate IsAlpha(c: char) { IsUpperAscii(c) || IsLowerAscii(c) }

  function LowerChar(c: char): char {
    if IsUpperAscii(c) then (c as int + 32) as char else c
  }

  function UpperChar(c: char): char {
    if IsLowerAscii(c) then (c as int - 32) as char else c
  }

  /** `s.lower()`, for ASCII. */
  function Lower(s: string): (r: string)
    ensures |r| == |s| && forall i :: 0 <= i < |s| ==> r[i] == LowerChar(s[i])
  {
    if s == [] then [] else [LowerChar(s[0])] + Lower(s[1..])
  }
}
