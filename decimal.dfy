/** Decimal renderings of numbers as the dashboard shows them: template
    literals of whole numbers (`${n}`) and `Number.prototype.toFixed`, with
    the parsers that read them back. */
module Decimal {

  predicate IsDigit(c: char)
  {
    '0' <= c <= '9'
  }

  predicate AllDigits(s: string)
  {
    forall i :: 0 <= i < |s| ==> IsDigit(s[i])
  }

  function Digit(d: nat): (c: char)
    requires d < 10
    ensures IsDigit(c)
  {
    "0123456789"[d]
  }

  function DigitValue(c: char): (d: nat)
    requires IsDigit(c)
    ensures d < 10
  {
    (c - '0') as nat
  }

  lemma DigitRoundTrip(d: nat)
    requires d < 10
    ensures DigitValue(Digit(d)) == d
  {
  }

  /** `${n}` for a whole number n >= 0: its digits, most significant first,
      without leading zeros. */
  function NatToString(n: nat): (s: string)
    ensures |s| >= 1 && AllDigits(s)
    ensures s[0] == '0' ==> n == 0 && |s| == 1
  {
    if n < 10 then [Digit(n)] else NatToString(n / 10) + [Digit(n % 10)]
  }

  /** The value of a string of digits. */
  function ParseDigits(s: string): nat
    requires AllDigits(s)
  {
    if s == [] then 0 else ParseDigits(s[..|s| - 1]) * 10 + DigitValue(s[|s| - 1])
  }

  function Pow10(k: nat): (p: nat)
    ensures p >= 1
  {
    if k == 0 then 1 else 10 * Pow10(k - 1)
  }

  /** Reading the digits back gives the number. */
  lemma {:induction false} NatToStringRoundTrip(n: nat)
    ensures ParseDigits(NatToString(n)) == n
  {
    if n >= 10 {
      var s := NatToString(n);
      NatToStringRoundTrip(n / 10);
      assert s[..|s| - 1] == NatToString(n / 10);
      DigitRoundTrip(n % 10);
    } else {
      DigitRoundTrip(n);
    }
  }

  /** A string of zeros is worth nothing. */
  lemma {:induction false} ParseZeros(k: nat)
    ensures AllDigits(Zeros(k)) && ParseDigits(Zeros(k)) == 0
  {
    if k > 0 {
      ParseZeros(k - 1);
      assert Zeros(k)[..k - 1] == Zeros(k - 1);
    }
  }

  /** Leading zeros do not change the value. */
  lemma {:induction false} LeadingZeros(k: nat, m: string)
    requires AllDigits(m)
    ensures AllDigits(Zeros(k) + m) && ParseDigits(Zeros(k) + m) == ParseDigits(m)
  {
    var z := Zeros(k);
    assert AllDigits(z + m) by {
      ParseZeros(k);
    }
    if m == [] {
      assert z + m == z;
      ParseZeros(k);
    } else {
      var m' := m[..|m| - 1];
      assert AllDigits(m');
      LeadingZeros(k, m');
      assert (z + m)[..|z + m| - 1] == z + m';
      assert (z + m)[|z + m| - 1] == m[|m| - 1];
    }
  }

  function Zeros(k: nat): (z: string)
    ensures |z| == k
    ensures forall i :: 0 <= i < k ==> z[i] == '0'
  {
    if k == 0 then [] else Zeros(k - 1) + ['0']
  }

  /** `${i}` for a whole number of either sign. */
  function IntToString(i: int): (s: string)
    ensures |s| >= 1
    ensures i < 0 <==> s[0] == '-'
    ensures i < 0 ==> s[1..] == NatToString(-i)
    ensures i >= 0 ==> s == NatToString(i)
  {
    if i < 0 then "-" + NatToString(-i) else NatToString(i)
  }

  /** Reads back what IntToString writes. */
  function ParseInt(s: string): int
    requires |s| >= 1
    requires if s[0] == '-' then AllDigits(s[1..]) else AllDigits(s)
  {
    if s[0] == '-' then -(ParseDigits(s[1..]) as int) else ParseDigits(s)
  }

  lemma IntToStringRoundTrip(i: int)
    ensures var s := IntToString(i);
            (if s[0] == '-' then AllDigits(s[1..]) else AllDigits(s)) && ParseInt(s) == i
  {
    if i < 0 {
      var m := NatToString(-i);
      assert ParseDigits(m) == -i by {
        NatToStringRoundTrip(-i);
      }
      assert IntToString(i) == "-" + m;
      assert ("-" + m)[1..] == m;
    } else {
      var m := NatToString(i);
      assert ParseDigits(m) == i by {
        NatToStringRoundTrip(i);
      }
      assert IntToString(i) == m && m[0] != '-';
    }
  }

  /** Different numbers are written differently. */
  lemma IntToStringInjective(i: int, j: int)
    requires IntToString(i) == IntToString(j)
    ensures i == j
  {
    IntToStringRoundTrip(i);
    IntToStringRoundTrip(j);
  }

  // ---------------------------------------------------------------------------
  // Number.prototype.toFixed
  // ---------------------------------------------------------------------------

  /** The integer nearest to y >= 0, the larger one on a tie: the n that
      toFixed picks, applied to the magnitude times 10^f. */
  function Nearest(y: real): (n: nat)
    requires y >= 0.0
    ensures (n as real) - 0.5 <= y < (n as real) + 0.5
  {
    (y + 0.5).Floor
  }

  /** The digits of m, padded on the left with zeros to at least width digits. */
  function Padded(m: string, width: nat): (s: string)
    ensures |s| >= width && |s| >= |m|
  {
    if |m| < width then Zeros(width - |m|) + m else m
  }

  /** The digits d with a point before their last f. */
  function InsertPoint(d: string, f: nat): string
    requires |d| >= f
  {
    d[..|d| - f] + "." + d[|d| - f..]
  }

  /** The digits m with the point placed f digits from the right, padded
      with leading zeros so that at least one digit stands before the point. */
  function PlacePoint(m: string, f: nat): (s: string)
  {
    if f == 0 then m
    else
      var m' := Padded(m, f + 1);
      InsertPoint(m', f)
  }

  function Abs(x: real): (a: real)
    ensures a >= 0.0 && (a == x || a == -x)
  {
    if x < 0.0 then -x else x
  }

  /** A sign and the digits of n with f decimals. */
  function Render(negative: bool, n: nat, f: nat): string
  {
    var digits := PlacePoint(NatToString(n), f);
    if negative then "-" + digits else digits
  }

  /** |x| times 10^f: the magnitude toFixed rounds to a whole number. */
  function Magnitude(x: real, f: nat): (y: real)
    ensures y >= 0.0
    ensures y == 0.0 <==> x == 0.0
  {
    Abs(x) * (Pow10(f) as real)
  }

  /** `x.toFixed(f)`: a minus sign for a negative x (so a tiny negative x
      gives "-0.000…"), then the rounded magnitude with exactly f decimals. */
  function ToFixed(x: real, f: nat): string
  {
    Render(x < 0.0, Nearest(Magnitude(x, f)), f)
  }

  /** A parsed rendering: its sign and its magnitude times 10^f. */
  datatype FixedReading = Unreadable | Fixed(negative: bool, scaled: nat)

  /** Reads an unsigned fixed-point rendering with f decimals: a whole part
      of digits, the point, exactly f digits; the digits read with the point
      taken out are the scaled integer. */
  function ParseUnsigned(body: string, f: nat): FixedReading
  {
    if f == 0 then
      if |body| >= 1 && AllDigits(body) then Fixed(false, ParseDigits(body)) else Unreadable
    else if |body| >= f + 2 && body[|body| - f - 1] == '.'
            && AllDigits(body[..|body| - f - 1]) && AllDigits(body[|body| - f..]) then
      Fixed(false, ParseDigits(body[..|body| - f - 1] + body[|body| - f..]))
    else Unreadable
  }

  /** Reads a fixed-point rendering with f decimals and an optional minus sign. */
  function ParseFixed(s: string, f: nat): FixedReading
  {
    if |s| >= 1 && s[0] == '-' then
      var r := ParseUnsigned(s[1..], f);
      if r.Fixed? then Fixed(true, r.scaled) else Unreadable
    else ParseUnsigned(s, f)
  }

  /** Zero padding keeps the digits' value. */
  lemma PaddedParses(m: string, width: nat)
    requires AllDigits(m)
    ensures AllDigits(Padded(m, width)) && ParseDigits(Padded(m, width)) == ParseDigits(m)
  {
    if |m| < width {
      LeadingZeros(width - |m|, m);
    }
  }

  /** Putting the point f digits from the right of a digit string m and
      reading the result back gives m's value. */
  lemma SplitParses(m: string, f: nat)
    requires AllDigits(m) && f >= 1 && |m| >= f + 1
    ensures ParseUnsigned(InsertPoint(m, f), f) == Fixed(false, ParseDigits(m))
  {
    var a, b := m[..|m| - f], m[|m| - f..];
    var s := InsertPoint(m, f);
    assert |s| == |m| + 1 && s[..|s| - f - 1] == a && s[|s| - f..] == b && s[|s| - f - 1] == '.' by {
      assert s == a + "." + b;
    }
    assert AllDigits(a) by {
      assert forall i :: 0 <= i < |a| ==> a[i] == m[i];
    }
    assert AllDigits(b) by {
      assert forall i :: 0 <= i < |b| ==> b[i] == m[|m| - f + i];
    }
    assert a + b == m by {
      assert m == m[..|m| - f] + m[|m| - f..];
    }
    ReadsSplit(s, f);
  }

  /** A body with the point f digits from the right and digits on both sides
      reads as the digits with the point taken out. */
  lemma ReadsSplit(s: string, f: nat)
    requires f >= 1 && |s| >= f + 2 && s[|s| - f - 1] == '.'
    requires AllDigits(s[..|s| - f - 1]) && AllDigits(s[|s| - f..])
    ensures ParseUnsigned(s, f) == Fixed(false, ParseDigits(s[..|s| - f - 1] + s[|s| - f..]))
  {
  }

  /** Placing the point keeps a leading digit and the value of the digits. */
  lemma PlacePointParses(m: string, f: nat)
    requires |m| >= 1 && AllDigits(m)
    ensures var s := PlacePoint(m, f);
            && |s| >= 1 && IsDigit(s[0])
            && ParseUnsigned(s, f) == Fixed(false, ParseDigits(m))
  {
    if f >= 1 {
      var m' := Padded(m, f + 1);
      assert AllDigits(m') && ParseDigits(m') == ParseDigits(m) && |m'| >= f + 1 by {
        PaddedParses(m, f + 1);
      }
      var s := InsertPoint(m', f);
      assert PlacePoint(m, f) == s;
      assert s[0] == m'[0];
      assert ParseUnsigned(s, f) == Fixed(false, ParseDigits(m')) by {
        SplitParses(m', f);
      }
    } else {
      assert PlacePoint(m, f) == m;
      assert ParseUnsigned(m, f) == Fixed(false, ParseDigits(m));
    }
  }

  /** A rendering reads back with its sign and its scaled magnitude. */
  lemma RenderParses(negative: bool, n: nat, f: nat)
    ensures ParseFixed(Render(negative, n, f), f) == Fixed(negative, n)
  {
    var body := PlacePoint(NatToString(n), f);
    NatToStringRoundTrip(n);
    PlacePointParses(NatToString(n), f);
    if negative {
      assert ("-" + body)[1..] == body;
    }
  }

  /** `x.toFixed(f)` reads back as a number with x's sign (a minus sign
      exactly when x is negative) whose magnitude times 10^f is the integer
      nearest to |x| times 10^f, the larger one on a tie. */
  lemma ToFixedReadsBack(x: real, f: nat)
    ensures var v := ParseFixed(ToFixed(x, f), f);
            && v.Fixed? && (v.negative <==> x < 0.0)
            && (v.scaled as real) - 0.5 <= Magnitude(x, f) < (v.scaled as real) + 0.5
  {
    RenderParses(x < 0.0, Nearest(Magnitude(x, f)), f);
  }

  /** The number a rendering with f decimals denotes: the sign applied to
      the scaled digits, divided by 10^f (what `parseFloat` gives back). */
  function Denoted(negative: bool, scaled: nat, f: nat): real
  {
    (if negative then -(scaled as real) else scaled as real) / Pow10(f) as real
  }

  /** `parseFloat(x.toFixed(f))`: x rounded to f decimals, halves away from
      zero. */
  function FixedValue(x: real, f: nat): real
  {
    Denoted(x < 0.0, Nearest(Magnitude(x, f)), f)
  }

  /** FixedValue is the number the rendering `x.toFixed(f)` denotes. */
  lemma FixedValueReadsToFixed(x: real, f: nat)
    ensures var v := ParseFixed(ToFixed(x, f), f);
            v.Fixed? && FixedValue(x, f) == Denoted(v.negative, v.scaled, f)
  {
    var n := Nearest(Magnitude(x, f));
    assert ParseFixed(ToFixed(x, f), f) == Fixed(x < 0.0, n) by {
      RenderParses(x < 0.0, n, f);
    }
  }

  /** What a rendering is made of: digits, the point and the minus sign. */
  predicate NumberChar(c: char)
  {
    IsDigit(c) || c == '.' || c == '-'
  }

  /** `x.toFixed(f)` is never empty and uses only digits, the point and a
      leading minus sign; in particular it has no comma or space. */
  lemma ToFixedChars(x: real, f: nat)
    ensures var s := ToFixed(x, f);
            && |s| >= 1
            && forall i :: 0 <= i < |s| ==> NumberChar(s[i])
  {
    var m := NatToString(Nearest(Magnitude(x, f)));
    PlacePointChars(m, f);
  }

  lemma PlacePointChars(m: string, f: nat)
    requires |m| >= 1 && AllDigits(m)
    ensures var s := PlacePoint(m, f);
            && |s| >= 1
            && forall i :: 0 <= i < |s| ==> NumberChar(s[i])
  {
    if f >= 1 {
      var m' := Padded(m, f + 1);
      assert AllDigits(m') && |m'| >= f + 1 by {
        PaddedParses(m, f + 1);
      }
      var a, b := m'[..|m'| - f], m'[|m'| - f..];
      assert AllDigits(a) && AllDigits(b) by {
        assert forall i :: 0 <= i < |a| ==> a[i] == m'[i];
        assert forall i :: 0 <= i < |b| ==> b[i] == m'[|m'| - f + i];
      }
      var s := InsertPoint(m', f);
      assert s == a + "." + b;
      assert PlacePoint(m, f) == s;
      forall i | 0 <= i < |s| ensures NumberChar(s[i]) {
        if i < |a| {
          assert s[i] == a[i];
        } else if i > |a| {
          assert s[i] == b[i - |a| - 1];
        }
      }
    } else {
      assert PlacePoint(m, f) == m;
    }
  }
}
