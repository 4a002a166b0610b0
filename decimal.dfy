/** Decimal text for numbers, as Go's fmt verbs `%d`, `%.1f` and `%.2f` print
    them: the digits of a natural number, zero padding, and fixed-point
    rendering of an exact real rounded half-to-even. */
module Decimal {

  predicate IsDigit(c: char) { '0' <= c <= '9' }

  predicate AllDigits(s: string) { forall i :: 0 <= i < |s| ==> IsDigit(s[i]) }

  function DigitChar(d: nat): (c: char)
    requires d < 10
    ensures IsDigit(c) && c as int - '0' as int == d
  {
    ('0' as int + d) as char
  }

  function DigitValue(c: char): nat
    requires IsDigit(c)
  {
    c as int - '0' as int
  }

  function Pow10(p: nat): (r: nat)
    ensures r >= 1
  {
    if p == 0 then 1 else 10 * Pow10(p - 1)
  }

  /** The value of a string of decimal digits, most significant first. */
  function DigitsValue(s: string): nat
    requires AllDigits(s)
  {
    if s == [] then 0 else 10 * DigitsValue(s[..|s| - 1]) + DigitValue(s[|s| - 1])
  }

  /** A string of k digits reads as less than 10^k. */
  lemma {:induction false} DigitsBound(s: string)
    requires AllDigits(s)
    ensures DigitsValue(s) < Pow10(|s|)
  {
    if s != [] {
      DigitsBound(s[..|s| - 1]);
    }
  }

  /** `%d` of a natural number: its digits without leading zeros ("0" for zero). */
  function NatToString(n: nat): (s: string)
    ensures |s| >= 1 && AllDigits(s)
    ensures |s| > 1 ==> s[0] != '0'
  {
    if n < 10 then [DigitChar(n)] else NatToString(n / 10) + [DigitChar(n % 10)]
  }

  /** Reading back the digits of `n` gives `n`. */
  lemma {:induction false} NatToStringRoundTrip(n: nat)
    ensures DigitsValue(NatToString(n)) == n
  {
    if n >= 10 {
      var s := NatToString(n);
      assert s[..|s| - 1] == NatToString(n / 10);
      NatToStringRoundTrip(n / 10);
    }
  }

  /** A number below 10^w has at most w digits. */
  lemma {:induction false} NatToStringLength(n: nat, w: nat)
    requires w >= 1 && n < Pow10(w)
    ensures |NatToString(n)| <= w
  {
    if n >= 10 {
      NatToStringLength(n / 10, w - 1);
    }
  }

  function Zeros(k: nat): (s: string)
    ensures |s| == k && AllDigits(s)
    ensures forall i :: 0 <= i < k ==> s[i] == '0'
  {
    if k == 0 then [] else Zeros(k - 1) + ['0']
  }

  /** The digits of `n`, left-padded with zeros to at least `width` characters
      (`%02d`, and the fraction part of `%.Nf`). */
  function ZeroPad(n: nat, width: nat): (s: string)
    ensures AllDigits(s)
  {
    var d := NatToString(n);
    if |d| >= width then d else Zeros(width - |d|) + d
  }

  lemma ZeroTimes(a: int)
    ensures 0 * a == 0
  {}

  lemma ModBounds(q: nat, p: nat)
    requires p >= 1
    ensures 0 <= q % p < p && q / p >= 0
  {}

  lemma DivMod(q: nat, p: nat)
    requires p >= 1
    ensures (q / p) * p + q % p == q
  {}

  /** Remainder of `q` by `p`, as a natural number below `p`. */
  function Rem(q: nat, p: nat): (r: nat)
    requires p >= 1
    ensures r < p
  {
    ModBounds(q, p);
    q % p
  }

  /** Quotient of `q` by `p`; with `Rem` it recovers `q`. */
  function Quot(q: nat, p: nat): (r: nat)
    requires p >= 1
    ensures r * p + Rem(q, p) == q
  {
    ModBounds(q, p);
    DivMod(q, p);
    q / p
  }

  lemma Scale10(a: int, b: int)
    ensures 10 * (a * b) == a * (10 * b)
  {}

  /** The arithmetic of one step of `DigitsValueAppend`. */
  lemma AppendStep(va: int, vb': int, p': int, d: int, vab: int, vb: int, pb: int)
    requires vab == 10 * (va * p' + vb') + d && vb == 10 * vb' + d && pb == 10 * p'
    ensures vab == va * pb + vb
  {
    Scale10(va, p');
  }

  lemma {:induction false} DigitsValueAppend(a: string, b: string)
    requires AllDigits(a) && AllDigits(b)
    ensures AllDigits(a + b)
    ensures DigitsValue(a + b) == DigitsValue(a) * Pow10(|b|) + DigitsValue(b)
  {
    assert AllDigits(a + b) by {
      forall i | 0 <= i < |a + b| ensures IsDigit((a + b)[i]) {
        if i >= |a| { assert (a + b)[i] == b[i - |a|]; }
      }
    }
    if b != [] {
      var ab := a + b;
      var b' := b[..|b| - 1];
      assert ab[..|ab| - 1] == a + b';
      assert ab[|ab| - 1] == b[|b| - 1];
      DigitsValueAppend(a, b');
      AppendStep(DigitsValue(a), DigitsValue(b'), Pow10(|b'|), DigitValue(b[|b| - 1]),
                 DigitsValue(ab), DigitsValue(b), Pow10(|b|));
    } else {
      assert a + b == a;
    }
  }

  lemma {:induction false} ZerosValue(k: nat)
    ensures DigitsValue(Zeros(k)) == 0
  {
    if k > 0 {
      assert Zeros(k)[..k - 1] == Zeros(k - 1);
      ZerosValue(k - 1);
    }
  }

  /** Zero padding keeps the value and, below 10^width, gives exactly `width` digits. */
  lemma ZeroPadFacts(n: nat, width: nat)
    requires width >= 1 && n < Pow10(width)
    ensures |ZeroPad(n, width)| == width
    ensures DigitsValue(ZeroPad(n, width)) == n
  {
    NatToStringLength(n, width);
    NatToStringRoundTrip(n);
    var d := NatToString(n);
    if |d| < width {
      DigitsValueAppend(Zeros(width - |d|), d);
      ZerosValue(width - |d|);
      assert ZeroPad(n, width) == Zeros(width - |d|) + d;
      var z := DigitsValue(Zeros(width - |d|));
      assert z == 0;
      assert DigitsValue(ZeroPad(n, width)) == z * Pow10(|d|) + DigitsValue(d);
      ZeroTimes(Pow10(|d|));
    }
  }

  /** The integer nearest to `x`; on an exact tie, the even one. */
  function RoundHalfEven(x: real): (r: int)
    ensures x - 1.0 / 2.0 <= r as real <= x + 1.0 / 2.0
    ensures x >= 0.0 ==> r >= 0
  {
    var f := x.Floor;
    var frac := x - f as real;
    if frac > 1.0 / 2.0 then f + 1
    else if frac < 1.0 / 2.0 then f
    else if f % 2 == 0 then f
    else f + 1
  }

  /** The digits of `q / 10^places`, a point, then the `places` digits of the
      remainder; no point when `places` is zero. */
  function Scaled(q: nat, places: nat): string
  {
    var p := Pow10(places);
    if places == 0 then NatToString(q)
    else NatToString(Quot(q, p)) + "." + ZeroPad(Rem(q, p), places)
  }

  /** |x| shifted left by `places` decimal places. */
  function Shifted(x: real, places: nat): real
  {
    (if x < 0.0 then -x else x) * Pow10(places) as real
  }

  /** `%.Nf` of the exact value `x`: a '-' for a negative value (even one that
      rounds to zero, as Go prints "-0.00"), then the magnitude rounded to
      `places` decimals. */
  function Fixed(x: real, places: nat): string
  {
    (if x < 0.0 then "-" else "") + Scaled(RoundHalfEven(Shifted(x, places)), places)
  }

  /** The digits of a fixed-point text without its sign and point. */
  function Unpointed(s: string): string
  {
    if s == [] then [] else (if s[0] == '-' || s[0] == '.' then [] else [s[0]]) + Unpointed(s[1..])
  }

  lemma {:induction false} UnpointedAppend(a: string, b: string)
    ensures Unpointed(a + b) == Unpointed(a) + Unpointed(b)
  {
    if a != [] {
      assert (a + b)[1..] == a[1..] + b;
      UnpointedAppend(a[1..], b);
    } else {
      assert a + b == b;
    }
  }

  lemma {:induction false} UnpointedDigits(s: string)
    requires AllDigits(s)
    ensures Unpointed(s) == s
  {
    if s != [] {
      UnpointedDigits(s[1..]);
    }
  }

  /** Dropping the point from `hi.lo` joins the two digit runs. */
  lemma UnpointedJoin(hi: string, lo: string)
    requires AllDigits(hi) && AllDigits(lo)
    ensures Unpointed(hi + "." + lo) == hi + lo
  {
    UnpointedAppend(hi + ".", lo);
    UnpointedAppend(hi, ".");
    UnpointedDigits(hi);
    UnpointedDigits(lo);
  }

  /** The integer and fraction digits together read back as `q`. */
  lemma JoinValue(q: nat, places: nat)
    requires places >= 1
    ensures DigitsValue(NatToString(Quot(q, Pow10(places))) + ZeroPad(Rem(q, Pow10(places)), places)) == q
  {
    var p := Pow10(places);
    var hq, lr := Quot(q, p), Rem(q, p);
    var hi, lo := NatToString(hq), ZeroPad(lr, places);
    ZeroPadFacts(lr, places);
    NatToStringRoundTrip(hq);
    JoinedValue(hi, lo, hq, lr, places);
  }

  lemma JoinedValue(hi: string, lo: string, a: nat, b: nat, w: nat)
    requires AllDigits(hi) && AllDigits(lo) && |lo| == w
    requires DigitsValue(hi) == a && DigitsValue(lo) == b
    ensures DigitsValue(hi + lo) == a * Pow10(w) + b
  {
    DigitsValueAppend(hi, lo);
  }

  /** Reading the digits of `Scaled(q, places)` without the point gives `q`. */
  lemma ScaledDigits(q: nat, places: nat)
    ensures AllDigits(Unpointed(Scaled(q, places)))
    ensures DigitsValue(Unpointed(Scaled(q, places))) == q
  {
    if places == 0 {
      UnpointedDigits(Scaled(q, places));
      NatToStringRoundTrip(q);
    } else {
      var p := Pow10(places);
      var hi, lo := NatToString(Quot(q, p)), ZeroPad(Rem(q, p), places);
      UnpointedJoin(hi, lo);
      DigitsValueAppend(hi, lo);
      JoinValue(q, places);
    }
  }

  /** Round trip of fixed-point rendering: the text is negative exactly when
      `x` is, and its digits, read without sign and point, are the integer
      nearest to |x| * 10^places, so the text is within half a unit of the
      last place of `x`. */
  lemma FixedDigits(x: real, places: nat)
    ensures |Fixed(x, places)| >= 1
    ensures Fixed(x, places)[0] == '-' <==> x < 0.0
    ensures AllDigits(Unpointed(Fixed(x, places)))
    ensures Shifted(x, places) - 1.0 / 2.0 <= DigitsValue(Unpointed(Fixed(x, places))) as real <= Shifted(x, places) + 1.0 / 2.0
  {
    var q := RoundHalfEven(Shifted(x, places));
    var sign: string := if x < 0.0 then "-" else "";
    var body := Scaled(q, places);
    assert Fixed(x, places) == sign + body;
    UnpointedAppend(sign, body);
    assert Unpointed(sign) == [];
    ScaledDigits(q, places);
    assert Unpointed(Fixed(x, places)) == Unpointed(body);
    assert body[0] != '-';
  }
}
