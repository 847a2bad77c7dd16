/** What numerals mean: the value of digits, the normal form of decimals, and which decimals Python
    reads as the double one or two. */
module Numerals {
  import opened Results
  import opened Text
  import opened Json

  // ---------------------------------------------------------------- digits and decimals

  /** The first digit counts for a power of ten. */
  lemma {:induction false} FirstDigitCounts(c: char, ds: string)
    requires IsDigit(c)
    ensures NatValue([c] + ds) == DigitValue(c) * Pow10(|ds|) + NatValue(ds)
  {
    var s := [c] + ds;
    if ds == "" {
      assert s[..0] == "" && s[0] == c;
    } else {
      var front, last := ds[..|ds| - 1], ds[|ds| - 1];
      FirstDigitCounts(c, front);
      LastDigitCounts(s, [c] + front, last);
      LastDigitCounts(ds, front, last);
      Shifted(DigitValue(c), Pow10(|front|), NatValue(front), DigitValue(last));
    }
  }

  lemma LastDigitCounts(s: string, front: string, last: char)
    requires s == front + [last]
    ensures NatValue(s) == NatValue(front) * 10 + DigitValue(last)
  {
    assert s[..|s| - 1] == front;
  }

  lemma Shifted(c: int, p: int, front: int, last: int)
    ensures (c * p + front) * 10 + last == c * (10 * p) + (front * 10 + last)
  {
  }

  /** The normal form has the same value: trailing zeroes move into the scale, and none remains. */
  lemma {:induction false} DecimalMeans(digits: int, scale: int)
    ensures Decimal(digits, scale).JFloat?
    ensures var d := Decimal(digits, scale);
      if digits == 0 then d.digits == 0 && d.scale == 0
      else d.digits % 10 != 0 && d.scale >= scale && digits == d.digits * Pow10(d.scale - scale)
    decreases if digits < 0 then -digits else digits
  {
    if digits != 0 && digits % 10 == 0 {
      DecimalMeans(digits / 10, scale + 1);
      var d := Decimal(digits / 10, scale + 1);
      TenTimes(digits, d.digits, Pow10(d.scale - scale - 1));
    } else {
      assert Pow10(0) == 1;
    }
  }

  lemma TenTimes(digits: int, d: int, p: int)
    requires digits % 10 == 0 && digits / 10 == d * p
    ensures digits == d * (10 * p)
  {
  }

  lemma {:induction false} PowPositive(n: nat)
    ensures Pow10(n) > 0
  {
    if n > 0 {
      PowPositive(n - 1);
    }
  }

  // ---------------------------------------------------------------- doubles

  function TwoTo(e: int): real
    decreases if e < 0 then -e else e
  {
    if e == 0 then 1.0 else if e > 0 then 2.0 * TwoTo(e - 1) else TwoTo(e + 1) / 2.0
  }

  /** A double: an integer of at most 53 bits times a power of two. */
  ghost predicate IsDouble(x: real) {
    exists m: int, e: int :: Scaled(x, m, e)
  }

  predicate Scaled(x: real, m: int, e: int) {
    0 <= m < 0x20_0000_0000_0000 && x == m as real * TwoTo(e)
  }

  function Distance(x: real, y: real): real {
    if x < y then y - x else x - y
  }

  /** No double is nearer to x. In a tie Python takes the even one, which one and two are. */
  ghost predicate Nearest(x: real, n: real) {
    IsDouble(n) && forall d: real :: IsDouble(d) ==> Distance(x, n) <= Distance(x, d)
  }

  /** The decimal as a real number. */
  function Exact(digits: int, scale: int): real {
    PowPositive(if scale < 0 then -scale else 0);
    digits as real * Pow10(if scale > 0 then scale else 0) as real / Pow10(if scale < 0 then -scale else 0) as real
  }

  lemma {:induction false} TwoToSum(e: int, k: nat)
    ensures TwoTo(e + k) == TwoTo(e) * TwoTo(k)
    decreases k
  {
    if k > 0 {
      TwoToSum(e, k - 1);
      Doubled(e + k - 1);
    }
  }

  lemma Doubled(e: int)
    ensures TwoTo(e + 1) == 2.0 * TwoTo(e)
  {
  }

  lemma {:induction false} TwoToPositive(e: int)
    ensures TwoTo(e) > 0.0
    decreases if e < 0 then -e else e
  {
    if e > 0 {
      TwoToPositive(e - 1);
    } else if e < 0 {
      TwoToPositive(e + 1);
    }
  }

  lemma {:induction false} TwoToInteger(k: nat) returns (p: int)
    ensures p >= 1 && TwoTo(k) == p as real
  {
    if k == 0 {
      p := 1;
    } else {
      var q := TwoToInteger(k - 1);
      p := 2 * q;
    }
  }

  lemma Powers()
    ensures TwoTo(53) == 9007199254740992.0 && TwoTo(52) == 4503599627370496.0
    ensures TwoTo(-52) * 4503599627370496.0 == 1.0 && TwoTo(-53) * 9007199254740992.0 == 1.0
  {
    assert TwoTo(0) == 1.0;
    assert TwoTo(1) == 2.0 && TwoTo(2) == 4.0 && TwoTo(3) == 8.0 && TwoTo(4) == 16.0 && TwoTo(5) == 32.0;
    assert TwoTo(6) == 64.0;
    assert TwoTo(13) == 8192.0 by { TwoToSum(6, 6); Doubled(12); }
    TwoToSum(13, 13);
    TwoToSum(26, 26);
    Doubled(52);
    TwoToSum(-52, 52);
    TwoToSum(-53, 53);
  }

  /** A double that is large enough is a multiple of a given power. */
  lemma Multiple(x: real, m: int, e: int, low: int) returns (k: int)
    requires Scaled(x, m, e) && e >= low
    ensures k >= 0 && x == k as real * TwoTo(low)
  {
    TwoToSum(low, e - low);
    var p := TwoToInteger(e - low);
    k := m * p;
    Reordered(m as real, TwoTo(low), p as real);
    assert k as real == m as real * p as real;
  }

  lemma Reordered(m: real, t: real, p: real)
    ensures m * (t * p) == (m * p) * t
  {
  }

  /** A double with a small exponent is small. */
  lemma Small(x: real, m: int, e: int, high: int)
    requires Scaled(x, m, e) && e <= high
    ensures x <= 9007199254740991.0 * TwoTo(high)
  {
    TwoToMonotone(e, high);
    TwoToPositive(e);
    Products(m as real, 9007199254740991.0, TwoTo(e), TwoTo(high));
  }

  lemma Products(a: real, b: real, t: real, u: real)
    requires 0.0 <= a <= b && 0.0 <= t <= u
    ensures a * t <= b * u
  {
    assert a * t <= b * t;
    assert b * t <= b * u;
  }

  lemma {:induction false} TwoToMonotone(e: int, high: int)
    requires e <= high
    ensures TwoTo(e) <= TwoTo(high)
    decreases high - e
  {
    if e < high {
      TwoToMonotone(e, high - 1);
      TwoToPositive(high - 1);
      Doubled(high - 1);
    }
  }

  /** The next double above one. */
  lemma AboveOne(d: real)
    requires IsDouble(d) && d > 1.0
    ensures (d - 1.0) * 4503599627370496.0 >= 1.0
  {
    Powers();
    var m, e :| Scaled(d, m, e);
    if e >= -52 {
      var k := Multiple(d, m, e, -52);
      assert d * 4503599627370496.0 == k as real by {
        Reordered(k as real, TwoTo(-52), 4503599627370496.0);
      }
      assert k as real > 4503599627370496.0;
    } else {
      Small(d, m, e, -53);
    }
  }

  /** The next double below one. */
  lemma BelowOne(d: real)
    requires IsDouble(d) && d < 1.0
    ensures (1.0 - d) * 9007199254740992.0 >= 1.0
  {
    Powers();
    var m, e :| Scaled(d, m, e);
    if e >= -53 {
      var k := Multiple(d, m, e, -53);
      assert d * 9007199254740992.0 == k as real by {
        Reordered(k as real, TwoTo(-53), 9007199254740992.0);
      }
      assert k as real < 9007199254740992.0;
    } else {
      Small(d, m, e, -53);
      assert d <= 9007199254740991.0 * TwoTo(-53);
    }
  }

  /** Doubling keeps doubles. */
  lemma Halved(d: real)
    ensures IsDouble(2.0 * d) <==> IsDouble(d)
  {
    if IsDouble(d) {
      var m, e :| Scaled(d, m, e);
      Doubled(e);
      assert Scaled(2.0 * d, m, e + 1);
    }
    if IsDouble(2.0 * d) {
      var m, e :| Scaled(2.0 * d, m, e);
      Doubled(e - 1);
      assert Scaled(d, m, e - 1);
    }
  }

  lemma NeighboursOfOne()
    ensures IsDouble(1.0) && IsDouble(1.0 + 1.0 / 4503599627370496.0) && IsDouble(1.0 - 1.0 / 9007199254740992.0)
  {
    Powers();
    assert TwoTo(0) == 1.0;
    assert Scaled(1.0, 1, 0);
    assert Scaled(1.0 + 1.0 / 4503599627370496.0, 0x10_0000_0000_0001, -52);
    assert Scaled(1.0 - 1.0 / 9007199254740992.0, 0x1F_FFFF_FFFF_FFFF, -53);
  }

  predicate BetweenMidpoints(x: real) {
    1.0 - 1.0 / 18014398509481984.0 <= x <= 1.0 + 1.0 / 9007199254740992.0
  }

  lemma NearestOne(x: real)
    ensures Nearest(x, 1.0) <==> BetweenMidpoints(x)
  {
    NeighboursOfOne();
    if BetweenMidpoints(x) {
      forall d: real | IsDouble(d) ensures Distance(x, 1.0) <= Distance(x, d) {
        if d > 1.0 {
          AboveOne(d);
        } else if d < 1.0 {
          BelowOne(d);
        }
      }
    }
    if Nearest(x, 1.0) {
      assert Distance(x, 1.0) <= Distance(x, 1.0 + 1.0 / 4503599627370496.0);
      assert Distance(x, 1.0) <= Distance(x, 1.0 - 1.0 / 9007199254740992.0);
    }
  }

  lemma NearestTwo(x: real)
    ensures Nearest(x, 2.0) <==> Nearest(x / 2.0, 1.0)
  {
    NeighboursOfOne();
    Halved(1.0);
    if Nearest(x, 2.0) {
      forall d: real | IsDouble(d) ensures Distance(x / 2.0, 1.0) <= Distance(x / 2.0, d) {
        Halved(d);
        assert Distance(x, 2.0) <= Distance(x, 2.0 * d);
      }
    }
    if Nearest(x / 2.0, 1.0) {
      forall d: real | IsDouble(d) ensures Distance(x, 2.0) <= Distance(x, d) {
        Halved(d / 2.0);
        assert Distance(x / 2.0, 1.0) <= Distance(x / 2.0, d / 2.0);
      }
    }
  }

  lemma Quotients(top: real, bottom: real, q: real)
    requires bottom > 0.0
    ensures q * bottom <= top <==> q <= top / bottom
    ensures top <= q * bottom <==> top / bottom <= q
  {
    var x := top / bottom;
    assert x * bottom == top;
    if q <= x {
      assert q * bottom <= x * bottom;
    } else {
      assert q * bottom > x * bottom;
    }
    if x <= q {
      assert x * bottom <= q * bottom;
    } else {
      assert x * bottom > q * bottom;
    }
  }

  /** Both bounds of RoundsTo, over the reals. */
  lemma Bounds(top: int, bottom: int, n: int)
    requires n == 1 || n == 2
    ensures n * (0x40_0000_0000_0000 - 1) * bottom <= top * 0x40_0000_0000_0000
       <==> n as real * (1.0 - 1.0 / 18014398509481984.0) * bottom as real <= top as real
    ensures top * 0x20_0000_0000_0000 <= n * (0x20_0000_0000_0000 + 1) * bottom
       <==> top as real <= n as real * (1.0 + 1.0 / 9007199254740992.0) * bottom as real
  {
    if n == 1 {
      BoundsOfOne(top, bottom);
    } else {
      BoundsOfTwo(top, bottom);
    }
  }

  lemma BoundsOfOne(top: int, bottom: int)
    ensures (0x40_0000_0000_0000 - 1) * bottom <= top * 0x40_0000_0000_0000
       <==> (1.0 - 1.0 / 18014398509481984.0) * bottom as real <= top as real
    ensures top * 0x20_0000_0000_0000 <= (0x20_0000_0000_0000 + 1) * bottom
       <==> top as real <= (1.0 + 1.0 / 9007199254740992.0) * bottom as real
  {
  }

  lemma BoundsOfTwo(top: int, bottom: int)
    ensures 2 * (0x40_0000_0000_0000 - 1) * bottom <= top * 0x40_0000_0000_0000
       <==> 2.0 * (1.0 - 1.0 / 18014398509481984.0) * bottom as real <= top as real
    ensures top * 0x20_0000_0000_0000 <= 2 * (0x20_0000_0000_0000 + 1) * bottom
       <==> top as real <= 2.0 * (1.0 + 1.0 / 9007199254740992.0) * bottom as real
  {
  }

  lemma NearestIs(x: real, n: int)
    requires n == 1 || n == 2
    ensures Nearest(x, n as real)
       <==> && n as real * (1.0 - 1.0 / 18014398509481984.0) <= x
            && x <= n as real * (1.0 + 1.0 / 9007199254740992.0)
  {
    if n == 2 {
      NearestTwo(x);
      NearestOne(x / 2.0);
    } else {
      NearestOne(x);
    }
  }

  /** The bounds of RoundsTo on a fraction. */
  predicate InBounds(top: int, bottom: int, n: int) {
    && n * (0x40_0000_0000_0000 - 1) * bottom <= top * 0x40_0000_0000_0000
    && top * 0x20_0000_0000_0000 <= n * (0x20_0000_0000_0000 + 1) * bottom
  }

  lemma FractionIs(top: int, bottom: int, n: int)
    requires bottom > 0 && (n == 1 || n == 2)
    ensures InBounds(top, bottom, n) <==> Nearest(top as real / bottom as real, n as real)
  {
    var x := top as real / bottom as real;
    Bounds(top, bottom, n);
    Quotients(top as real, bottom as real, n as real * (1.0 - 1.0 / 18014398509481984.0));
    Quotients(top as real, bottom as real, n as real * (1.0 + 1.0 / 9007199254740992.0));
    NearestIs(x, n);
  }

  lemma ExactIs(digits: int, scale: int, up: int, down: int)
    requires up == Pow10(if scale > 0 then scale else 0) && down == Pow10(if scale < 0 then -scale else 0) && down > 0
    ensures Exact(digits, scale) == (digits * up) as real / down as real
    ensures RoundsTo(digits, scale, 1) <==> InBounds(digits * up, down, 1)
    ensures RoundsTo(digits, scale, 2) <==> InBounds(digits * up, down, 2)
  {
    assert (digits * up) as real == digits as real * up as real;
  }

  /** Main result: the decimals that are read as one, and as two, are those with that nearest double. */
  lemma RoundsToNearest(digits: int, scale: int, n: int)
    requires n == 1 || n == 2
    ensures RoundsTo(digits, scale, n) <==> Nearest(Exact(digits, scale), n as real)
  {
    var up, down := Pow10(if scale > 0 then scale else 0), Pow10(if scale < 0 then -scale else 0);
    PowPositive(if scale < 0 then -scale else 0);
    ExactIs(digits, scale, up, down);
    FractionIs(digits * up, down, n);
  }
}
