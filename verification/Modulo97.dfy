/** Arithmetic modulo 97: what the IBAN check needs to know about remainders, and about ten, which is
of order 96. */
module Modulo97 {

  lemma ModShift(a: int, k: int)
    ensures (97 * k + a) % 97 == a % 97
  {
  }

  lemma ModStep(n: nat, w: nat, v: nat)
    requires w == 10 || w == 100
    ensures (n * w + v) % 97 == ((n % 97) * w + v) % 97
  {
    var q := n / 97;
    assert n == 97 * q + n % 97;
    assert n * w + v == 97 * (q * w) + ((n % 97) * w + v) by {
      if w == 10 {
        assert n * 10 == 97 * (q * 10) + (n % 97) * 10;
      } else {
        assert n * 100 == 97 * (q * 100) + (n % 97) * 100;
      }
    }
    ModShift((n % 97) * w + v, q * w);
  }

  lemma ModStepSum(a: nat, n: nat)
    ensures (a + n) % 97 == (a % 97 + n) % 97
  {
    assert a == 97 * (a / 97) + a % 97;
    ModShift(a % 97 + n, a / 97);
  }

  lemma UnitStep(r: nat, q: nat, w: nat, v: nat)
    requires r < 97 && q < 97 && (w == 10 || w == 100) && (r * w + v) % 97 == (q * w + v) % 97
    ensures r == q
  {
    if w == 10 { UnitStepTen(r, q, v); } else { UnitStepHundred(r, q, v); }
  }

  lemma UnitStepTen(r: nat, q: nat, v: nat)
    requires r < 97 && q < 97 && (r * 10 + v) % 97 == (q * 10 + v) % 97
    ensures r == q
  {
    var d, k := r - q, (r * 10 + v) / 97 - (q * 10 + v) / 97;
    assert 10 * d == 97 * k;
    assert d == 97 * (68 * k - 7 * d);
  }

  lemma UnitStepHundred(r: nat, q: nat, v: nat)
    requires r < 97 && q < 97 && (r * 100 + v) % 97 == (q * 100 + v) % 97
    ensures r == q
  {
    var d, k := r - q, (r * 100 + v) / 97 - (q * 100 + v) / 97;
    assert 100 * d == 97 * k;
    assert d == 97 * (65 * k - 67 * d);
  }

  lemma SwapGap(r: nat, u: nat, v: nat, wx: nat, wy: nat)
    requires (wx == 10 || wx == 100) && (wy == 10 || wy == 100)
    ensures (r * wx + u) * wy + v - ((r * wy + v) * wx + u) == u * (wy - 1) - v * (wx - 1)
  {
  }

  lemma SmallDifference(a: nat, b: nat, d: int)
    requires a - b == d
    ensures a % 97 == b % 97 <==> d % 97 == 0
  {
    assert a == 97 * (a / 97) + a % 97 && b == 97 * (b / 97) + b % 97;
    var k, l := a / 97 - b / 97, d / 97;
    assert a % 97 == b % 97 ==> d == 97 * k;
    ModShift(b, l);
    assert d % 97 == 0 ==> a == 97 * l + b;
  }

  lemma NineTimes(e: int)
    requires -97 < e < 97
    ensures (9 * e) % 97 == 0 <==> e == 0
    ensures (-9 * e) % 97 == 0 <==> e == 0
  {
    var k, m := (9 * e) / 97, (-9 * e) / 97;
    if (9 * e) % 97 == 0 { assert e == 97 * (54 * k - 5 * e); }
    if (-9 * e) % 97 == 0 { assert e == 97 * (-54 * m - 5 * e); }
  }

  lemma SwapDifference(u: nat, v: nat, d: int)
    requires u < 36 && v < 36
    requires d == u * ((if v < 10 then 10 else 100) - 1) - v * ((if u < 10 then 10 else 100) - 1)
    ensures d % 97 == 0 <==> u == v || (u < 10 <= v && v == 11 * u) || (v < 10 <= u && u == 11 * v)
  {
    if u < 10 && v < 10 {
      assert d == 9 * (u - v);
    } else if u >= 10 && v >= 10 {
      assert d == 97 * (u - v) + 2 * (u - v);
      ModShift(2 * (u - v), u - v);
    } else if u < 10 {
      assert d == 9 * (11 * u - v);
      NineTimes(11 * u - v);
    } else {
      assert d == -9 * (11 * v - u);
      NineTimes(11 * v - u);
    }
  }

  lemma OneIsReached(m: nat, n: nat)
    requires m < 97 && n < 100
    ensures (m + n) % 97 == 1 <==> n % 97 == (98 - m) % 97
    ensures 2 <= n <= 98 ==> (n % 97 == (98 - m) % 97 <==> n == 98 - m)
  {
  }

  // ---- Shifting by digits -----------------------------------------------------------------------

  /** d times the n-th power of ten, modulo 97. */
  function Times(d: nat, n: nat): nat
    decreases n
  {
    if n == 0 then d else Times(d, n - 1) * 10 % 97
  }

  lemma {:induction false} TimesSplit(d: nat, a: nat, b: nat)
    ensures Times(d, a + b) == Times(Times(d, a), b)
  {
    if b > 0 { TimesSplit(d, a, b - 1); }
  }

  lemma {:induction false} TimesBelow(d: nat, n: nat)
    requires d < 97
    ensures Times(d, n) < 97
  {
    if n > 0 { TimesBelow(d, n - 1); }
  }

  lemma {:induction false} ZeroStays(n: nat)
    ensures Times(0, n) == 0
  {
    if n > 0 { ZeroStays(n - 1); }
  }

  lemma AddStep(s: nat, t: nat)
    ensures (s + t) % 97 * 10 % 97 == (s * 10 % 97 + t * 10 % 97) % 97
  {
    var m, p, q := (s + t) / 97, s * 10 / 97, t * 10 / 97;
    assert (s + t) % 97 * 10 == 97 * (p + q - 10 * m) + (s * 10 % 97 + t * 10 % 97);
    ModShift(s * 10 % 97 + t * 10 % 97, p + q - 10 * m);
  }

  lemma {:induction false} TimesAdds(a: nat, b: nat, n: nat)
    requires a < 97 && b < 97
    ensures Times((a + b) % 97, n) == (Times(a, n) + Times(b, n)) % 97
  {
    if n > 0 {
      TimesAdds(a, b, n - 1);
      AddStep(Times(a, n - 1), Times(b, n - 1));
    }
  }

  lemma ProductStep(d: nat, t: nat)
    requires d > 0
    ensures d * t == (d - 1) * t + t && t * d == t * (d - 1) + t
  {
  }

  lemma OneMore(d: nat, t: nat)
    requires d > 0
    ensures ((d - 1) * t % 97 + t) % 97 == d * t % 97
  {
    ProductStep(d, t);
    SumModulo((d - 1) * t, t, d * t);
  }

  lemma SumModulo(m: nat, t: nat, sum: nat)
    requires sum == m + t
    ensures (m % 97 + t) % 97 == sum % 97
  {
    ModStepSum(m, t);
  }

  lemma {:induction false} TimesScales(d: nat, n: nat)
    ensures Times(d % 97, n) == d * Times(1, n) % 97
  {
    if d > 0 {
      TimesScales(d - 1, n);
      ModStepSum(d - 1, 1);
      TimesAdds((d - 1) % 97, 1, n);
      OneMore(d, Times(1, n));
    } else {
      ZeroStays(n);
    }
  }

  lemma TimesProduct(a: nat, b: nat)
    ensures Times(1, a + b) == Times(1, a) * Times(1, b) % 97
  {
    var t := Times(1, a);
    TimesBelow(1, a);
    TimesSplit(1, a, b);
    Small(t);
    TimesScales(t, b);
  }

  lemma Small(t: nat)
    requires t < 97
    ensures t % 97 == t
  {
  }

  lemma TwoMoreDigits(d: nat, n: nat)
    ensures Times(d, n + 1) == Times(d, n) * 10 % 97 && Times(d, n + 2) == Times(d, n) * 100 % 97
  {
    var t := Times(d, n);
    assert Times(d, n + 1) == t * 10 % 97;
    ModShift(t * 10 % 97 * 10, t * 10 / 97 * 10);
    assert t * 100 == 97 * (t * 10 / 97 * 10) + t * 10 % 97 * 10;
  }

  lemma ApartStep(a: nat, b: nat, w: nat, v: nat)
    requires a < 97 && b < 97 && (w == 10 || w == 100)
    ensures ((a * w + v) % 97 - (b * w + v) % 97) % 97 == (a - b) % 97 * w % 97
  {
    var d, e := (a - b) % 97, (a - b) / 97;
    var p, q := (a * w + v) / 97, (b * w + v) / 97;
    assert a - b == 97 * e + d;
    var k := e * w - p + q;
    if w == 10 {
      assert (a * 10 + v) % 97 - (b * 10 + v) % 97 == 97 * k + d * 10;
    } else {
      assert (a * 100 + v) % 97 - (b * 100 + v) % 97 == 97 * k + d * 100;
    }
    ModShift(d * w, k);
  }

  // ---- 97 is prime ------------------------------------------------------------------------------

  /** What a shift leaves alone, its multiples it leaves alone. */
  lemma {:induction false} MultiplesStay(d: nat, k: nat, n: nat)
    requires d < 97 && Times(d, n) == d
    ensures Times(k * d % 97, n) == k * d % 97
  {
    if k > 0 {
      var m := (k - 1) * d;
      MultiplesStay(d, k - 1, n);
      ModStepSum(m, d);
      assert k * d == m + d;
      SumStays(m % 97, d, k * d % 97, n);
    } else {
      ZeroStays(n);
    }
  }

  lemma SumStays(x: nat, d: nat, y: nat, n: nat)
    requires x < 97 && d < 97 && y == (x + d) % 97 && Times(d, n) == d && Times(x, n) == x
    ensures Times(y, n) == y
  {
    TimesAdds(x, d, n);
  }

  lemma NoFactor(a: nat, b: nat)
    requires 2 <= a <= 9
    ensures a * b != 97
  {
    assert a == 2 || a == 3 || a == 4 || a == 5 || a == 6 || a == 7 || a == 8 || a == 9;
  }

  lemma NoDivisor(d: nat)
    requires 2 <= d < 97
    ensures 97 % d != 0
  {
    var q := 97 / d;
    assert 97 == q * d + 97 % d;
    if d <= 9 {
      NoFactor(d, q);
    } else {
      assert q >= 10 ==> q * d >= 10 * d;
      if q >= 2 { NoFactor(q, d); }
    }
  }

  lemma NextSmaller(d: nat)
    requires 2 <= d < 97 && 97 % d != 0
    ensures (97 / d + 1) * d % 97 == d - 97 % d > 0
  {
    var q := 97 / d;
    assert (q + 1) * d == q * d + d && q * d == 97 - 97 % d;
    ModShift(d - 97 % d, 1);
  }

  /** 97 is prime: a shift that leaves anything but 0 alone leaves 1 alone. */
  lemma {:induction false} OneStays(d: nat, n: nat)
    requires 0 < d < 97 && Times(d, n) == d
    ensures Times(1, n) == 1
    decreases d
  {
    if d > 1 {
      NoDivisor(d);
      NextSmaller(d);
      MultiplesStay(d, 97 / d + 1, n);
      OneStays(d - 97 % d, n);
    }
  }

  // ---- Ten is of order 96 -----------------------------------------------------------------------

  /** f multiplies, modulo 97, where its arguments add. */
  predicate Joins(f: nat -> nat, a: nat, b: nat) { f(a + b) == f(a) * f(b) % 97 }

  lemma Squares(f: nat -> nat, n: nat, p: nat, q: nat)
    requires Joins(f, n, n) && f(n) == p && q == p * p % 97
    ensures f(2 * n) == q
  {
    assert n + n == 2 * n;
  }

  /** By repeated squaring, from the first power to the 16th, 32nd, 48th, 64th and 96th. */
  lemma PowersOf(f: nat -> nat, n: nat)
    requires (forall a, b :: Joins(f, a, b)) && f(n) == 10
    ensures f(32 * n) == 61 && f(48 * n) == 96 && f(64 * n) == 35 && f(96 * n) == 1
  {
    Squares(f, n, 10, 3);
    Squares(f, 2 * n, 3, 9);
    Squares(f, 4 * n, 9, 81);
    Squares(f, 8 * n, 81, 62);
    Squares(f, 16 * n, 62, 61);
    Squares(f, 32 * n, 61, 35);
    assert Joins(f, 16 * n, 32 * n) && 16 * n + 32 * n == 48 * n;
    Squares(f, 48 * n, 96, 1);
  }

  lemma KnownPowers() returns (third: nat, half: nat, thirds: nat, turn: nat)
    ensures third == 32 && half == 48 && thirds == 64 && turn == 96
    ensures Times(1, third) == 61 && Times(1, half) == 96 && Times(1, thirds) == 35 && Times(1, turn) == 1
  {
    var f, one := (m: nat) => Times(1, m), 1;
    forall a: nat, b: nat ensures Joins(f, a, b) { TimesProduct(a, b); }
    assert f(one) == 10 by { assert Times(1, one - 1) == 1; }
    PowersOf(f, one);
    third, half, thirds, turn := 32 * one, 48 * one, 64 * one, 96 * one;
    assert f(third) == 61 && f(half) == 96 && f(thirds) == 35 && f(turn) == 1;
  }

  lemma {:induction false} Turns(n: nat, k: nat, rest: nat)
    requires Times(1, n) == 1
    ensures Times(1, n * k + rest) == Times(1, rest)
  {
    if k > 0 {
      Turns(n, k - 1, rest);
      ProductStep(k, n);
      OneTurn(n, n * (k - 1) + rest);
    }
  }

  lemma OneTurn(n: nat, more: nat)
    requires Times(1, n) == 1
    ensures Times(1, n + more) == Times(1, more)
  {
    TimesSplit(1, n, more);
  }

  /** If the n-th power were 1, so would be any that differs from a multiple of n by whole turns. */
  lemma NotOneBy(n: nat, k: nat, turn: nat, turns: nat, r: nat)
    requires Times(1, turn) == 1 && Times(1, r) != 1 && turn == 96 && n * k == 96 * turns + r
    ensures Times(1, n) != 1
  {
    if Times(1, n) == 1 {
      Turns(n, k, 0);
      Turns(turn, turns, r);
    }
  }

  lemma Halving(m: nat) returns (k: nat, turns: nat)
    requires 0 < m < 32
    ensures 3 * m * k == 96 * turns + 48
  {
    if m % 2 == 1 {
      return 16, m / 2;
    } else if m % 4 == 2 {
      return 8, m / 4;
    } else if m % 8 == 4 {
      return 4, m / 8;
    } else if m % 16 == 8 {
      return 2, m / 16;
    } else {
      return 1, 0;
    }
  }

  lemma HalfTurn(n: nat, m: nat, turn: nat, half: nat)
    requires Times(1, turn) == 1 && Times(1, half) != 1 && turn == 96 && half == 48 && n == 3 * m && 0 < m < 32
    ensures Times(1, n) != 1
  {
    var k, turns := Halving(m);
    NotOneBy(n, k, turn, turns, half);
  }

  lemma NeverOne(n: nat)
    requires 0 < n < 96
    ensures Times(1, n) != 1
  {
    var third, half, thirds, turn := KnownPowers();
    if n % 3 == 0 {
      HalfTurn(n, n / 3, turn, half);
    } else if n % 3 == 1 {
      NotOneBy(n, 32, turn, n / 3, third);
    } else {
      NotOneBy(n, 32, turn, n / 3, thirds);
    }
  }

  /** A shift of at least one and fewer than 96 digits moves every remainder but 0. */
  lemma ShiftMoves(d: nat, n: nat)
    requires 0 < d < 97 && 0 < n < 96
    ensures Times(d, n) != d
  {
    NeverOne(n);
    if Times(d, n) == d { OneStays(d, n); }
  }

  lemma NotCongruent(x: int, d: nat)
    requires d < 97 && x % 97 != d
    ensures (x - d) % 97 != 0
  {
    var k := (x - d) / 97;
    assert x - d == 97 * k + (x - d) % 97;
    ModShift(d, k);
  }

  lemma ShiftsToOther(d: nat, n: nat, w: nat)
    requires 0 < d < 97 && n + 2 < 96 && (w == 10 || w == 100)
    ensures Times(d, n) * w % 97 != d
  {
    TwoMoreDigits(d, n);
    if w == 10 { ShiftMoves(d, n + 1); } else { ShiftMoves(d, n + 2); }
  }

  /** Remainders a and b, as far apart as v and u shifted by n digits: followed by u and v, in that
      order, they stay apart. */
  lemma SwapDiffers(a: nat, b: nat, v: nat, u: nat, w: nat, n: nat)
    requires u < v < 97 && n + 2 < 96 && (w == 10 || w == 100)
    requires (a - b) % 97 == Times((v - u) % 97, n)
    ensures (a * w + u) % 97 != (b * w + v) % 97
  {
    var d, e, t := v - u, (a - b) / 97, Times(v - u, n);
    assert d % 97 == d;
    ShiftsToOther(d, n, w);
    NotCongruent(t * w, d);
    ModShift(t * w - d, e * w);
    GapOf(a, b, e, t, w);
    SmallDifference(a * w + u, b * w + v, 97 * (e * w) + (t * w - d));
  }

  lemma GapOf(a: nat, b: nat, e: int, t: nat, w: nat)
    requires a - b == 97 * e + t && (w == 10 || w == 100)
    ensures a * w - b * w == 97 * (e * w) + t * w
  {
  }
}
