/** Folding of division, remainder and shifts.  Unlike sums and products these depend on
    more of the operands' payloads than the bits of their type: the folder computes with
    all 64 bits, so a constant that was left wider by a truncation can give a wrong result.
    This module says exactly when. */
module ConstFoldDiv {
  import opened ConstFold

  // ---------------------------------------------------------------- integers

  /** Division that truncates toward zero. */
  function Quotient(x: int, d: int): int
    requires d != 0
  {
    if x >= 0 then x / d else -((-x) / d)
  }

  function Remainder(x: int, d: int): int
    requires d != 0
  {
    x - d * Quotient(x, d)
  }

  function Abs(x: int): nat {
    if x < 0 then -x else x
  }

  lemma RemainderRange(x: int, d: int)
    requires d != 0
    ensures x == d * Quotient(x, d) + Remainder(x, d) && Abs(Remainder(x, d)) < Abs(d)
    ensures x >= 0 ==> Remainder(x, d) >= 0
    ensures x <= 0 ==> Remainder(x, d) <= 0
  {
    var y := Abs(x);
    assert y == d * (y / d) + y % d;
    assert x < 0 ==> d * -(y / d) == -(d * (y / d));
  }

  lemma Cancel(d: int, a: int, b: int)
    requires d != 0 && d * a == d * b
    ensures a == b
  {
    assert d * (a - b) == 0;
  }

  /** Two numbers that agree modulo m, divided by d: their quotients agree modulo m exactly
      if the remainders are equal and the numbers agree modulo m times d. */
  lemma QuotientsAgree(x: int, y: int, d: int, q: int, p: int, r: int, s: int, m: int)
    requires d != 0 && m > 0 && Congruent(x, y, m)
    requires x == d * q + r && y == d * p + s && Abs(r - s) < m
    ensures Congruent(q, p, m) <==> r == s && Congruent(x, y, m * d)
  {
    hide Congruent;
    var k := FactorOf(x, y, m);
    if Congruent(q, p, m) {
      var t := FactorOf(q, p, m);
      assert d * q == d * (p + t * m) == d * p + t * (m * d) by { Spread(d, p, t, m); }
      assert (k - t * d) * m == r - s by { SpreadDown(k, t, d, m); }
      NoSmallMultiple(k - t * d, m, r - s);
      Makes(x, y, m * d, t);
    }
    if r == s && Congruent(x, y, m * d) {
      var t := FactorOf(x, y, m * d);
      assert d * (p + t * m) == d * p + t * (m * d) by { Spread(d, p, t, m); }
      Cancel(d, q, p + t * m);
      Makes(q, p, m, t);
    }
  }

  lemma FactorOf(x: int, y: int, m: int) returns (k: int)
    requires Congruent(x, y, m)
    ensures x == y + k * m
  {
    k :| Differ(x, y, m, k);
  }

  lemma Makes(x: int, y: int, m: int, k: int)
    requires x == y + k * m
    ensures Congruent(x, y, m)
  {
    assert Differ(x, y, m, k);
  }

  lemma Spread(d: int, p: int, t: int, m: int)
    ensures d * (p + t * m) == d * p + t * (m * d)
  {
  }

  lemma SpreadDown(k: int, t: int, d: int, m: int)
    ensures (k - t * d) * m == k * m - t * (m * d)
  {
  }

  /** Two numbers have the same truncated remainder exactly if they differ by a multiple of
      the divisor and, unless it divides them, have the same sign. */
  lemma RemaindersEqual(x: int, y: int, d: int)
    requires d != 0
    ensures Remainder(x, d) == Remainder(y, d) <==>
              Congruent(x, y, d) && (Remainder(y, d) == 0 || (x < 0 <==> y < 0))
  {
    hide Quotient, Remainder, Congruent;
    RemainderRange(x, d);
    RemainderRange(y, d);
    var q, p := Quotient(x, d), Quotient(y, d);
    var r, s := Remainder(x, d), Remainder(y, d);
    if r == s {
      assert d * q == d * p + (q - p) * d;
      Makes(x, y, d, q - p);
    }
    if Congruent(x, y, d) && (s == 0 || (x < 0 <==> y < 0)) {
      var k := FactorOf(x, y, d);
      assert (k + p - q) * d == r - s;
      SameSize(k + p - q, d, r - s);
    }
  }

  lemma SameSize(k: int, d: int, r: int)
    requires d != 0 && k * d == r && Abs(r) < Abs(d)
    ensures r == 0
  {
    if d < 0 {
      assert (-k) * (-d) == r;
      NoSmallMultiple(-k, -d, r);
    } else {
      NoSmallMultiple(k, d, r);
    }
  }

  // ---------------------------------------------------------------- constants

  /** An operand as the folder reads it: 64 bits, signed or not. */
  function Wide(c: Const): int
    requires c.type_.Int?
  {
    if c.type_.signed then Signed(c.payload, 64) else c.payload
  }

  /** The number a constant of an integer type stands for. */
  function Number(c: Const): int
    requires c.type_.Int?
  {
    if c.type_.signed then Signed(Bits(c), c.type_.width) else Bits(c)
  }

  predicate InRange(t: Type, x: int)
    requires t.Int? && t.width > 0
  {
    if t.signed then 0 - Pow2(t.width - 1) <= x < Pow2(t.width - 1) else 0 <= x < Pow2(t.width)
  }

  predicate ValidInt(c: Const) {
    ValidConst(c) && c.type_.Int?
  }

  /** The payload is that of the number. */
  predicate Normal(c: Const)
    requires c.type_.Int?
  {
    Wide(c) == Number(c)
  }

  lemma Halves(w: nat)
    requires w > 0
    ensures Pow2(w) == 2 * Pow2(w - 1)
  {
  }

  lemma SignedRange(x: nat, w: nat)
    requires w > 0 && x < Pow2(w)
    ensures 0 - Pow2(w - 1) <= Signed(x, w) < Pow2(w - 1) && Congruent(Signed(x, w), x, Pow2(w))
  {
    Halves(w);
    hide Pow2;
    SignedCongruent(x, w);
  }

  lemma NumberInRange(c: Const)
    requires ValidInt(c)
    ensures InRange(c.type_, Number(c)) && Congruent(Wide(c), Number(c), Pow2(c.type_.width))
  {
    hide Pow2, Signed, Congruent;
    var w := c.type_.width;
    PayloadCongruent(c, w);
    if c.type_.signed {
      SignedRange(Bits(c), w);
      SignedRange(c.payload, 64);
      ClosedUnder(Signed(c.payload, 64), c.payload, w);
      CongruentTrans(Wide(c), c.payload, Bits(c), Pow2(w));
      CongruentSym(Number(c), Bits(c), Pow2(w));
      CongruentTrans(Wide(c), Bits(c), Number(c), Pow2(w));
    }
  }

  /** What agrees modulo 2^64 agrees modulo a smaller power. */
  lemma ClosedUnder(x: int, y: int, w: nat)
    requires w <= 64 && Congruent(x, y, Pow2(64))
    ensures Congruent(x, y, Pow2(w))
  {
    hide Pow2, Congruent;
    var k := FactorOf(x, y, Pow2(64));
    Pow2Sum(64 - w, w);
    assert 64 - w + w == 64;
    Associate(k, Pow2(64 - w), Pow2(w));
    Makes(x, y, Pow2(w), k * Pow2(64 - w));
  }

  /** Numbers of the type that agree modulo its power are equal. */
  lemma OneNumber(t: Type, x: int, y: int)
    requires ValidType(t) && t.Int? && InRange(t, x) && InRange(t, y) && Congruent(x, y, Pow2(t.width))
    ensures x == y
  {
    Halves(t.width);
    hide Pow2, Congruent;
    var k := FactorOf(x, y, Pow2(t.width));
    NoSmallMultiple(k, Pow2(t.width), x - y);
  }

  /** A constant is normal exactly if the folder reads a number of the type. */
  lemma NormalIs(c: Const)
    requires ValidInt(c)
    ensures Normal(c) <==> InRange(c.type_, Wide(c))
  {
    hide Pow2, Congruent, Wide, Number;
    NumberInRange(c);
    if InRange(c.type_, Wide(c)) {
      OneNumber(c.type_, Wide(c), Number(c));
    }
  }

  // ---------------------------------------------------------------- the folds

  /** Cast to the type and stored. */
  function Result(t: Type, x: int): Const
    requires t.Int? && ValidType(t)
  {
    Const(t, Canonical(t, x % Pow2(64)))
  }

  function FoldDiv(a: Const, b: Const): Const
    requires ValidInt(a) && ValidInt(b) && Wide(b) != 0
  {
    Result(a.type_, Quotient(Wide(a), Wide(b)))
  }

  function FoldRem(a: Const, b: Const): Const
    requires ValidInt(a) && ValidInt(b) && Wide(b) != 0
  {
    Result(a.type_, Remainder(Wide(a), Wide(b)))
  }

  /** Counts of 64 and more, which C leaves undefined, are taken modulo 64, as on x86. */
  function FoldShl(a: Const, b: Const): Const
    requires ValidInt(a) && ValidInt(b)
  {
    Result(a.type_, Wide(a) * Pow2(b.payload % 64))
  }

  function FoldShr(a: Const, b: Const): Const
    requires ValidInt(a) && ValidInt(b)
  {
    Result(a.type_, Wide(a) / Pow2(b.payload % 64))
  }

  /** The constant has the number x, modulo the type's power. */
  predicate Means(c: Const, t: Type, x: int) {
    c.type_ == t && ValidInt(c) && Bits(c) == x % Pow2(t.width)
  }

  lemma ResultMeans(t: Type, x: int, y: int)
    requires t.Int? && ValidType(t)
    ensures Means(Result(t, x), t, y) <==> Congruent(x, y, Pow2(t.width))
  {
    hide Pow2, Congruent, Canonical;
    var m := Pow2(t.width);
    ModCongruent(x, m);
    ModCongruent(y, m);
    CongruentSym(y, y % m, m);
    SelfCongruent(x, m);
    ArithmeticRight(t, x, x);
    if Congruent(x, y, m) {
      CongruentMod(x, y, m);
    } else if x % m == y % m {
      CongruentTrans(x, x % m, y, m);
    }
  }

  lemma SelfCongruent(x: int, m: int)
    ensures Congruent(x, x, m)
  {
    assert Differ(x, x, m, 0);
  }

  // ---------------------------------------------------------------- division

  predicate Undisturbed(x: int, y: int, d: int)
    requires d != 0
  {
    Remainder(y, d) == 0 || (x < 0 <==> y < 0)
  }

  lemma CloseRemainders(t: Type, x: int, y: int, d: int)
    requires ValidType(t) && t.Int? && InRange(t, d) && d != 0 && (t.signed || (x >= 0 && y >= 0))
    ensures Abs(Remainder(x, d) - Remainder(y, d)) < Pow2(t.width)
  {
    Halves(t.width);
    hide Pow2, Remainder;
    RemainderRange(x, d);
    RemainderRange(y, d);
  }

  /** By a normal divisor the folded quotient is right exactly if what the dividend's
      payload has beyond its number is a multiple of the divisor times 2^w, and the number
      is divided without remainder or has the payload's sign. */
  lemma FoldDivRight(a: Const, b: Const)
    requires ValidInt(a) && ValidInt(b) && a.type_ == b.type_ && Number(b) != 0 && Normal(b)
    ensures Means(FoldDiv(a, b), a.type_, Quotient(Number(a), Number(b))) <==>
              Congruent(Wide(a), Number(a), Pow2(a.type_.width) * Number(b)) &&
              Undisturbed(Wide(a), Number(a), Number(b))
  {
    hide Pow2, Congruent, Quotient, Remainder, Canonical, Wide, Number, Means;
    var x, y, d, m := Wide(a), Number(a), Number(b), Pow2(a.type_.width);
    NumberInRange(a);
    NumberInRange(b);
    UnsignedWide(a);
    CloseRemainders(a.type_, x, y, d);
    RemainderRange(x, d);
    RemainderRange(y, d);
    QuotientsAgree(x, y, d, Quotient(x, d), Quotient(y, d), Remainder(x, d), Remainder(y, d), m);
    RemaindersEqual(x, y, d);
    if Congruent(x, y, m * d) {
      PartCongruent(x, y, m, d);
    }
    ResultMeans(a.type_, Quotient(x, d), Quotient(y, d));
  }

  lemma UnsignedWide(c: Const)
    requires ValidInt(c)
    ensures c.type_.signed || (Wide(c) >= 0 && Number(c) >= 0)
  {
  }

  /** The remainder: a multiple of the divisor is enough. */
  lemma FoldRemRight(a: Const, b: Const)
    requires ValidInt(a) && ValidInt(b) && a.type_ == b.type_ && Number(b) != 0 && Normal(b)
    ensures Means(FoldRem(a, b), a.type_, Remainder(Number(a), Number(b))) <==>
              Congruent(Wide(a), Number(a), Number(b)) && Undisturbed(Wide(a), Number(a), Number(b))
  {
    hide Pow2, Congruent, Quotient, Remainder, Canonical, Wide, Number, Means;
    var x, y, d, m := Wide(a), Number(a), Number(b), Pow2(a.type_.width);
    NumberInRange(b);
    UnsignedWide(a);
    CloseRemainders(a.type_, x, y, d);
    RemaindersEqual(x, y, d);
    ResultMeans(a.type_, Remainder(x, d), Remainder(y, d));
    if Congruent(Remainder(x, d), Remainder(y, d), m) {
      var k := FactorOf(Remainder(x, d), Remainder(y, d), m);
      NoSmallMultiple(k, m, Remainder(x, d) - Remainder(y, d));
    } else {
      SelfCongruent(Remainder(x, d), m);
    }
  }

  /** By a divisor that is not normal, a normal dividend's folded quotient is right exactly
      if the quotient is zero ... */
  lemma FoldDivWide(a: Const, b: Const)
    requires ValidInt(a) && ValidInt(b) && a.type_ == b.type_ && Number(b) != 0 && Normal(a) && !Normal(b)
    ensures Wide(b) != 0
    ensures Means(FoldDiv(a, b), a.type_, Quotient(Number(a), Number(b))) <==> Abs(Number(a)) < Abs(Number(b))
  {
    hide Pow2, Congruent, Quotient, Remainder, Canonical, Wide, Number, Means, InRange;
    var y, n, d, m := Number(a), Number(b), Wide(b), Pow2(a.type_.width);
    WideDivisor(a, b);
    ResultMeans(a.type_, Quotient(y, d), Quotient(y, n));
    QuotientSize(y, n);
    QuotientSize(y, d);
    if Congruent(Quotient(y, d), Quotient(y, n), m) {
      var k := FactorOf(Quotient(y, d), Quotient(y, n), m);
      NoSmallMultiple(k, m, Quotient(y, d) - Quotient(y, n));
    } else {
      SelfCongruent(0, m);
    }
  }

  /** ... and the remainder in one case more: of the least number by its own negation. */
  lemma FoldRemWide(a: Const, b: Const)
    requires ValidInt(a) && ValidInt(b) && a.type_ == b.type_ && Number(b) != 0 && Normal(a) && !Normal(b)
    ensures Wide(b) != 0
    ensures Means(FoldRem(a, b), a.type_, Remainder(Number(a), Number(b))) <==>
              Abs(Number(a)) < Abs(Number(b)) || Wide(b) == -Number(a)
  {
    hide Pow2, Congruent, Quotient, Remainder, Canonical, Wide, Number, Means, InRange;
    var y, n, d, m := Number(a), Number(b), Wide(b), Pow2(a.type_.width);
    WideDivisor(a, b);
    ResultMeans(a.type_, Remainder(y, d), Remainder(y, n));
    RemainderSize(y, n);
    RemainderSize(y, d);
    if Congruent(Remainder(y, d), Remainder(y, n), m) {
      var k := FactorOf(Remainder(y, d), Remainder(y, n), m);
      NoSmallMultiple(k, m, Remainder(y, d) - Remainder(y, n));
    } else {
      SelfCongruent(Remainder(y, d), m);
    }
  }

  /** Such a divisor is larger than the dividend, or its negation. */
  lemma WideDivisor(a: Const, b: Const)
    requires ValidInt(a) && ValidInt(b) && a.type_ == b.type_ && Normal(a) && !Normal(b)
    ensures Abs(Number(a)) < Abs(Wide(b)) || (Wide(b) == -Number(a) && Number(b) == Number(a) && Number(a) < 0)
    ensures 2 * Abs(Number(a)) <= Pow2(a.type_.width) || (Number(a) >= 0 && Number(b) >= 0)
    ensures Abs(Number(a)) < Pow2(a.type_.width) && Pow2(a.type_.width) > 2 && Wide(b) != 0
  {
    var t := a.type_;
    NumberInRange(a);
    NumberInRange(b);
    NormalIs(b);
    Halves(t.width);
    Pow2Mono(2, t.width);
    assert Pow2(2) == 4;
    hide Pow2, Congruent, Number, Normal, Wide;
    if t.signed && Wide(b) == -Number(a) && Number(a) < 0 {
      assert Number(a) == 0 - Pow2(t.width - 1);
      Makes(Wide(b), Number(a), Pow2(t.width), 1);
      CongruentSym(Wide(b), Number(b), Pow2(t.width));
      CongruentTrans(Number(b), Wide(b), Number(a), Pow2(t.width));
      OneNumber(t, Number(b), Number(a));
    }
  }

  lemma MultipleSize(n: int, q: int)
    requires n != 0
    ensures q == 0 <==> n * q == 0
    ensures q != 0 ==> Abs(n * q) >= Abs(n) && Abs(n * q) >= Abs(q)
    ensures n > 0 ==> (q > 0 <==> n * q > 0)
  {
    if q == 0 {
    } else if n > 0 && q > 0 {
      ProductGrows(n, q);
    } else if n > 0 {
      assert n * q == -(n * -q);
      ProductGrows(n, -q);
    } else if q > 0 {
      assert n * q == -(-n * q);
      ProductGrows(-n, q);
    } else {
      assert n * q == -n * -q;
      ProductGrows(-n, -q);
    }
  }

  lemma ProductGrows(n: int, q: int)
    requires n > 0 && q > 0
    ensures n * q >= n && n * q >= q
  {
  }

  /** What division with a remainder of the dividend's sign yields. */
  lemma DivisionSize(y: int, n: int, q: int, r: int)
    requires n != 0 && y == n * q + r && Abs(r) < Abs(n) && (y >= 0 ==> r >= 0) && (y <= 0 ==> r <= 0)
    ensures Abs(q) <= Abs(y) && Abs(n * q) <= Abs(y)
    ensures q == 0 <==> Abs(y) < Abs(n)
    ensures y >= 0 && n > 0 ==> q >= 0
  {
    MultipleSize(n, q);
    var p := n * q;
    assert y == p + r;
  }

  lemma QuotientSize(y: int, n: int)
    requires n != 0
    ensures Abs(Quotient(y, n)) <= Abs(y)
    ensures Quotient(y, n) == 0 <==> Abs(y) < Abs(n)
    ensures y == n ==> Quotient(y, n) == 1
    ensures y == -n ==> Quotient(y, n) == -1
    ensures y >= 0 && n > 0 ==> Quotient(y, n) >= 0
  {
    hide Quotient, Remainder;
    RemainderRange(y, n);
    var q, r := Quotient(y, n), Remainder(y, n);
    DivisionSize(y, n, q, r);
    if y == n {
      WholeQuotient(n, 1, q, r);
    } else if y == -n {
      WholeQuotient(n, -1, q, r);
    }
  }

  lemma WholeQuotient(n: int, k: int, q: int, r: int)
    requires n != 0 && n * k == n * q + r && Abs(r) < Abs(n)
    ensures q == k && r == 0
  {
    assert (k - q) * n == n * k - n * q;
    SameSize(k - q, n, r);
    Cancel(n, k, q);
  }

  lemma RemainderSize(y: int, n: int)
    requires n != 0
    ensures Abs(y - Remainder(y, n)) <= Abs(y) && Abs(Remainder(y, n)) <= Abs(y)
    ensures Remainder(y, n) == y <==> Abs(y) < Abs(n)
    ensures y == n || y == -n ==> Remainder(y, n) == 0
    ensures y >= 0 ==> Remainder(y, n) >= 0
    ensures y <= 0 ==> Remainder(y, n) <= 0
  {
    hide Quotient, Remainder;
    RemainderRange(y, n);
    var q, r := Quotient(y, n), Remainder(y, n);
    DivisionSize(y, n, q, r);
    MultipleSize(n, q);
    if y == n {
      WholeQuotient(n, 1, q, r);
    } else if y == -n {
      WholeQuotient(n, -1, q, r);
    }
  }

  // ---------------------------------------------------------------- shifts

  /** The folder's count is the number of the count's constant. */
  lemma CountIs(b: Const)
    requires ValidInt(b) && Bits(b) < 64
    ensures b.payload % 64 == Bits(b)
  {
    var w := b.type_.width;
    assert Pow2(6) == 64;
    Pow2Mono(6, w);
    hide Pow2;
    ModMod(b.payload, w, 6);
    SmallMod(Bits(b), 64);
  }

  /** A shift to the left is always right. */
  lemma FoldShlRight(a: Const, b: Const)
    requires ValidInt(a) && ValidInt(b) && Bits(b) < a.type_.width
    ensures Means(FoldShl(a, b), a.type_, Number(a) * Pow2(Bits(b)))
  {
    hide Pow2, Congruent, Canonical, Wide, Number, Means;
    CountIs(b);
    NumberInRange(a);
    var d, m := Pow2(Bits(b)), Pow2(a.type_.width);
    SelfCongruent(d, m);
    CongruentMul(Wide(a), d, Number(a), d, m);
    ResultMeans(a.type_, Wide(a) * d, Number(a) * d);
  }

  /** A shift to the right is right exactly if the bits it brings in from above the type
      are zeros or copies of the sign. */
  lemma FoldShrRight(a: Const, b: Const)
    requires ValidInt(a) && ValidInt(b) && Bits(b) < a.type_.width
    ensures Means(FoldShr(a, b), a.type_, Number(a) / Pow2(Bits(b))) <==>
              Congruent(Wide(a), Number(a), Pow2(a.type_.width + Bits(b)))
  {
    Pow2Mono(Bits(b), a.type_.width);
    hide Pow2, Congruent, Canonical, Wide, Number, Means, Result, FoldShr;
    NumberInRange(a);
    var x, y, d, m := Wide(a), Number(a), Pow2(Bits(b)), Pow2(a.type_.width);
    Pow2Sum(a.type_.width, Bits(b));
    FloorsAgree(x, y, d, m);
    ShrIs(a, b);
    ResultMeans(a.type_, x / d, y / d);
  }

  lemma ShrIs(a: Const, b: Const)
    requires ValidInt(a) && ValidInt(b) && Bits(b) < 64
    ensures FoldShr(a, b) == Result(a.type_, Wide(a) / Pow2(Bits(b)))
  {
    hide Result, Wide;
    CountIs(b);
  }

  lemma FloorsAgree(x: int, y: int, d: int, m: int)
    requires 0 < d <= m && Congruent(x, y, m)
    ensures Congruent(x / d, y / d, m) <==> Congruent(x, y, m * d)
  {
    hide Congruent;
    DivMod(x, d);
    DivMod(y, d);
    QuotientsAgree(x, y, d, x / d, y / d, x % d, y % d, m);
    if Congruent(x, y, m * d) {
      PartCongruent(x, y, m, d);
      CongruentMod(x, y, d);
    }
  }

  lemma PartCongruent(x: int, y: int, m: int, d: int)
    requires Congruent(x, y, m * d)
    ensures Congruent(x, y, d)
  {
    hide Congruent;
    var k := FactorOf(x, y, m * d);
    Associate(k, m, d);
    Makes(x, y, d, k * m);
  }

  lemma DivMod(x: int, d: int)
    requires d > 0
    ensures x == d * (x / d) + x % d && 0 <= x % d < d
  {
  }

  // ---------------------------------------------------------------- which constants are normal

  /** Results that are cast are normal ... */
  lemma ResultNormal(t: Type, x: int)
    requires t.Int? && ValidType(t)
    ensures ValidInt(Result(t, x)) && InRange(t, Wide(Result(t, x))) && Normal(Result(t, x))
  {
    ResultMeans(t, x, x);
    SelfCongruent(x, Pow2(t.width));
    CastInRange(t, x % Pow2(64));
    hide Pow2, Congruent, Canonical, InRange, Normal;
    NormalIs(Result(t, x));
  }

  lemma CastInRange(t: Type, x: int)
    requires t.Int? && ValidType(t)
    ensures InRange(t, Wide(Const(t, Canonical(t, x))))
  {
    var w := t.width;
    Pow2Mono(w - 1, 63);
    hide Pow2, Congruent, Signed;
    if t.signed {
      SignedRange(x % Pow2(w), w);
      SignedBack(Signed(x % Pow2(w), w));
    }
  }

  lemma SignedBack(s: int)
    requires 0 - Pow2(63) <= s < Pow2(63)
    ensures Signed(s % Pow2(64), 64) == s
  {
    Halves(64);
    assert Signed(s % Pow2(64), 64) == if s % Pow2(64) >= Pow2(63) then s % Pow2(64) - Pow2(64) else s % Pow2(64);
    var h := Pow2(63);
    assert Pow2(64) == 2 * h;
    hide *;
    ModHalf(s, h);
  }

  lemma ModHalf(s: int, h: nat)
    requires 0 - h <= s < h
    ensures s % (2 * h) == if s >= 0 then s else s + 2 * h
  {
    DivMod(s, 2 * h);
    var q := s / (2 * h);
    assert q >= 1 ==> 2 * h * q >= 2 * h;
    assert q <= -2 ==> 2 * h * q <= -4 * h;
  }

  /** ... as those of addition, multiplication and bitwise operations are ... */
  lemma ArithmeticNormal(op: Operator, t: Type, args: seq<Const>)
    requires WellTyped(op, t, Types(args)) && t.Int? && (op.Add? || op.Sub? || op.Mul? || op.Bitwise2?)
    requires forall i :: 0 <= i < |args| ==> ValidConst(args[i])
    ensures ValidInt(Fold(op, t, args)) && Normal(Fold(op, t, args))
  {
    hide Pow2, Canonical, Bitwise, Normal;
    var a: int, b: int := args[0].payload, args[1].payload;
    match op
    case Add => ResultNormal(t, a + b);
    case Sub => ResultNormal(t, a - b);
    case Mul => ResultNormal(t, a * b);
    case Bitwise2(o) =>
      BitwiseRange(o, a, b, 64);
      SmallMod(Bitwise(o, a, b, 64), Pow2(64));
      ResultNormal(t, Bitwise(o, a, b, 64));
  }

  /** ... but a truncated constant is exactly if its number is one of the smaller type. */
  lemma TruncNormal(c: Const, t: Type)
    requires ValidInt(c) && Normal(c) && WellTyped(Trunc, t, Types([c])) && t.signed == c.type_.signed
    ensures ValidInt(Fold(Trunc, t, [c])) && (Normal(Fold(Trunc, t, [c])) <==> InRange(t, Number(c)))
  {
    hide Pow2, Number;
    NormalIs(Fold(Trunc, t, [c]));
  }

  /** Normal operands are always folded right. */
  lemma NormalFolds(a: Const, b: Const)
    requires ValidInt(a) && ValidInt(b) && Normal(a) && Normal(b)
    ensures a.type_ == b.type_ && Number(b) != 0 ==>
              Means(FoldDiv(a, b), a.type_, Quotient(Number(a), Number(b))) &&
              Means(FoldRem(a, b), a.type_, Remainder(Number(a), Number(b)))
    ensures Bits(b) < a.type_.width ==> Means(FoldShr(a, b), a.type_, Number(a) / Pow2(Bits(b)))
  {
    hide Pow2, Congruent, Means, Wide, Number, Bits, FoldDiv, FoldRem, FoldShr, ValidConst;
    if a.type_ == b.type_ && Number(b) != 0 {
      SelfCongruent(Wide(a), Pow2(a.type_.width) * Number(b));
      SelfCongruent(Wide(a), Number(b));
      FoldDivRight(a, b);
      FoldRemRight(a, b);
    }
    if Bits(b) < a.type_.width {
      SelfCongruent(Wide(a), Pow2(a.type_.width + Bits(b)));
      FoldShrRight(a, b);
    }
  }

  /** 300 truncated to 8 bits is 44, but divided by 7 it gives 42, shifted by one place
      -106, and it leaves a remainder of 6 by 7 where 44 leaves 2. */
  lemma TruncatedFolds()
    ensures var byte := Int(true, 8); var c := Fold(Trunc, byte, [Const(Int(true, 32), 300)]);
            ValidInt(c) && Number(c) == 44 && Wide(c) == 300 &&
            Number(FoldDiv(c, Const(byte, 7))) == 42 && Quotient(44, 7) == 6 &&
            Number(FoldRem(c, Const(byte, 7))) == 6 && Remainder(44, 7) == 2 &&
            Number(FoldShr(c, Const(byte, 1))) == -106 && 44 / Pow2(1) == 22
  {
    hide Fold, Wide, Number, FoldDiv, FoldRem, FoldShr, ValidConst;
    TruncatedConst();
    ByteFolds();
    TwoIsPow2();
    assert Quotient(44, 7) == 6;
  }

  lemma ByteFolds()
    ensures var byte := Int(true, 8); var c, d, e := Const(byte, 300), Const(byte, 7), Const(byte, 1);
            ValidInt(c) && ValidInt(d) && ValidInt(e) && Wide(d) == 7 &&
            Number(FoldDiv(c, d)) == 42 && Number(FoldRem(c, d)) == 6 && Number(FoldShr(c, e)) == -106
  {
    hide Wide, Number, Result, ValidConst, FoldDiv, FoldRem, FoldShr;
    ByteConst(300);
    ByteConst(7);
    ByteConst(1);
    ByteDivision();
    ByteShift();
    ByteResult(42);
    ByteResult(6);
    ByteResult(150);
  }

  lemma ByteDivision()
    ensures var byte := Int(true, 8); var c, d := Const(byte, 300), Const(byte, 7);
            ValidInt(c) && ValidInt(d) && Wide(d) == 7 &&
            FoldDiv(c, d) == Result(byte, 42) && FoldRem(c, d) == Result(byte, 6)
  {
    hide Wide, Result, ValidConst;
    ByteConst(300);
    ByteConst(7);
  }

  lemma ByteShift()
    ensures var byte := Int(true, 8); var c, e := Const(byte, 300), Const(byte, 1);
            ValidInt(c) && ValidInt(e) && FoldShr(c, e) == Result(byte, 150)
  {
    TwoIsPow2();
    hide Wide, Result, ValidConst, Pow2;
    ByteConst(300);
    ByteConst(1);
  }

  lemma ByteConst(x: nat)
    requires x < 1000
    ensures ValidInt(Const(Int(true, 8), x)) && Wide(Const(Int(true, 8), x)) == x
  {
    Powers();
    hide Pow2;
  }

  lemma ByteResult(x: nat)
    requires x < 256
    ensures Number(Result(Int(true, 8), x)) == if x < 128 then x else x - 256
  {
    Powers();
    hide Pow2, Result;
    SelfCongruent(x, Pow2(8));
    ResultMeans(Int(true, 8), x, x);
    SmallMod(x, Pow2(8));
  }

  lemma TruncatedConst()
    ensures var c := Fold(Trunc, Int(true, 8), [Const(Int(true, 32), 300)]);
            c == Const(Int(true, 8), 300) && ValidInt(c) && Number(c) == 44 && Wide(c) == 300
  {
    Powers();
    hide Pow2;
  }

  lemma Powers()
    ensures Pow2(1) == 2 && Pow2(7) == 128 && Pow2(8) == 256 && Pow2(32) == 0x1_0000_0000
    ensures Pow2(63) == 0x8000_0000_0000_0000 && Pow2(64) == 0x1_0000_0000_0000_0000
  {
    assert Pow2(4) == 16;
    Halves(8);
    Halves(64);
    Halves(1);
    assert Pow2(0) == 1;
    hide Pow2;
    Pow2Sum(4, 4);
    Pow2Sum(8, 8);
    Pow2Sum(16, 16);
    Pow2Sum(32, 32);
  }
}
