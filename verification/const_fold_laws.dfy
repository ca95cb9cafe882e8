/** What the folded constants are, said without the functions that the folder and its
    reference share: comparisons compare, bitwise operations work bit by bit, and sums,
    differences, products and conversions are those of numbers modulo the width. */
module ConstFoldLaws {
  import opened ConstFold

  predicate Pair(a: Const, b: Const) {
    ValidConst(a) && ValidConst(b) && a.type_ == b.type_
  }

  /** A constant's low bits, and the number they are in its type. */
  function Low(c: Const): (r: nat)
    ensures r == c.payload % Pow2(if c.type_.Bool? then 1 else c.type_.width)
  {
    Bits(c)
  }

  function Numeral(c: Const): (r: int)
    ensures r == if c.type_.Int? && c.type_.signed && c.type_.width > 0 && Low(c) >= Pow2(c.type_.width - 1)
                 then Low(c) - Pow2(c.type_.width) else Low(c)
  {
    if c.type_.Int? && c.type_.signed then Signed(Bits(c), c.type_.width) else Bits(c)
  }

  // ---------------------------------------------------------------- comparisons

  function Compared(cc: Condition, a: Const, b: Const): Const
    requires Pair(a, b)
  {
    Fold(Compare(cc), Bool, [a, b])
  }

  predicate Yes(c: Const) {
    c.payload == 1
  }

  /** Every comparison compares the numbers of the type. */
  lemma CompareMeans(a: Const, b: Const)
    requires Pair(a, b)
    ensures forall cc :: Compared(cc, a, b).type_ == Bool && Compared(cc, a, b).payload < 2
    ensures Fold(Compare(LT), Bool, [a, b]).payload == 1 <==> Numeral(a) < Numeral(b)
    ensures Fold(Compare(LE), Bool, [a, b]).payload == 1 <==> Numeral(a) <= Numeral(b)
    ensures Fold(Compare(GT), Bool, [a, b]).payload == 1 <==> Numeral(a) > Numeral(b)
    ensures Fold(Compare(GE), Bool, [a, b]).payload == 1 <==> Numeral(a) >= Numeral(b)
    ensures Fold(Compare(EQ), Bool, [a, b]).payload == 1 <==> Low(a) == Low(b)
    ensures Fold(Compare(NE), Bool, [a, b]).payload == 1 <==> Low(a) != Low(b)
  {
    Pow2Positive(a.type_);
    hide Pow2;
  }

  lemma Pow2Positive(t: Type)
    ensures t.Int? && ValidType(t) ==> Pow2(t.width) > Pow2(t.width - 1) > 0
    ensures Pow2(1) == 2
  {
  }

  /** The laws of an order. */
  lemma CompareLaws(a: Const, b: Const)
    requires Pair(a, b)
    ensures !Yes(Compared(LT, a, a)) && Yes(Compared(EQ, a, a))
    ensures Yes(Compared(GE, a, b)) <==> !Yes(Compared(LT, a, b))
    ensures Yes(Compared(GT, a, b)) <==> !Yes(Compared(LE, a, b))
    ensures Yes(Compared(NE, a, b)) <==> !Yes(Compared(EQ, a, b))
    ensures Yes(Compared(LE, a, b)) <==> Yes(Compared(LT, a, b)) || Yes(Compared(EQ, a, b))
    ensures Yes(Compared(GT, a, b)) <==> Yes(Compared(LT, b, a))
    ensures Yes(Compared(LT, a, b)) || Yes(Compared(LT, b, a)) || Yes(Compared(EQ, a, b))
  {
    CompareMeans(a, a);
    CompareMeans(a, b);
    CompareMeans(b, a);
    LowRange(a);
    LowRange(b);
    hide Fold, Low, Numeral, Pow2;
  }

  lemma LowRange(c: Const)
    requires ValidConst(c)
    ensures Low(c) < Pow2(if c.type_.Bool? then 1 else c.type_.width)
    ensures c.type_.Int? ==> c.type_.width > 0
  {
  }

  /** A number is less than its successor, unless that overflows. */
  lemma LessThanNext(a: Const, one: Const)
    requires Pair(a, one) && a.type_.Int? && Low(one) == 1
    ensures ValidConst(Fold(Add, a.type_, [a, one]))
    ensures Yes(Compared(LT, a, Fold(Add, a.type_, [a, one]))) <==>
              Low(a) + 1 != Pow2(if a.type_.signed then a.type_.width - 1 else a.type_.width)
  {
    var t := a.type_;
    var next := Fold(Add, t, [a, one]);
    var h := Pow2(t.width - 1);
    NextLow(a, one);
    CompareMeans(a, next);
    NumeralIs(a);
    NumeralIs(next);
    hide Fold, Pow2, Low, Numeral, ValidConst;
    NextIsLess(Low(a), Low(next), h, t.signed);
  }

  lemma NextLow(a: Const, one: Const)
    requires Pair(a, one) && a.type_.Int? && Low(one) == 1
    ensures ValidConst(Fold(Add, a.type_, [a, one])) && Fold(Add, a.type_, [a, one]).type_ == a.type_
    ensures Pow2(a.type_.width) == 2 * Pow2(a.type_.width - 1) && Low(a) < Pow2(a.type_.width)
    ensures Low(Fold(Add, a.type_, [a, one])) == if Low(a) + 1 < Pow2(a.type_.width) then Low(a) + 1 else 0
  {
    hide Fold, Low, Numeral;
    ArithmeticMeans(a, one);
    LowRange(a);
    Pow2Next(a.type_.width);
    Wraps(Low(a), Pow2(a.type_.width));
  }

  lemma Wraps(x: nat, m: nat)
    requires x < m
    ensures (x + 1) % m == if x + 1 < m then x + 1 else 0
  {
    if x + 1 < m {
      SmallMod(x + 1, m);
    }
  }

  lemma NumeralIs(c: Const)
    requires ValidConst(c) && c.type_.Int?
    ensures var h := Pow2(c.type_.width - 1);
            Numeral(c) == if c.type_.signed && Low(c) >= h then Low(c) - 2 * h else Low(c)
  {
    Pow2Next(c.type_.width);
    hide Pow2, Low;
  }

  /** In numbers: x and its successor modulo 2h, unsigned or with h and more as negative. */
  lemma NextIsLess(x: nat, y: nat, h: nat, signed: bool)
    requires x < 2 * h && y == if x + 1 < 2 * h then x + 1 else 0
    ensures (if signed && x >= h then x - 2 * h else x) < (if signed && y >= h then y - 2 * h else y) <==>
              x + 1 != (if signed then h else 2 * h)
  {
  }

  // ---------------------------------------------------------------- arithmetic

  lemma ArithmeticMeans(a: Const, b: Const)
    requires Pair(a, b) && a.type_.Int?
    ensures forall op :: op in {Add, Sub, Mul} ==>
              Fold(op, a.type_, [a, b]).type_ == a.type_ && ValidConst(Fold(op, a.type_, [a, b]))
    ensures Low(Fold(Add, a.type_, [a, b])) == (Low(a) + Low(b)) % Pow2(a.type_.width)
    ensures Low(Fold(Sub, a.type_, [a, b])) == (Low(a) - Low(b)) % Pow2(a.type_.width)
    ensures Low(Fold(Mul, a.type_, [a, b])) == Low(a) * Low(b) % Pow2(a.type_.width)
  {
    hide Pow2, Fold, Apply;
    FoldArithmetic(Add, a.type_, [a, b]);
    FoldArithmetic(Sub, a.type_, [a, b]);
    FoldArithmetic(Mul, a.type_, [a, b]);
    ApplyArithmetic(a, b);
  }

  lemma ApplyArithmetic(a: Const, b: Const)
    requires Pair(a, b) && a.type_.Int?
    ensures var ts, xs, m := Types([a, b]), Values([a, b]), Pow2(a.type_.width);
            && Apply(Add, a.type_, ts, xs) == (Low(a) + Low(b)) % m
            && Apply(Sub, a.type_, ts, xs) == (Low(a) - Low(b)) % m
            && Apply(Mul, a.type_, ts, xs) == Low(a) * Low(b) % m
  {
    hide Pow2;
  }

  // ---------------------------------------------------------------- bit by bit

  /** Bit i of the low bits. */
  function BitOf(c: Const, i: nat): (r: nat)
    ensures r == Low(c) / Pow2(i) % 2
  {
    Low(c) / Pow2(i) % 2
  }

  lemma {:induction false} BitwiseAt(op: BitOp, a: nat, b: nat, n: nat, i: nat)
    requires i < n
    ensures Bitwise(op, a, b, n) / Pow2(i) % 2 == Bit(op, a / Pow2(i) % 2, b / Pow2(i) % 2) < 2
    decreases i
  {
    BitwiseHalves(op, a, b, n);
    Pow2Next(i);
    hide Bitwise, Bit, Pow2;
    var c := Bitwise(op, a, b, n);
    if i == 0 {
      DivOne(a, b, c);
    } else {
      BitwiseAt(op, a / 2, b / 2, n - 1, i - 1);
      var m := Pow2(i - 1);
      DivTwice(a, m);
      DivTwice(b, m);
      DivTwice(c, m);
    }
  }

  lemma BitwiseHalves(op: BitOp, a: nat, b: nat, n: nat)
    requires n > 0
    ensures Bitwise(op, a, b, n) % 2 == Bit(op, a % 2, b % 2) < 2
    ensures Bitwise(op, a, b, n) / 2 == Bitwise(op, a / 2, b / 2, n - 1)
  {
    hide Bit;
    BitRange(op, a % 2, b % 2);
    TwoParts(Bit(op, a % 2, b % 2), Bitwise(op, a / 2, b / 2, n - 1));
  }

  lemma TwoParts(r: nat, q: nat)
    requires r < 2
    ensures (r + 2 * q) % 2 == r && (r + 2 * q) / 2 == q
  {
  }

  lemma DivOne(a: nat, b: nat, c: nat)
    ensures a / 1 == a && b / 1 == b && c / 1 == c
  {
  }

  lemma DivTwice(x: nat, m: nat)
    requires m > 0
    ensures x / (2 * m) == x / 2 / m
  {
    HalfMod(x, m);
    var q, r := x / (2 * m), x % (2 * m);
    assert x == 2 * m * q + r;
    assert 2 * m * q == 2 * (m * q);
    DivModUnique(x, 2, m * q + r / 2, r % 2);
    DivModUnique(x / 2, m, q, r / 2);
  }

  /** Each bit of the result is the operation on that bit of the operands. */
  lemma BitwiseMeans(a: Const, b: Const, i: nat)
    requires Pair(a, b) && i < (if a.type_.Bool? then 1 else a.type_.width)
    ensures a.type_.Int? ==>
              BitOf(Fold(Bitwise2(AndBits), a.type_, [a, b]), i) ==
                (if BitOf(a, i) == 1 && BitOf(b, i) == 1 then 1 else 0)
    ensures a.type_.Int? ==>
              BitOf(Fold(Bitwise2(OrBits), a.type_, [a, b]), i) ==
                (if BitOf(a, i) == 1 || BitOf(b, i) == 1 then 1 else 0)
    ensures BitOf(Fold(Bitwise2(XorBits), a.type_, [a, b]), i) == (if BitOf(a, i) != BitOf(b, i) then 1 else 0)
  {
    hide Pow2, Fold, Bitwise;
    var w := if a.type_.Bool? then 1 else a.type_.width;
    BitwiseLowBits(XorBits, a, b);
    BitwiseAt(XorBits, Low(a), Low(b), w, i);
    if a.type_.Int? {
      BitwiseLowBits(AndBits, a, b);
      BitwiseLowBits(OrBits, a, b);
      BitwiseAt(AndBits, Low(a), Low(b), w, i);
      BitwiseAt(OrBits, Low(a), Low(b), w, i);
    }
    BitTwo(Low(a), i);
    BitTwo(Low(b), i);
  }

  lemma BitTwo(x: nat, i: nat)
    ensures x / Pow2(i) % 2 == 0 || x / Pow2(i) % 2 == 1
  {
  }

  lemma BitwiseLowBits(op: BitOp, a: Const, b: Const)
    requires Pair(a, b) && (a.type_.Int? || op == XorBits)
    ensures Low(Fold(Bitwise2(op), a.type_, [a, b])) ==
              Bitwise(op, Low(a), Low(b), if a.type_.Bool? then 1 else a.type_.width)
  {
    hide Pow2, Fold, Bitwise;
    FoldBitwise(Bitwise2(op), a.type_, [a, b]);
    ApplyBitwise(op, a, b);
  }

  lemma ApplyBitwise(op: BitOp, a: Const, b: Const)
    requires Pair(a, b) && (a.type_.Int? || op == XorBits)
    ensures Apply(Bitwise2(op), a.type_, Types([a, b]), Values([a, b])) ==
              Bitwise(op, Low(a), Low(b), if a.type_.Bool? then 1 else a.type_.width)
  {
    hide Pow2, Bitwise;
  }

  lemma {:induction false} BitwiseSums(a: nat, b: nat, n: nat)
    requires a < Pow2(n) && b < Pow2(n)
    ensures var c, d, x := Bitwise(AndBits, a, b, n), Bitwise(OrBits, a, b, n), Bitwise(XorBits, a, b, n);
            c <= a && c <= b && c + d == a + b && x + c == d
  {
    if n > 0 {
      Pow2Next(n);
      BitwiseSums(a / 2, b / 2, n - 1);
      assert a == 2 * (a / 2) + a % 2 && b == 2 * (b / 2) + b % 2;
      BitSums(a % 2, b % 2);
    }
  }

  lemma BitSums(a: nat, b: nat)
    requires a < 2 && b < 2
    ensures var c, d, x := Bit(AndBits, a, b), Bit(OrBits, a, b), Bit(XorBits, a, b);
            c <= a && c <= b && c + d == a + b && x + c == d
  {
    assert a == 0 || a == 1;
    assert b == 0 || b == 1;
  }

  /** The arithmetic of the bitwise operations. */
  lemma BitwiseLaws(a: Const, b: Const)
    requires Pair(a, b) && a.type_.Int?
    ensures var t := a.type_;
            var c, d := Low(Fold(Bitwise2(AndBits), t, [a, b])), Low(Fold(Bitwise2(OrBits), t, [a, b]));
            var x := Low(Fold(Bitwise2(XorBits), t, [a, b]));
            c <= Low(a) && c <= Low(b) && c + d == Low(a) + Low(b) && x == d - c
  {
    LowRange(a);
    LowRange(b);
    hide Pow2, Fold, Bitwise;
    BitwiseLowBits(AndBits, a, b);
    BitwiseLowBits(OrBits, a, b);
    BitwiseLowBits(XorBits, a, b);
    BitwiseSums(Low(a), Low(b), a.type_.width);
  }

  // ---------------------------------------------------------------- conversions

  /** Narrowing keeps the low bits, ... */
  lemma TruncMeans(a: Const, t: Type)
    requires ValidConst(a) && ValidType(t) && t.Int? && a.type_.Int? && t.width <= a.type_.width
    ensures WellTyped(Trunc, t, Types([a])) && Low(Fold(Trunc, t, [a])) == Low(a) % Pow2(t.width)
  {
    hide Pow2, Fold;
    FoldConversion(Trunc, t, [a]);
  }

  /** ... a cast to a type of the same width all of them, ... */
  lemma BitcastMeans(a: Const, t: Type)
    requires ValidConst(a) && ValidType(t) && t.Int? && a.type_.Int? && t.width == a.type_.width
    ensures WellTyped(Bitcast, t, Types([a])) && Low(Fold(Bitcast, t, [a])) == Low(a)
  {
    hide Pow2, Fold;
    FoldConversion(Bitcast, t, [a]);
  }

  /** ... widening without sign too, ... */
  lemma ZextMeans(a: Const, t: Type)
    requires ValidConst(a) && ValidType(t) && t.Int?
    requires a.type_.Bool? || (a.type_.width <= t.width && a.type_.width < 64)
    ensures WellTyped(Zext, t, Types([a])) && Low(Fold(Zext, t, [a])) == Low(a)
  {
    hide Pow2, Fold;
    FoldExtend(Zext, t, [a]);
  }

  /** ... and widening with sign keeps the number, modulo the new width. */
  lemma SextMeans(a: Const, t: Type)
    requires ValidConst(a) && ValidType(t) && t.Int?
    requires a.type_.Int? && a.type_.signed && a.type_.width <= t.width && a.type_.width < 64
    ensures WellTyped(Sext, t, Types([a])) && Low(Fold(Sext, t, [a])) == Numeral(a) % Pow2(t.width)
  {
    hide Pow2, Fold, Signed;
    FoldExtend(Sext, t, [a]);
  }
}
