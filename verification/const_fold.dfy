/** Constant folding of integer operations.  A constant's payload has 64 bits whatever its
    type; truncation and bitcast copy it unchanged, so only its low bits mean something.
    Folding computes with payloads; the reference computes with values of the type's
    width. */
module ConstFold {

  // ---------------------------------------------------------------- powers and remainders

  function Pow2(n: nat): (r: nat)
    ensures r > 0
  {
    if n == 0 then 1 else 2 * Pow2(n - 1)
  }

  lemma {:induction false} Pow2Sum(a: nat, b: nat)
    ensures Pow2(a + b) == Pow2(a) * Pow2(b)
  {
    Pow2Next(a);
    Pow2Next(a + b);
    hide Pow2;
    if a > 0 {
      Pow2Sum(a - 1, b);
      assert a - 1 + b == a + b - 1;
      Associate(2, Pow2(a - 1), Pow2(b));
    } else {
      assert a + b == b;
    }
  }

  lemma Pow2Next(n: nat)
    ensures Pow2(n) == if n == 0 then 1 else 2 * Pow2(n - 1)
  {
  }

  lemma Associate(x: int, y: int, z: int)
    ensures x * (y * z) == (x * y) * z
  {
  }

  /** x and y differ by a multiple of m. */
  ghost predicate Congruent(x: int, y: int, m: int) {
    exists k: int :: Differ(x, y, m, k)
  }

  ghost predicate Differ(x: int, y: int, m: int, k: int) {
    x == y + k * m
  }

  lemma ModCongruent(x: int, m: int)
    requires m > 0
    ensures Congruent(x, x % m, m)
  {
    assert Differ(x, x % m, m, x / m);
  }

  lemma CongruentTrans(x: int, y: int, z: int, m: int)
    requires Congruent(x, y, m) && Congruent(y, z, m)
    ensures Congruent(x, z, m)
  {
    var j :| Differ(x, y, m, j);
    var k :| Differ(y, z, m, k);
    assert (j + k) * m == j * m + k * m;
    assert Differ(x, z, m, j + k);
  }

  lemma CongruentSym(x: int, y: int, m: int)
    requires Congruent(x, y, m)
    ensures Congruent(y, x, m)
  {
    var k :| Differ(x, y, m, k);
    assert (-k) * m == -(k * m);
    assert Differ(y, x, m, -k);
  }

  lemma CongruentMod(x: int, y: int, m: int)
    requires m > 0 && Congruent(x, y, m)
    ensures x % m == y % m
  {
    var k :| Differ(x, y, m, k);
    var p, q, d := x / m, y / m, x / m - y / m - k;
    assert x == p * m + x % m && y == q * m + y % m;
    MulSpread(p, q, k, m);
    NoSmallMultiple(d, m, y % m - x % m);
  }

  lemma MulSpread(p: int, q: int, k: int, m: int)
    ensures (p - q - k) * m == p * m - q * m - k * m
  {
  }

  /** The only multiple of m less than m away from zero is zero. */
  lemma NoSmallMultiple(d: int, m: int, r: int)
    requires d * m == r && -m < r < m
    ensures r == 0
  {
    assert d >= 1 ==> d * m >= m;
    assert d <= -1 ==> d * m <= -m;
  }

  lemma CongruentAdd(x: int, y: int, x': int, y': int, m: int)
    requires Congruent(x, x', m) && Congruent(y, y', m)
    ensures Congruent(x + y, x' + y', m) && Congruent(x - y, x' - y', m)
  {
    var j :| Differ(x, x', m, j);
    var k :| Differ(y, y', m, k);
    assert (j + k) * m == j * m + k * m && (j - k) * m == j * m - k * m;
    assert Differ(x + y, x' + y', m, j + k);
    assert Differ(x - y, x' - y', m, j - k);
  }

  lemma CongruentMul(x: int, y: int, x': int, y': int, m: int)
    requires Congruent(x, x', m) && Congruent(y, y', m)
    ensures Congruent(x * y, x' * y', m)
  {
    var j :| Differ(x, x', m, j);
    var k :| Differ(y, y', m, k);
    var q := x' * k + j * y' + j * k * m;
    MulExpand(x', j, y', k, m);
    assert Differ(x * y, x' * y', m, q);
  }

  lemma MulExpand(a: int, j: int, b: int, k: int, m: int)
    ensures (a + j * m) * (b + k * m) == a * b + (a * k + j * b + j * k * m) * m
  {
    var p, q := j * m, k * m;
    assert (a + p) * (b + q) == a * b + a * q + p * b + p * q;
    assert a * q == a * k * m;
    assert p * b == j * b * m;
    assert p * q == j * k * m * m;
    assert (a * k + j * b + j * k * m) * m == a * k * m + j * b * m + j * k * m * m;
  }

  /** Reducing modulo a power of two first does not matter for a smaller one. */
  lemma ModMod(x: int, n: nat, w: nat)
    requires w <= n
    ensures Congruent(x % Pow2(n), x, Pow2(w)) && x % Pow2(n) % Pow2(w) == x % Pow2(w)
  {
    Pow2Sum(n - w, w);
    ModProduct(x, Pow2(n - w), Pow2(w));
    CongruentMod(x % Pow2(n), x, Pow2(w));
  }

  lemma ModProduct(x: int, n: int, m: int)
    requires n > 0 && m > 0 && n * m > 0
    ensures Congruent(x % (n * m), x, m)
  {
    var p := n * m;
    var q := x / p;
    assert x % p == x - q * p;
    assert q * (n * m) == q * n * m;
    assert (-(q * n)) * m == -(q * n * m);
    assert Differ(x % p, x, m, -(q * n));
  }

  // ---------------------------------------------------------------- bitwise operations

  datatype BitOp = AndBits | OrBits | XorBits

  function Bit(op: BitOp, a: nat, b: nat): nat
    requires a < 2 && b < 2
  {
    match op
    case AndBits => a * b
    case OrBits => if a == 1 || b == 1 then 1 else 0
    case XorBits => if a != b then 1 else 0
  }

  lemma BitRange(op: BitOp, a: nat, b: nat)
    requires a < 2 && b < 2
    ensures Bit(op, a, b) < 2
  {
    assert a == 0 || a == 1;
    assert b == 0 || b == 1;
  }

  /** The operation on the low n bits. */
  function Bitwise(op: BitOp, a: nat, b: nat, n: nat): nat {
    if n == 0 then 0 else Bit(op, a % 2, b % 2) + 2 * Bitwise(op, a / 2, b / 2, n - 1)
  }

  lemma {:induction false} BitwiseRange(op: BitOp, a: nat, b: nat, n: nat)
    ensures Bitwise(op, a, b, n) < Pow2(n)
  {
    if n > 0 {
      BitRange(op, a % 2, b % 2);
      BitwiseRange(op, a / 2, b / 2, n - 1);
    }
  }

  lemma DivModUnique(x: int, m: int, q: int, r: int)
    requires m > 0 && x == m * q + r && 0 <= r < m
    ensures x / m == q && x % m == r
  {
    var d := x / m - q;
    assert m * (x / m - q) == m * (x / m) - m * q;
    assert d * m == r - x % m;
    assert d >= 1 ==> d * m >= m;
    assert d <= -1 ==> d * m <= -m;
  }

  /** The low bit and the rest of a remainder. */
  lemma HalfMod(x: nat, m: nat)
    requires m > 0
    ensures x % (2 * m) % 2 == x % 2 && x % (2 * m) / 2 == x / 2 % m
  {
    var q, r := x / (2 * m), x % (2 * m);
    assert x == 2 * m * q + r;
    assert 2 * m * q == 2 * (m * q);
    DivModUnique(x, 2, m * q + r / 2, r % 2);
    DivModUnique(x / 2, m, q, r / 2);
  }

  lemma DoubleMod(b: nat, x: nat, m: nat)
    requires m > 0 && b < 2
    ensures (b + 2 * x) % (2 * m) == b + 2 * (x % m)
  {
    assert x == m * (x / m) + x % m;
    assert 2 * m * (x / m) == 2 * (m * (x / m));
    DivModUnique(b + 2 * x, 2 * m, x / m, b + 2 * (x % m));
  }

  /** The low bits of the result depend on the low bits of the operands only. */
  lemma {:induction false} BitwiseLow(op: BitOp, a: nat, b: nat, n: nat, w: nat)
    requires w <= n
    ensures Bitwise(op, a, b, n) % Pow2(w) == Bitwise(op, a % Pow2(w), b % Pow2(w), w)
  {
    if w > 0 {
      var m := Pow2(w - 1);
      BitRange(op, a % 2, b % 2);
      HalfMod(a, m);
      HalfMod(b, m);
      BitwiseLow(op, a / 2, b / 2, n - 1, w - 1);
      DoubleMod(Bit(op, a % 2, b % 2), Bitwise(op, a / 2, b / 2, n - 1), m);
    }
  }

  // ---------------------------------------------------------------- types and constants

  datatype Type = Bool | Int(signed: bool, width: nat)

  predicate ValidType(t: Type) {
    t.Int? ==> t.width == 8 || t.width == 16 || t.width == 32 || t.width == 64
  }

  function Width(t: Type): nat {
    if t.Bool? then 1 else t.width
  }

  datatype Const = Const(type_: Type, payload: nat)

  /** A boolean is 0 or 1; an integer's payload may be anything of 64 bits. */
  predicate ValidConst(c: Const) {
    ValidType(c.type_) && if c.type_.Bool? then c.payload < 2 else c.payload < Pow2(64)
  }

  /** The value of a constant: the low bits of its payload. */
  function Bits(c: Const): nat {
    c.payload % Pow2(Width(c.type_))
  }

  function Signed(x: nat, w: nat): int {
    if w > 0 && x >= Pow2(w - 1) then x - Pow2(w) else x
  }

  datatype Condition = LE | GE | LT | GT | EQ | NE

  datatype Operator = Add | Sub | Mul | Bitwise2(op: BitOp) | Compare(cc: Condition) | Trunc | Zext | Sext | Bitcast

  function Holds(cc: Condition, a: int, b: int): bool {
    match cc
    case LE => a <= b
    case GE => a >= b
    case LT => a < b
    case GT => a > b
    case EQ => a == b
    case NE => a != b
  }

  /** What the compiler checks of an operation's types. */
  predicate WellTyped(op: Operator, t: Type, args: seq<Type>) {
    && ValidType(t) && (forall a :: a in args ==> ValidType(a))
    && match op
       case Add => |args| == 2 && args[0] == args[1] == t && t.Int?
       case Sub => |args| == 2 && args[0] == args[1] == t && t.Int?
       case Mul => |args| == 2 && args[0] == args[1] == t && t.Int?
       case Bitwise2(b) => |args| == 2 && args[0] == args[1] == t && (t.Int? || b == XorBits)
       case Compare(_) => |args| == 2 && args[0] == args[1] && t.Bool?
       case Trunc => |args| == 1 && args[0].Int? && t.Int? && t.width <= args[0].width
       case Zext => |args| == 1 && t.Int? && (args[0].Bool? || (args[0].width <= t.width && args[0].width < 64))
       case Sext => |args| == 1 && t.Int? && (args[0].Bool? || (args[0].width <= t.width && args[0].width < 64))
       case Bitcast => |args| == 1 && args[0].Int? && t.Int? && t.width == args[0].width
  }

  // ---------------------------------------------------------------- the reference

  /** Fixed-width evaluation: values and results are below 2 to the width of their type. */
  function Apply(op: Operator, t: Type, args: seq<Type>, xs: seq<nat>): nat
    requires WellTyped(op, t, args) && |xs| == |args|
  {
    match op
    case Add => (xs[0] + xs[1]) % Pow2(Width(t))
    case Sub => (xs[0] - xs[1]) % Pow2(Width(t))
    case Mul => (xs[0] * xs[1]) % Pow2(Width(t))
    case Bitwise2(b) => Bitwise(b, xs[0], xs[1], Width(t))
    case Compare(cc) =>
      var w := Width(args[0]);
      if args[0].Int? && args[0].signed then (if Holds(cc, Signed(xs[0], w), Signed(xs[1], w)) then 1 else 0)
      else if Holds(cc, xs[0], xs[1]) then 1 else 0
    case Trunc => xs[0] % Pow2(Width(t))
    case Zext => xs[0]
    case Sext => if args[0].Bool? then xs[0] else Signed(xs[0], args[0].width) % Pow2(Width(t))
    case Bitcast => xs[0]
  }

  // ---------------------------------------------------------------- the folder

  /** Cast to the type's C integer, stored in 64 bits. */
  function Canonical(t: Type, x: int): (r: nat)
    requires t.Int? && ValidType(t)
  {
    var y := x % Pow2(t.width);
    if t.signed then Signed(y, t.width) % Pow2(64) else y
  }

  /** What is computed from the payloads. */
  function Fold(op: Operator, t: Type, args: seq<Const>): Const
    requires WellTyped(op, t, seq(|args|, i requires 0 <= i < |args| => args[i].type_))
  {
    match op
    case Add => Const(t, Canonical(t, (args[0].payload + args[1].payload) % Pow2(64)))
    case Sub => Const(t, Canonical(t, (args[0].payload - args[1].payload) % Pow2(64)))
    case Mul => Const(t, Canonical(t, (args[0].payload * args[1].payload) % Pow2(64)))
    case Bitwise2(b) =>
      if t.Bool? then Const(t, Bitwise(b, args[0].payload, args[1].payload, 1))
      else Const(t, Canonical(t, Bitwise(b, args[0].payload, args[1].payload, 64)))
    case Compare(cc) =>
      var at := args[0].type_;
      var a, b := args[0].payload % Pow2(Width(at)), args[1].payload % Pow2(Width(at));
      if at.Int? && at.signed then Const(t, if Holds(cc, Signed(a, at.width), Signed(b, at.width)) then 1 else 0)
      else Const(t, if Holds(cc, a, b) then 1 else 0)
    case Trunc => Const(t, args[0].payload)
    case Zext =>
      if args[0].type_.Bool? then Const(t, args[0].payload) else Const(t, args[0].payload % Pow2(args[0].type_.width))
    case Sext =>
      if args[0].type_.Bool? then Const(t, args[0].payload)
      else Const(t, Signed(args[0].payload % Pow2(args[0].type_.width), args[0].type_.width) % Pow2(64))
    case Bitcast => Const(t, args[0].payload)
  }

  function Types(args: seq<Const>): (r: seq<Type>)
    ensures |r| == |args|
  {
    seq(|args|, i requires 0 <= i < |args| => args[i].type_)
  }

  function Values(args: seq<Const>): (r: seq<nat>)
    ensures |r| == |args|
  {
    seq(|args|, i requires 0 <= i < |args| => Bits(args[i]))
  }

  lemma {:induction false} Pow2Mono(a: nat, b: nat)
    requires a <= b
    ensures Pow2(a) <= Pow2(b)
    decreases b - a
  {
    if a < b {
      Pow2Mono(a, b - 1);
    }
  }

  lemma SignedCongruent(y: nat, w: nat)
    requires 0 < w && y < Pow2(w)
    ensures Congruent(Signed(y, w), y, Pow2(w)) && 0 - Pow2(w) <= Signed(y, w) < Pow2(w)
  {
    assert Differ(Signed(y, w), y, Pow2(w), if y >= Pow2(w - 1) then -1 else 0);
  }

  lemma CanonicalCongruent(t: Type, x: int)
    requires t.Int? && ValidType(t)
    ensures Congruent(Canonical(t, x), x, Pow2(t.width)) && Canonical(t, x) < Pow2(64)
  {
    hide Pow2, Congruent, Signed;
    var m := Pow2(t.width);
    var y := x % m;
    ModCongruent(x, m);
    CongruentSym(x, y, m);
    Pow2Mono(t.width, 64);
    if t.signed {
      SignedCongruent(y, t.width);
      ModMod(Signed(y, t.width), 64, t.width);
      CongruentTrans(Canonical(t, x), Signed(y, t.width), y, m);
      CongruentTrans(Canonical(t, x), y, x, m);
    }
  }

  lemma PayloadCongruent(c: Const, w: nat)
    requires ValidConst(c) && w == Width(c.type_)
    ensures Congruent(c.payload, Bits(c), Pow2(w)) && Bits(c) < Pow2(w)
  {
    ModCongruent(c.payload, Pow2(w));
  }

  /** An arithmetic result: reducing modulo 2^64 and casting keep it right modulo 2^w. */
  lemma ArithmeticRight(t: Type, x: int, y: int)
    requires t.Int? && ValidType(t) && Congruent(x, y, Pow2(t.width))
    ensures Canonical(t, x % Pow2(64)) % Pow2(t.width) == y % Pow2(t.width) && Canonical(t, x % Pow2(64)) < Pow2(64)
  {
    var m := Pow2(t.width);
    CanonicalCongruent(t, x % Pow2(64));
    ModMod(x, 64, t.width);
    CongruentTrans(Canonical(t, x % Pow2(64)), x % Pow2(64), x, m);
    CongruentTrans(Canonical(t, x % Pow2(64)), x, y, m);
    CongruentMod(Canonical(t, x % Pow2(64)), y, m);
  }

  ghost predicate FoldRight(op: Operator, t: Type, args: seq<Const>)
    requires WellTyped(op, t, Types(args))
  {
    var c := Fold(op, t, args);
    c.type_ == t && ValidConst(c) && Bits(c) == Apply(op, t, Types(args), Values(args))
  }

  lemma FoldArithmetic(op: Operator, t: Type, args: seq<Const>)
    requires WellTyped(op, t, Types(args)) && (op.Add? || op.Sub? || op.Mul?)
    requires forall i :: 0 <= i < |args| ==> ValidConst(args[i])
    ensures FoldRight(op, t, args)
  {
    hide Pow2, Canonical, Congruent, Bitwise, Holds, Signed;
    var a, b := args[0], args[1];
    assert Types(args)[0] == a.type_ && Types(args)[1] == b.type_;
    assert Values(args)[0] == Bits(a) && Values(args)[1] == Bits(b);
    PayloadCongruent(a, t.width);
    PayloadCongruent(b, t.width);
    match op
    case Add =>
      CongruentAdd(a.payload, b.payload, Bits(a), Bits(b), Pow2(t.width));
      ArithmeticRight(t, a.payload + b.payload, Bits(a) + Bits(b));
    case Sub =>
      CongruentAdd(a.payload, b.payload, Bits(a), Bits(b), Pow2(t.width));
      ArithmeticRight(t, a.payload - b.payload, Bits(a) - Bits(b));
    case Mul =>
      CongruentMul(a.payload, b.payload, Bits(a), Bits(b), Pow2(t.width));
      ArithmeticRight(t, a.payload * b.payload, Bits(a) * Bits(b));
  }

  lemma FoldBitwise(op: Operator, t: Type, args: seq<Const>)
    requires WellTyped(op, t, Types(args)) && op.Bitwise2?
    requires forall i :: 0 <= i < |args| ==> ValidConst(args[i])
    ensures FoldRight(op, t, args)
  {
    hide Congruent, Bitwise, Holds, Signed, Canonical, Pow2;
    var a, b := args[0], args[1];
    assert Types(args)[0] == a.type_ && Types(args)[1] == b.type_;
    assert Values(args)[0] == Bits(a) && Values(args)[1] == Bits(b);
    if t.Bool? {
      TwoIsPow2();
      BitwiseRange(op.op, a.payload, b.payload, 1);
    } else {
      var r := Bitwise(op.op, a.payload, b.payload, 64);
      BitwiseLow(op.op, a.payload, b.payload, 64, t.width);
      CanonicalCongruent(t, r);
      CongruentMod(Canonical(t, r), r, Pow2(t.width));
    }
  }

  /** The payload of a boolean is its value in every type. */
  lemma BoolFits(a: Const, t: Type)
    requires ValidConst(a) && a.type_.Bool? && t.Int? && ValidType(t)
    ensures Bits(a) == a.payload && a.payload % Pow2(t.width) == a.payload && a.payload < Pow2(64)
  {
    TwoIsPow2();
    Pow2Mono(1, t.width);
    Pow2Mono(1, 64);
    hide Pow2;
    SmallMod(a.payload, Pow2(t.width));
    SmallMod(a.payload, 2);
  }

  lemma FoldExtend(op: Operator, t: Type, args: seq<Const>)
    requires WellTyped(op, t, Types(args)) && (op.Zext? || op.Sext?)
    requires forall i :: 0 <= i < |args| ==> ValidConst(args[i])
    ensures FoldRight(op, t, args)
  {
    hide Pow2, Canonical, Congruent, Bitwise, Holds, Signed;
    var a := args[0];
    assert Types(args)[0] == a.type_ && Values(args)[0] == Bits(a);
    if a.type_.Bool? {
      BoolFits(a, t);
    } else {
      var w := a.type_.width;
      Pow2Mono(w, t.width);
      Pow2Mono(w, 64);
      SmallMod(a.payload % Pow2(w), Pow2(t.width));
      ModMod(Signed(Bits(a), w), 64, t.width);
    }
  }

  lemma FoldConversion(op: Operator, t: Type, args: seq<Const>)
    requires WellTyped(op, t, Types(args)) && (op.Trunc? || op.Bitcast?)
    requires forall i :: 0 <= i < |args| ==> ValidConst(args[i])
    ensures FoldRight(op, t, args)
  {
    hide Pow2, Canonical, Congruent, Bitwise, Holds, Signed;
    var a := args[0];
    assert Types(args)[0] == a.type_ && Values(args)[0] == Bits(a);
    ModMod(a.payload, a.type_.width, t.width);
  }

  lemma SmallMod(x: nat, m: nat)
    requires x < m
    ensures x % m == x
  {
  }

  lemma FoldCompare(op: Operator, t: Type, args: seq<Const>)
    requires WellTyped(op, t, Types(args)) && op.Compare?
    requires forall i :: 0 <= i < |args| ==> ValidConst(args[i])
    ensures FoldRight(op, t, args)
  {
    hide Bitwise, Canonical, Holds, Signed, Pow2;
    assert Types(args)[0] == args[0].type_ && Types(args)[1] == args[1].type_;
    TwoIsPow2();
    var c := Fold(op, t, args);
    assert c.payload < 2;
    SmallMod(c.payload, 2);
  }

  lemma TwoIsPow2()
    ensures Pow2(1) == 2
  {
  }

  /** Folding one operation yields a constant with the value of the operation. */
  lemma FoldCorrect(op: Operator, t: Type, args: seq<Const>)
    requires WellTyped(op, t, Types(args))
    requires forall i :: 0 <= i < |args| ==> ValidConst(args[i])
    ensures FoldRight(op, t, args)
  {
    hide FoldRight, WellTyped, Pow2, ValidConst;
    match op
    case Compare(_) => FoldCompare(op, t, args);
    case Bitwise2(_) => FoldBitwise(op, t, args);
    case Add => FoldArithmetic(op, t, args);
    case Sub => FoldArithmetic(op, t, args);
    case Mul => FoldArithmetic(op, t, args);
    case Zext => FoldExtend(op, t, args);
    case Sext => FoldExtend(op, t, args);
    case _ => FoldConversion(op, t, args);
  }
}
