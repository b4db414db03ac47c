/** The sandboxed calculator on integers, and the bound on every number it computes. */
module Calculator {
  import opened Arithmetic
  import opened BitLengths

  const MAX_EXPONENT: nat := 64
  const MAX_RESULT_BITS: nat := 4096

  datatype Binary = Add | Sub | Mult | Div | FloorDiv | Mod | Pow | OtherBinary

  datatype Unary = UAdd | USub | OtherUnary

  datatype Expr =
    | Constant(value: int)
    | BinOp(op: Binary, left: Expr, right: Expr)
    | UnaryOp(uop: Unary, operand: Expr)
    | Unsupported

  datatype Reason = OperatorNotAllowed | UnsupportedSyntax | ExponentTooLarge | ResultTooLarge | ZeroDivision

  /** `Fraction` stands for a float, about which nothing more is said. */
  datatype Outcome = Value(v: int) | Fraction | Failed(reason: Reason)

  function Abs(v: int): nat {
    if v < 0 then -v else v
  }

  /** `int.bit_length`, which ignores the sign. */
  function Bits(v: int): nat {
    BitLength(Abs(v))
  }

  function Power(base: int, exponent: nat): int {
    if exponent == 0 then 1 else base * Power(base, exponent - 1)
  }

  /** Integer division rounds towards minus infinity. */
  function FloorDivide(a: int, b: int): int
    requires b != 0
  {
    if b > 0 then a / b else (-a) / (-b)
  }

  function FloorModulo(a: int, b: int): int
    requires b != 0
  {
    a - b * FloorDivide(a, b)
  }

  /** `_guard_power_magnitude` on integers. */
  predicate PowerIsGuarded(left: int, right: int) {
    right >= 0 && right * (if Bits(left) > 1 then Bits(left) else 1) > MAX_RESULT_BITS
  }

  /** What an operator yields before its result is checked. */
  function Raw(op: Binary, a: int, b: int): Outcome {
    match op
    case Add => Value(a + b)
    case Sub => Value(a - b)
    case Mult => Value(a * b)
    case Div => if b == 0 then Failed(ZeroDivision) else Fraction
    case FloorDiv => if b == 0 then Failed(ZeroDivision) else Value(FloorDivide(a, b))
    case Mod => if b == 0 then Failed(ZeroDivision) else Value(FloorModulo(a, b))
    case Pow =>
      if Abs(b) > MAX_EXPONENT then Failed(ExponentTooLarge)
      else if PowerIsGuarded(a, b) then Failed(ResultTooLarge)
      else if b >= 0 then Value(Power(a, b))
      else if a == 0 then Failed(ZeroDivision)
      else Fraction
    case OtherBinary => Failed(OperatorNotAllowed)
  }

  function Checked(raw: Outcome): Outcome {
    if raw.Value? && Bits(raw.v) > MAX_RESULT_BITS then Failed(ResultTooLarge) else raw
  }

  /** `_eval_node`. An operator that is not allowed is refused before its operands are looked at. */
  function Eval(e: Expr): Outcome {
    match e
    case Constant(v) => Value(v)
    case BinOp(op, left, right) =>
      if op.OtherBinary? then Failed(OperatorNotAllowed) else
        var a := Eval(left);
        if a.Failed? then a else
          var b := Eval(right);
          if b.Failed? then b
          else if a.Fraction? || b.Fraction? then Fraction
          else Checked(Raw(op, a.v, b.v))
    case UnaryOp(op, operand) =>
      if op.OtherUnary? then Failed(OperatorNotAllowed) else
        var a := Eval(operand);
        if a.Value? && op.USub? then Value(-a.v) else a
    case Unsupported => Failed(UnsupportedSyntax)
  }

  /** All integers that come into being while an expression is evaluated, in order. */
  function Computed(e: Expr): seq<int> {
    match e
    case Constant(v) => [v]
    case BinOp(op, left, right) =>
      if op.OtherBinary? then [] else
        var a := Eval(left);
        if a.Failed? then Computed(left) else
          var b := Eval(right);
          Computed(left) + Computed(right) +
          if a.Value? && b.Value? && Raw(op, a.v, b.v).Value? then [Raw(op, a.v, b.v).v] else []
    case UnaryOp(op, operand) =>
      if op.OtherUnary? then [] else
        Computed(operand) + if op.USub? && Eval(operand).Value? then [-Eval(operand).v] else []
    case Unsupported => []
  }

  predicate Literals(e: Expr, bits: nat) {
    match e
    case Constant(v) => Bits(v) <= bits
    case BinOp(_, left, right) => Literals(left, bits) && Literals(right, bits)
    case UnaryOp(_, operand) => Literals(operand, bits)
    case Unsupported => true
  }

  // ----- The operators -----

  /** Quotient and remainder are the ones with the sign of the divisor. */
  lemma FloorDivision(a: int, b: int, q: int, r: int)
    requires b != 0
    ensures (q == FloorDivide(a, b) && r == FloorModulo(a, b))
      <==> a == b * q + r && (0 <= r < b || b < r <= 0)
  {
    var f := FloorDivide(a, b);
    FloorRemainder(a, b);
    if a == b * q + r && (0 <= r < b || b < r <= 0) {
      assert b * (q - f) == FloorModulo(a, b) - r;
      SmallMultiple(b, q - f);
    }
  }

  lemma FloorRemainder(a: int, b: int)
    requires b != 0
    ensures 0 <= FloorModulo(a, b) < b || b < FloorModulo(a, b) <= 0
  {
    if b > 0 {
      assert a == b * (a / b) + a % b;
    } else {
      var n, d := -a, -b;
      assert n == d * (n / d) + n % d;
    }
  }

  lemma SmallMultiple(b: int, k: int)
    requires Abs(b * k) < Abs(b)
    ensures k == 0
  {
    AbsOfProduct(b, k);
    if k != 0 {
      TimesIsMonotone(1, Abs(k), Abs(b));
    }
  }

  /** A quotient is no larger than the dividend, a remainder smaller than the divisor. */
  lemma DivisionIsSmall(a: int, b: int)
    requires b != 0
    ensures Abs(FloorDivide(a, b)) <= Abs(a) && Abs(FloorModulo(a, b)) < Abs(b)
  {
    FloorRemainder(a, b);
    QuotientIsSmall(if b > 0 then a else -a, Abs(b));
  }

  lemma QuotientIsSmall(n: int, d: nat)
    ensures d > 0 ==> Abs(n / d) <= Abs(n)
  {
    if d == 0 { return; }
    var q := n / d;
    assert n == d * q + n % d;
    if q >= 0 {
      TimesIsMonotone(1, d, q);
    } else {
      TimesIsMonotone(1, d, -q - 1);
      assert d * (-q - 1) == n % d - n - d;
    }
  }

  lemma AbsOfProduct(a: int, b: int)
    ensures Abs(a * b) == Abs(a) * Abs(b)
  {
    if a >= 0 && b >= 0 { assert a * b >= 0; }
    if a >= 0 && b < 0 { assert a * b <= 0; }
    if a < 0 && b >= 0 { assert a * b <= 0; }
    if a < 0 && b < 0 { assert a * b >= 0; }
  }

  lemma {:induction false} PowerBits(base: int, exponent: nat)
    ensures Bits(Power(base, exponent)) <= if exponent == 0 then 1 else exponent * Bits(base)
  {
    hide BitLength, Abs;
    if exponent == 0 {
      assert Bits(1) == 1 by { OneBit(); }
    } else if exponent == 1 {
      assert Power(base, 1) == base by { FirstPower(base); }
    } else {
      var rest := Power(base, exponent - 1);
      PowerBits(base, exponent - 1);
      AbsOfProduct(base, rest);
      ProductBits(Abs(base), Abs(rest));
      OneMoreTimes(Bits(base), exponent - 1);
    }
  }

  lemma OneBit()
    ensures Bits(1) == 1
  {
    assert BitLength(1) == 1 + BitLength(0);
  }

  lemma FirstPower(base: int)
    ensures Power(base, 1) == base
  {
    assert Power(base, 0) == 1;
  }

  /** A power that passes the guard fits, so the check after it never fires. */
  lemma GuardedPowerFits(left: int, right: nat)
    requires !PowerIsGuarded(left, right)
    ensures Bits(Power(left, right)) <= MAX_RESULT_BITS
    ensures Checked(Value(Power(left, right))) == Value(Power(left, right))
  {
    hide Bits, Power;
    PowerBits(left, right);
    if Bits(left) == 0 {
      assert right * Bits(left) == 0;
    }
  }

  /** Nothing doubles: each operator's raw result has at most twice the permitted bits. */
  lemma RawIsBounded(op: Binary, a: int, b: int)
    requires Bits(a) <= MAX_RESULT_BITS && Bits(b) <= MAX_RESULT_BITS && Raw(op, a, b).Value?
    ensures Bits(Raw(op, a, b).v) <= 2 * MAX_RESULT_BITS
  {
    hide BitLength, Power, PowerIsGuarded, FloorDivide, FloorModulo;
    match op
    case Add =>
      SumBits(Abs(a), Abs(b), MAX_RESULT_BITS);
      FewerBits(Abs(a + b), Abs(a) + Abs(b));
    case Sub =>
      SumBits(Abs(a), Abs(b), MAX_RESULT_BITS);
      FewerBits(Abs(a - b), Abs(a) + Abs(b));
    case Mult =>
      AbsOfProduct(a, b);
      ProductBits(Abs(a), Abs(b));
    case FloorDiv =>
      DivisionIsSmall(a, b);
      FewerBits(Abs(FloorDivide(a, b)), Abs(a));
    case Mod =>
      DivisionIsSmall(a, b);
      FewerBits(Abs(FloorModulo(a, b)), Abs(b));
    case Pow =>
      GuardedPowerFits(a, b);
    case _ =>
  }

  /** Every value returned fits the limit, and no integer on the way has more than twice its bits. */
  lemma {:induction false} EvaluationIsBounded(e: Expr)
    requires Literals(e, MAX_RESULT_BITS)
    ensures Eval(e).Value? ==> Bits(Eval(e).v) <= MAX_RESULT_BITS
    ensures forall v :: v in Computed(e) ==> Bits(v) <= 2 * MAX_RESULT_BITS
  {
    hide Bits, Raw;
    match e
    case Constant(_) =>
    case BinOp(op, left, right) =>
      EvaluationIsBounded(left);
      EvaluationIsBounded(right);
      var a, b := Eval(left), Eval(right);
      if a.Value? && b.Value? && Raw(op, a.v, b.v).Value? {
        RawIsBounded(op, a.v, b.v);
      }
    case UnaryOp(_, operand) =>
      EvaluationIsBounded(operand);
      if Eval(operand).Value? {
        assert Bits(-Eval(operand).v) == Bits(Eval(operand).v) by { SameBits(Eval(operand).v); }
      }
    case Unsupported =>
  }

  lemma SameBits(v: int)
    ensures Bits(-v) == Bits(v)
  {}

  // ----- What an expression means -----

  function Product(factors: seq<int>): int {
    if factors == [] then 1 else factors[0] * Product(factors[1..])
  }

  /** `v` is what the operator of arithmetic gives on integers. */
  ghost predicate Yields(op: Binary, a: int, b: int, v: int) {
    match op
    case Add => v - b == a
    case Sub => v + b == a
    case Mult => v == a * b
    case FloorDiv => b != 0 && (0 <= a - b * v < b || b < a - b * v <= 0)
    case Mod => b != 0 && (0 <= v < b || b < v <= 0) && exists q :: a == b * q + v
    case Pow =>
      exists factors: seq<int> :: |factors| == b && (forall f :: f in factors ==> f == a) && v == Product(factors)
    case _ => false
  }

  /** The expression has the integer value `v`, and so has each of its operands an integer value. */
  ghost predicate Means(e: Expr, v: int) {
    match e
    case Constant(c) => v == c
    case BinOp(op, left, right) => exists a, b :: Means(left, a) && Means(right, b) && Yields(op, a, b, v)
    case UnaryOp(op, operand) =>
      exists a :: Means(operand, a) && ((op.UAdd? && v == a) || (op.USub? && v + a == 0))
    case Unsupported => false
  }

  /** A power is refused by its exponent, or by an estimate of its size. */
  predicate PowerRefused(op: Binary, a: int, b: int) {
    op.Pow? && (b > 64 || b < -64 || (b >= 0 && b * (if Bits(a) > 1 then Bits(a) else 1) > 4096))
  }

  /** No operator in the expression is applied to a power that is refused, or gives more than 4096 bits. */
  ghost predicate WithinLimits(e: Expr) {
    match e
    case BinOp(op, left, right) =>
      && WithinLimits(left) && WithinLimits(right)
      && forall a, b :: Means(left, a) && Means(right, b) ==>
           !PowerRefused(op, a, b) && forall v :: Yields(op, a, b, v) ==> Bits(v) <= 4096
    case UnaryOp(_, operand) => WithinLimits(operand)
    case _ => true
  }

  lemma {:induction false} ProductIsPower(factors: seq<int>, base: int)
    requires forall f :: f in factors ==> f == base
    ensures Product(factors) == Power(base, |factors|)
  {
    if factors != [] {
      assert factors[0] in factors && forall f :: f in factors[1..] ==> f in factors;
      ProductIsPower(factors[1..], base);
    }
  }

  lemma PowerYields(a: int, b: nat)
    ensures forall v :: Yields(Pow, a, b, v) <==> v == Power(a, b)
  {
    hide Power, Product;
    forall v ensures Yields(Pow, a, b, v) <==> v == Power(a, b) {
      if Yields(Pow, a, b, v) {
        var factors: seq<int> :| |factors| == b && (forall f :: f in factors ==> f == a) && v == Product(factors);
        ProductIsPower(factors, a);
      }
      var copies := seq(b, _ => a);
      ProductIsPower(copies, a);
    }
  }

  lemma DivisionYields(a: int, b: int, v: int)
    requires b != 0
    ensures v == FloorDivide(a, b) <==> Yields(FloorDiv, a, b, v)
    ensures v == FloorModulo(a, b) <==> Yields(Mod, a, b, v)
  {
    hide FloorDivide;
    var q, r := FloorDivide(a, b), FloorModulo(a, b);
    FloorDivision(a, b, v, a - b * v);
    FloorDivision(a, b, q, r);
    forall p | a == b * p + v && (0 <= v < b || b < v <= 0) ensures v == r {
      FloorDivision(a, b, p, v);
    }
  }

  /** An operator that is not refused computes what arithmetic says it gives. */
  lemma OperatorYields(op: Binary, a: int, b: int, v: int)
    ensures Raw(op, a, b) == Value(v) <==> Yields(op, a, b, v) && !PowerRefused(op, a, b)
  {
    hide Power, Bits, FloorDivide, FloorModulo, Product;
    if op.FloorDiv? || op.Mod? {
      hide Yields;
      if b != 0 {
        DivisionYields(a, b, v);
      } else {
        assert !Yields(op, a, b, v) by { NoZeroDivisor(op, a, v); }
      }
    } else if op.Pow? && b >= 0 {
      hide Yields;
      PowerYields(a, b);
    }
  }

  lemma NoZeroDivisor(op: Binary, a: int, v: int)
    ensures op.FloorDiv? || op.Mod? ==> !Yields(op, a, 0, v)
  {}

  /** Both operands have integer values, and the operator gives `v` on them within the limit. */
  ghost predicate Computes(op: Binary, left: Outcome, right: Outcome, v: int) {
    left.Value? && right.Value? && Raw(op, left.v, right.v) == Value(v) && Bits(v) <= 4096
  }

  lemma NodeEvaluates(op: Binary, left: Expr, right: Expr, v: int)
    ensures Eval(BinOp(op, left, right)) == Value(v) <==> Computes(op, Eval(left), Eval(right), v)
  {
    hide Bits;
  }

  lemma UnaryEvaluates(op: Unary, operand: Expr, v: int)
    ensures Eval(UnaryOp(op, operand)) == Value(v)
      <==> Eval(operand).Value? && ((op.UAdd? && v == Eval(operand).v) || (op.USub? && v + Eval(operand).v == 0))
  {}

  lemma LeafEvaluates(e: Expr, v: int)
    ensures e.Constant? || e.Unsupported? ==> (Eval(e) == Value(v) <==> Means(e, v) && WithinLimits(e))
  {}

  /** The evaluator returns an integer exactly when that is what the expression means and no limit stands in the way. */
  lemma {:induction false} EvaluatesIff(e: Expr, v: int)
    ensures Eval(e) == Value(v) <==> Means(e, v) && WithinLimits(e)
    decreases e
  {
    hide Eval, Raw, Bits, Yields, PowerRefused;
    match e
    case BinOp(op, left, right) =>
      NodeEvaluates(op, left, right, v);
      forall a ensures Eval(left) == Value(a) <==> Means(left, a) && WithinLimits(left) { EvaluatesIff(left, a); }
      forall b ensures Eval(right) == Value(b) <==> Means(right, b) && WithinLimits(right) { EvaluatesIff(right, b); }
      forall a, b, c ensures Raw(op, a, b) == Value(c) <==> Yields(op, a, b, c) && !PowerRefused(op, a, b) {
        OperatorYields(op, a, b, c);
      }
    case UnaryOp(op, operand) =>
      UnaryEvaluates(op, operand, v);
      forall a ensures Eval(operand) == Value(a) <==> Means(operand, a) && WithinLimits(operand) {
        EvaluatesIff(operand, a);
      }
    case _ =>
      LeafEvaluates(e, v);
  }

  /** How an operator on two integers is refused. */
  lemma RefusalIsExact(left: Expr, right: Expr, op: Binary, a: int, b: int)
    requires Eval(left) == Value(a) && Eval(right) == Value(b)
    ensures var r := Eval(BinOp(op, left, right));
      && (r == Failed(OperatorNotAllowed) <==> op.OtherBinary?)
      && (r == Failed(ExponentTooLarge) <==> op.Pow? && (b > 64 || b < -64))
      && (r == Failed(ZeroDivision) <==>
            (b == 0 && op in {Div, FloorDiv, Mod}) || (op.Pow? && a == 0 && -64 <= b < 0))
      && (r == Failed(ResultTooLarge) <==>
            (PowerRefused(op, a, b) && -64 <= b <= 64)
            || (!PowerRefused(op, a, b) && exists v :: Yields(op, a, b, v) && Bits(v) > 4096))
  {
    hide Bits, Power, FloorDivide, FloorModulo, Yields;
    forall v ensures Raw(op, a, b) == Value(v) <==> Yields(op, a, b, v) && !PowerRefused(op, a, b) {
      OperatorYields(op, a, b, v);
    }
    if Raw(op, a, b).Value? {
      assert Yields(op, a, b, Raw(op, a, b).v);
    }
  }

  /** The first failure on the way is the one that is reported: the operator's name, the left side, the right side. */
  lemma FirstFailureWins(op: Binary, uop: Unary, left: Expr, right: Expr)
    ensures op.OtherBinary? ==> Eval(BinOp(op, left, right)) == Failed(OperatorNotAllowed)
    ensures !op.OtherBinary? && Eval(left).Failed? ==> Eval(BinOp(op, left, right)) == Eval(left)
    ensures !op.OtherBinary? && !Eval(left).Failed? && Eval(right).Failed? ==>
      Eval(BinOp(op, left, right)) == Eval(right)
    ensures uop.OtherUnary? ==> Eval(UnaryOp(uop, left)) == Failed(OperatorNotAllowed)
    ensures !uop.OtherUnary? && !Eval(left).Value? ==> Eval(UnaryOp(uop, left)) == Eval(left)
    ensures Eval(Unsupported) == Failed(UnsupportedSyntax)
  {
    hide Raw, Checked;
  }

  // ----- How much the guard refuses -----

  lemma {:induction false} PowerAtLeast(base: int, exponent: nat)
    requires base != 0
    ensures Abs(Power(base, exponent)) >= Pow2(exponent * (Bits(base) - 1))
  {
    hide Pow2, BitLength, Abs;
    BitLengthBounds(Abs(base), 0);
    assert Pow2(0) == 1 by { ZerothPower(); }
    NonZero(base);
    if exponent > 0 {
      var k := Bits(base) - 1;
      PowerAtLeast(base, exponent - 1);
      AbsOfProduct(base, Power(base, exponent - 1));
      BitLengthBounds(Abs(base), k);
      Pow2Adds(k, (exponent - 1) * k);
      assert k + (exponent - 1) * k == exponent * k;
      ProductIsMonotone(Pow2(k), Pow2((exponent - 1) * k), Abs(base), Abs(Power(base, exponent - 1)));
    } else {
      assert exponent * (Bits(base) - 1) == 0;
      assert Abs(1) == 1 by { NonZero(1); }
    }
  }

  lemma ZerothPower()
    ensures Pow2(0) == 1
  {}

  lemma NonZero(v: int)
    ensures v != 0 ==> Abs(v) >= 1
    ensures v == 1 ==> Abs(v) == 1
  {}

  /** The guard errs on the safe side by less than one bit for each factor. */
  lemma GuardIsNearlyTight(left: int, right: nat)
    requires right <= MAX_EXPONENT && PowerIsGuarded(left, right)
    ensures Bits(Power(left, right)) > MAX_RESULT_BITS - right
  {
    hide Power;
    assert Bits(left) >= 2;
    PowerAtLeast(left, right);
    var k := right * (Bits(left) - 1);
    assert k == right * Bits(left) - right;
    BitLengthBounds(Abs(Power(left, right)), k);
  }

  /** It does refuse a few powers that would have fitted. */
  lemma GuardCanRefuseWhatFits()
    ensures Raw(Pow, Pow2(70), 58) == Failed(ResultTooLarge)
    ensures Bits(Power(Pow2(70), 58)) <= MAX_RESULT_BITS
  {
    hide Power, Pow2, BitLength;
    PowerOfTwoBits(70, 58);
  }

  lemma {:induction false} Pow2IsMonotone(i: nat, j: nat)
    ensures i <= j ==> Pow2(i) <= Pow2(j)
  {
    if i < j {
      Pow2IsMonotone(i, j - 1);
    }
  }

  lemma PowerOfTwoBits(k: nat, n: nat)
    ensures Bits(Pow2(k)) == k + 1
    ensures Bits(Power(Pow2(k), n)) == n * k + 1
  {
    hide Power, BitLength;
    BitsOfPow2(k);
    PowerOfTwo(k, n);
    BitsOfPow2(k * n);
  }

  lemma BitsOfPow2(k: nat)
    ensures BitLength(Pow2(k)) == k + 1
  {
    hide BitLength;
    BitLengthBounds(Pow2(k), k);
    BitLengthBounds(Pow2(k), k + 1);
  }

  /** For what the guard reads, a bit length and an exponent, when every such power exceeds the limit. */
  lemma RefusalIsRightIff(b: nat, n: nat)
    ensures b >= 1 ==>
      ((forall left :: Bits(left) == b ==> Bits(Power(left, n)) > MAX_RESULT_BITS) <==> n * (b - 1) >= MAX_RESULT_BITS)
  {
    hide Power, Bits, Pow2;
    if b >= 1 {
      if n * (b - 1) >= MAX_RESULT_BITS {
        forall left | Bits(left) == b ensures Bits(Power(left, n)) > MAX_RESULT_BITS {
          LongPower(left, n);
        }
      } else {
        PowerOfTwoBits(b - 1, n);
        assert Bits(Pow2(b - 1)) == b;
      }
    }
  }

  lemma LongPower(left: int, n: nat)
    requires Bits(left) >= 1 && n * (Bits(left) - 1) >= MAX_RESULT_BITS
    ensures Bits(Power(left, n)) > MAX_RESULT_BITS
  {
    hide Power, Pow2;
    assert left != 0;
    PowerAtLeast(left, n);
    Pow2IsMonotone(MAX_RESULT_BITS, n * (Bits(left) - 1));
    BitLengthBounds(Abs(Power(left, n)), MAX_RESULT_BITS);
  }

  /**
    The guard tells exactly which powers of a base with `b` bits fit when it lets the exponent pass,
    or when even the smallest such base is too large. In between it refuses some powers that fit.
  */
  lemma GuardIsExactIff(b: nat, n: nat)
    ensures (forall left :: Bits(left) == b ==>
              (PowerIsGuarded(left, n) <==> Bits(Power(left, n)) > MAX_RESULT_BITS))
      <==> n * (if b > 1 then b else 1) <= MAX_RESULT_BITS || (b >= 1 && n * (b - 1) >= MAX_RESULT_BITS)
  {
    hide Power, Bits, Pow2;
    RefusalIsRightIff(b, n);
    if n * (if b > 1 then b else 1) <= MAX_RESULT_BITS {
      forall left | Bits(left) == b ensures Bits(Power(left, n)) <= MAX_RESULT_BITS {
        GuardedPowerFits(left, n);
      }
    } else if b == 0 {
      ZeroStaysSmall(n);
    }
  }

  lemma ZeroStaysSmall(n: nat)
    ensures Bits(0) == 0 && Bits(Power(0, n)) <= 1
  {
    assert BitLength(1) == 1 + BitLength(0);
  }

  lemma {:induction false} PowerOfTwo(k: nat, n: nat)
    ensures Power(Pow2(k), n) == Pow2(k * n)
  {
    if n > 0 {
      PowerOfTwo(k, n - 1);
      Pow2Adds(k, k * (n - 1));
      assert k + k * (n - 1) == k * n;
    } else {
      assert k * n == 0;
    }
  }
}
