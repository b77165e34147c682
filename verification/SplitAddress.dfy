/**
  Splitting a 64-bit address expression into two 32-bit halves for a machine with 32-bit lanes.
 */
module SplitAddress {
  import opened Basics
  import opened MachineInts
  import opened Expressions

  const GRF_BYTES: nat := 32

  /** The address expressions that occur; anything of 32 bits stands for its zero extension. */
  datatype Addr =
    | Word(e: Expr)
    | Constant(value: int)
    | Uniform(offset: nat)
    | SignExtend(src: Expr)
    | ZeroExtend(src: Expr)
    | Plus(a: Addr, b: Addr)
    | Times(a: Addr, amount: int)
    | ShiftLeft(a: Addr, amount: int)
    | Unsupported

  /** A 64-bit constant as an unsigned number. */
  function Unsigned64(v: int): nat { Wrap(v, I64) }

  /** Lane k of the uniform register. */
  function Lane(k: nat): Expr { Input(k, I32) }

  function Value(env: Env, a: Addr): nat {
    match a
    case Word(e) => Eval(env, e)
    case Constant(v) => Unsigned64(v)
    case Uniform(offset) => Eval(env, Lane(offset / 4)) + 0x1_0000_0000 * Eval(env, Lane(offset / 4 + 1))
    case SignExtend(e) => Wrap(Signed(Eval(env, e), DtOf(e)), I64)
    case ZeroExtend(e) => Eval(env, e)
    case Plus(a, b) => Wrap(Value(env, a) + Value(env, b), I64)
    case Times(a, k) => Wrap(Value(env, a) * Unsigned64(k), I64)
    case ShiftLeft(a, k) => Wrap(Value(env, a) * Pow2(Unsigned64(k)), I64)
    case Unsupported => 0
  }

  // ---- the split ----

  datatype Halves = Halves(lo: Expr, hi: Expr)

  function Zero(): Expr { Const(I32, 0) }

  function Ones(n: nat): nat {
    if n == 0 then 0 else n % 2 + Ones(n / 2)
  }

  function Split(a: Addr): Option<Halves> {
    match a
    case Word(e) => if DtOf(e) == I32 then Some(Halves(e, Zero())) else None
    case Constant(v) =>
      var bits := Unsigned64(v);
      Some(Halves(Const(I32, bits % 0x1_0000_0000), Const(I32, bits / 0x1_0000_0000)))
    case Uniform(offset) =>
      if offset % 4 == 0 && offset + 4 < GRF_BYTES then Some(Halves(Lane(offset / 4), Lane(offset / 4 + 1))) else None
    case SignExtend(e) =>
      if DtOf(e) == I32 then Some(Halves(e, BinOp(Shr, I32, e, Const(I32, 31)))) else None
    case ZeroExtend(e) => if DtOf(e) == I32 then Some(Halves(e, Zero())) else None
    case Plus(a, b) =>
      var x, y := Split(a), Split(b);
      if x.None? || y.None? then None else Some(AddHalves(x.value, y.value))
    case Times(a, k) =>
      var x := Split(a);
      if x.None? || Unsigned64(k) == 0 || Ones(Unsigned64(k)) != 1 || TrailingZeros(Unsigned64(k)) >= 32 then None
      else Some(ShiftHalves(x.value, TrailingZeros(Unsigned64(k))))
    case ShiftLeft(a, k) =>
      var x := Split(a);
      if x.None? || Unsigned64(k) >= 32 then None else Some(ShiftHalves(x.value, Unsigned64(k)))
    case Unsupported => None
  }

  /** Which addresses can be split: 32-bit words and what extends them, constants, pairs of lanes that the uniform
      register has, and sums and multiples by powers of two below 2^32 of such. */
  ghost predicate Accepted(a: Addr) {
    match a
    case Word(e) => DtOf(e) == I32
    case Constant(_) => true
    case Uniform(offset) => exists k: nat :: offset == 4 * k && InRegister(k + 1)
    case SignExtend(e) => DtOf(e) == I32
    case ZeroExtend(e) => DtOf(e) == I32
    case Plus(a, b) => Accepted(a) && Accepted(b)
    case Times(a, k) => Accepted(a) && SmallPower(Unsigned64(k))
    case ShiftLeft(a, k) => Accepted(a) && Unsigned64(k) < 32
    case Unsupported => false
  }

  predicate InRegister(lane: nat) { 4 * lane < GRF_BYTES }

  ghost predicate SmallPower(n: nat) { exists s: nat :: s < 32 && n == Pow2(s) }

  /** The low halves are added; the sum is below an operand exactly when it carries. */
  function AddHalves(x: Halves, y: Halves): Halves {
    var lo := BinOp(Add, I32, x.lo, y.lo);
    var carry := BinOp(ULt, I32, lo, x.lo);
    Halves(lo, BinOp(Add, I32, BinOp(Add, I32, x.hi, y.hi), carry))
  }

  function ShiftHalves(x: Halves, k: nat): Halves
    requires k < 32
  {
    if k == 0 then x
    else
      var shift := Const(I32, k);
      Halves(BinOp(Shl, I32, x.lo, shift),
             BinOp(Or, I32, BinOp(Shl, I32, x.hi, shift), BinOp(UShr, I32, x.lo, Const(I32, 32 - k))))
  }

  // ---- the halves make up the value ----

  ghost predicate Makes(env: Env, x: Halves, v: nat) {
    DtOf(x.lo) == I32 && DtOf(x.hi) == I32 && Eval(env, x.lo) + 0x1_0000_0000 * Eval(env, x.hi) == v
  }

  lemma ConstValue(env: Env, v: int)
    requires 0 <= v < 0x1_0000_0000
    ensures Eval(env, Const(I32, v)) == v
  {
    SmallRemainder(v, Modulus(I32));
  }

  lemma ReducedFirst(x: nat, c: nat)
    ensures (x % 0x1_0000_0000 + c) % 0x1_0000_0000 == (x + c) % 0x1_0000_0000
  {
  }

  lemma TwoHalves(lo: nat, h: nat)
    requires lo < 0x1_0000_0000
    ensures lo + 0x1_0000_0000 * (h % 0x1_0000_0000) == (lo + 0x1_0000_0000 * h) % 0x1_0000_0000_0000_0000
  {
    var q, r := h / 0x1_0000_0000, h % 0x1_0000_0000;
    assert lo + 0x1_0000_0000 * h == lo + 0x1_0000_0000 * r + 0x1_0000_0000_0000_0000 * q;
  }

  /** What addition with carry computes. */
  lemma CarrySum(al: nat, ah: nat, bl: nat, bh: nat)
    requires al < 0x1_0000_0000 && bl < 0x1_0000_0000
    ensures var lo := (al + bl) % 0x1_0000_0000;
      var carry := if lo < al then 1 else 0;
      lo + 0x1_0000_0000 * (((ah + bh) % 0x1_0000_0000 + carry) % 0x1_0000_0000)
        == (al + 0x1_0000_0000 * ah + (bl + 0x1_0000_0000 * bh)) % 0x1_0000_0000_0000_0000
  {
    var lo := (al + bl) % 0x1_0000_0000;
    var carry := if lo < al then 1 else 0;
    assert al + bl == lo + 0x1_0000_0000 * carry;
    ReducedFirst(ah + bh, carry);
    TwoHalves(lo, ah + bh + carry);
    assert al + 0x1_0000_0000 * ah + (bl + 0x1_0000_0000 * bh) == lo + 0x1_0000_0000 * (ah + bh + carry);
  }

  lemma AddEval(env: Env, x: Expr, y: Expr)
    requires DtOf(x) == I32
    ensures Eval(env, BinOp(Add, I32, x, y)) == (Eval(env, x) + Eval(env, y)) % 0x1_0000_0000
  {
  }

  lemma CarryEval(env: Env, x: Expr, y: Expr)
    requires DtOf(x) == I32
    ensures Eval(env, BinOp(ULt, I32, x, y)) == if Eval(env, x) < Eval(env, y) then 1 else 0
  {
    SmallRemainder(Truth(Eval(env, x) < Eval(env, y)), Modulus(I32));
  }

  function CarryOut(lo: nat, al: nat): nat { if lo < al then 1 else 0 }

  /** lo and hi come from adding the low halves, and the high halves with the carry. */
  predicate Carries(al: nat, ah: nat, bl: nat, bh: nat, lo: nat, hi: nat) {
    && al < 0x1_0000_0000 && bl < 0x1_0000_0000 && lo == (al + bl) % 0x1_0000_0000
    && hi == ((ah + bh) % 0x1_0000_0000 + CarryOut(lo, al)) % 0x1_0000_0000
  }

  lemma CarryMakes(al: nat, ah: nat, bl: nat, bh: nat, lo: nat, hi: nat, v: nat, w: nat)
    requires Carries(al, ah, bl, bh, lo, hi) && v == al + 0x1_0000_0000 * ah && w == bl + 0x1_0000_0000 * bh
    ensures lo + 0x1_0000_0000 * hi == Wrap(v + w, I64)
  {
    CarrySum(al, ah, bl, bh);
  }

  lemma AddMakes(env: Env, x: Halves, y: Halves, v: nat, w: nat)
    requires Makes(env, x, v) && Makes(env, y, w)
    ensures Makes(env, AddHalves(x, y), Wrap(v + w, I64))
  {
    var s := AddHalves(x, y);
    AddCarries(env, x, y);
    CarryMakes(Eval(env, x.lo), Eval(env, x.hi), Eval(env, y.lo), Eval(env, y.hi),
      Eval(env, s.lo), Eval(env, s.hi), v, w);
  }

  lemma AddCarries(env: Env, x: Halves, y: Halves)
    requires DtOf(x.lo) == I32 && DtOf(x.hi) == I32 && DtOf(y.lo) == I32
    ensures var s := AddHalves(x, y);
      Carries(Eval(env, x.lo), Eval(env, x.hi), Eval(env, y.lo), Eval(env, y.hi), Eval(env, s.lo), Eval(env, s.hi))
  {
    AddEval(env, x.lo, y.lo);
    AddHigh(env, x, y);
  }

  lemma AddHigh(env: Env, x: Halves, y: Halves)
    requires DtOf(x.lo) == I32 && DtOf(x.hi) == I32
    ensures var s := AddHalves(x, y);
      Eval(env, s.hi) == ((Eval(env, x.hi) + Eval(env, y.hi)) % 0x1_0000_0000
        + CarryOut(Eval(env, s.lo), Eval(env, x.lo))) % 0x1_0000_0000
  {
    var lo, high := BinOp(Add, I32, x.lo, y.lo), BinOp(Add, I32, x.hi, y.hi);
    AddEval(env, x.hi, y.hi);
    CarryEval(env, lo, x.lo);
    AddEval(env, high, BinOp(ULt, I32, lo, x.lo));
  }

  lemma SignParts(p: nat)
    requires p < 0x1_0000_0000
    ensures var s := Signed(p, I32); p + 0x1_0000_0000 * Wrap(if s < 0 then -1 else 0, I32) == Wrap(s, I64)
  {
  }

  lemma SignHigh(env: Env, e: Expr)
    requires DtOf(e) == I32
    ensures Eval(env, BinOp(Shr, I32, e, Const(I32, 31))) == Wrap(if Signed(Eval(env, e), I32) < 0 then -1 else 0, I32)
  {
    var s := Signed(Eval(env, e), I32);
    ConstValue(env, 31);
    ModulusIsPow2(I32);
    SignedWraps(Eval(env, e), I32);
    SignRemains(s, 31);
  }

  lemma SignMakes(env: Env, e: Expr)
    requires DtOf(e) == I32
    ensures Makes(env, Halves(e, BinOp(Shr, I32, e, Const(I32, 31))), Wrap(Signed(Eval(env, e), I32), I64))
  {
    SignHigh(env, e);
    SignParts(Eval(env, e));
  }

  /** Disjoint bits can be or-ed or added. */
  lemma {:induction false} OrIsSum(x: nat, y: nat, k: nat)
    requires y < Pow2(k)
    ensures Bitwise(OrGate, x * Pow2(k), y) == x * Pow2(k) + y
  {
    if k == 0 {
      assert x * Pow2(0) == x;
      OrZero(x);
    } else {
      var a := x * Pow2(k);
      assert a == 2 * (x * Pow2(k - 1));
      assert a % 2 == 0 && a / 2 == x * Pow2(k - 1);
      OrIsSum(x, y / 2, k - 1);
    }
  }

  lemma {:induction false} OrZero(x: nat)
    ensures Bitwise(OrGate, x, 0) == x
  {
    if x > 0 { OrZero(x / 2); }
  }

  lemma MulMono(p: nat, a: int, b: int)
    ensures a <= b ==> p * a <= p * b
  {
    if a <= b {
      assert p * b == p * a + p * (b - a);
      assert p * (b - a) >= 0;
    }
  }

  /** A 32-bit shift by the factor p: what stays, and what leaves at the top. */
  lemma ShiftParts(a: nat, p: nat, q: nat)
    requires p > 0 && q > 0 && p * q == 0x1_0000_0000
    ensures a * p == 0x1_0000_0000 * (a / q) + (a % q) * p
    ensures (a * p) % 0x1_0000_0000 == (a % q) * p && (a % q) * p + p <= 0x1_0000_0000
  {
    var t, u := a / q, a % q;
    assert a == q * t + u;
    assert a * p == (q * t) * p + u * p;
    assert (q * t) * p == (p * q) * t;
    MulMono(p, u + 1, q);
    assert p * (u + 1) == u * p + p;
    assert u * p >= 0;
    SameRemainder(a * p, u * p, 0x1_0000_0000, t);
    SmallRemainder(u * p, 0x1_0000_0000);
  }

  lemma LeavingBelow(a: nat, p: nat, q: nat)
    requires p > 0 && q > 0 && p * q == 0x1_0000_0000 && a < 0x1_0000_0000
    ensures 0 <= a / q < p
  {
    var x := a / q;
    assert a == q * x + a % q;
    MulMono(q, p, x);
    MulMono(q, x, -1);
    assert q * p == p * q;
  }

  /** Shifting the pair: what leaves the low half enters the high half. */
  lemma ShiftTotal(al: nat, ah: nat, p: nat, low: nat, hi: nat, mid: nat, t: nat)
    requires al * p == 0x1_0000_0000 * hi + low && ah * p == 0x1_0000_0000 * t + mid
    requires low < 0x1_0000_0000 && mid + hi < 0x1_0000_0000
    ensures low + 0x1_0000_0000 * (mid + hi) == ((al + 0x1_0000_0000 * ah) * p) % 0x1_0000_0000_0000_0000
  {
    var total := (al + 0x1_0000_0000 * ah) * p;
    assert total == al * p + 0x1_0000_0000 * (ah * p);
    assert total == low + 0x1_0000_0000 * (mid + hi) + 0x1_0000_0000_0000_0000 * t;
    SameRemainder(total, low + 0x1_0000_0000 * (mid + hi), 0x1_0000_0000_0000_0000, t);
    SmallRemainder(low + 0x1_0000_0000 * (mid + hi), 0x1_0000_0000_0000_0000);
  }

  lemma ShiftSplits(al: nat, ah: nat, p: nat, q: nat)
    requires p > 0 && q > 0 && p * q == 0x1_0000_0000 && al < 0x1_0000_0000
    ensures (ah * p) % 0x1_0000_0000 == (ah % q) * p && 0 <= al / q < p && (ah % q) * p + al / q < 0x1_0000_0000
    ensures (al * p) % 0x1_0000_0000 + 0x1_0000_0000 * ((ah % q) * p + al / q)
      == ((al + 0x1_0000_0000 * ah) * p) % 0x1_0000_0000_0000_0000
  {
    ShiftParts(al, p, q);
    ShiftParts(ah, p, q);
    LeavingBelow(al, p, q);
    LeavingBelow2(ah, q);
    ShiftTotal(al, ah, p, (al % q) * p, al / q, (ah % q) * p, ah / q);
  }

  lemma LeavingBelow2(a: nat, q: nat)
    requires q > 0
    ensures a / q >= 0
  {
    var x := a / q;
    assert a == q * x + a % q;
    MulMono(q, x, -1);
  }

  // ---- shifting ----

  lemma ShiftLow(env: Env, e: Expr, k: nat)
    requires DtOf(e) == I32 && k < 32
    ensures Eval(env, BinOp(Shl, I32, e, Const(I32, k))) == (Eval(env, e) * Pow2(k)) % 0x1_0000_0000
  {
    ConstValue(env, k);
    ShlEval(env, e, Const(I32, k));
  }

  lemma ShlEval(env: Env, e: Expr, c: Expr)
    requires DtOf(e) == I32 && Eval(env, c) < 32
    ensures Eval(env, BinOp(Shl, I32, e, c)) == Wrap(Eval(env, e) * Pow2(Eval(env, c)), I32)
  {
    assert BinValue(Shl, I32, Eval(env, e), Eval(env, c)) == Eval(env, e) * Pow2(Eval(env, c));
  }

  lemma ShiftDown(env: Env, e: Expr, k: nat)
    requires DtOf(e) == I32 && 0 < k < 32
    ensures Eval(env, BinOp(UShr, I32, e, Const(I32, 32 - k))) == (Eval(env, e) / Pow2(32 - k)) % 0x1_0000_0000
  {
    ConstValue(env, 32 - k);
  }

  /** The numbers of a shift by k. */
  lemma ShiftNumbers(al: nat, ah: nat, k: nat, v: nat, mid: nat, low: nat)
    requires 0 < k < 32 && al < 0x1_0000_0000 && v == al + 0x1_0000_0000 * ah
    requires mid == (ah % Pow2(32 - k)) * Pow2(k) && low == al / Pow2(32 - k)
    ensures (ah * Pow2(k)) % 0x1_0000_0000 == mid && low < Pow2(k) && mid + low < 0x1_0000_0000
    ensures (al * Pow2(k)) % 0x1_0000_0000 + 0x1_0000_0000 * (mid + low) == Wrap(v * Pow2(k), I64)
  {
    Pow2Adds(k, 32 - k);
    Pow2Values();
    ShiftSplits(al, ah, Pow2(k), Pow2(32 - k));
  }

  lemma ShiftMakes(env: Env, x: Halves, k: nat, v: nat)
    requires Makes(env, x, v) && k < 32 && v < 0x1_0000_0000_0000_0000
    ensures Makes(env, ShiftHalves(x, k), Wrap(v * Pow2(k), I64))
  {
    if k == 0 {
      assert v * Pow2(0) == v;
      SmallRemainder(v, 0x1_0000_0000_0000_0000);
    } else {
      ShiftPositive(env, x, k, v);
    }
  }

  lemma ShiftPositive(env: Env, x: Halves, k: nat, v: nat)
    requires Makes(env, x, v) && 0 < k < 32
    ensures Makes(env, ShiftHalves(x, k), Wrap(v * Pow2(k), I64))
  {
    var al, ah := Eval(env, x.lo), Eval(env, x.hi);
    var mid, low := (ah % Pow2(32 - k)) * Pow2(k), al / Pow2(32 - k);
    NonNegative(ah % Pow2(32 - k), Pow2(k));
    LeavingBelow2(al, Pow2(32 - k));
    ShiftNumbers(al, ah, k, v, mid, low);
    ShiftLow(env, x.lo, k);
    ShiftHigh(env, x, k, mid, low);
    ShiftTyped(x, k);
  }

  lemma NonNegative(a: nat, b: nat)
    ensures a * b >= 0
  {
  }

  lemma ShiftTyped(x: Halves, k: nat)
    requires 0 < k < 32
    ensures ShiftHalves(x, k).lo == BinOp(Shl, I32, x.lo, Const(I32, k)) && DtOf(ShiftHalves(x, k).hi) == I32
  {
  }

  lemma ShiftHigh(env: Env, x: Halves, k: nat, mid: nat, low: nat)
    requires 0 < k < 32 && DtOf(x.lo) == I32 && DtOf(x.hi) == I32
    requires mid == (Eval(env, x.hi) % Pow2(32 - k)) * Pow2(k) && mid == (Eval(env, x.hi) * Pow2(k)) % 0x1_0000_0000
    requires low == Eval(env, x.lo) / Pow2(32 - k) && low < Pow2(k) && mid + low < 0x1_0000_0000
    ensures Eval(env, ShiftHalves(x, k).hi) == mid + low
  {
    ShiftLow(env, x.hi, k);
    ShiftDown(env, x.lo, k);
    SmallRemainder(low, 0x1_0000_0000);
    OrIsSum(Eval(env, x.hi) % Pow2(32 - k), low, k);
    SmallRemainder(mid + low, 0x1_0000_0000);
    OrEval(env, BinOp(Shl, I32, x.hi, Const(I32, k)), BinOp(UShr, I32, x.lo, Const(I32, 32 - k)));
  }

  lemma OrEval(env: Env, a: Expr, b: Expr)
    requires DtOf(a) == I32
    ensures Eval(env, BinOp(Or, I32, a, b)) == Bitwise(OrGate, Eval(env, a), Eval(env, b)) % 0x1_0000_0000
  {
  }

  // ---- scaling by a power of two ----

  lemma {:induction false} NoOnes(n: nat)
    ensures Ones(n) == 0 <==> n == 0
  {
    if n > 0 { NoOnes(n / 2); }
  }

  /** A number with one bit set is two to the number of its trailing zeros. */
  lemma {:induction false} OneBit(n: nat)
    requires Ones(n) == 1
    ensures n > 0 && n == Pow2(TrailingZeros(n))
  {
    if n % 2 == 1 { NoOnes(n / 2); } else { OneBit(n / 2); }
  }

  /** And the other way round. */
  lemma {:induction false} PowerHasOneBit(s: nat)
    ensures Ones(Pow2(s)) == 1 && TrailingZeros(Pow2(s)) == s
  {
    if s == 0 {
      assert Ones(1) == 1 + Ones(0);
    } else {
      PowerHasOneBit(s - 1);
      assert Pow2(s) % 2 == 0 && Pow2(s) / 2 == Pow2(s - 1);
    }
  }

  /** Everything that can be split is. */
  lemma {:induction false} SplitAccepts(a: Addr)
    ensures Split(a).Some? <==> Accepted(a)
    decreases a
  {
    match a
    case Plus(x, y) => SplitAccepts(x); SplitAccepts(y);
    case Times(x, k) => SplitAccepts(x); StrideAccepted(Unsigned64(k));
    case ShiftLeft(x, _) => SplitAccepts(x);
    case Uniform(offset) => LanesAccepted(offset);
    case _ =>
  }

  lemma LanesAccepted(offset: nat)
    ensures offset % 4 == 0 && offset + 4 < GRF_BYTES <==> exists k: nat :: offset == 4 * k && InRegister(k + 1)
  {
    if offset % 4 == 0 && offset + 4 < GRF_BYTES {
      assert offset == 4 * (offset / 4) && InRegister(offset / 4 + 1);
    }
  }

  lemma StrideAccepted(n: nat)
    ensures n != 0 && Ones(n) == 1 && TrailingZeros(n) < 32 <==> SmallPower(n)
  {
    if n != 0 && Ones(n) == 1 && TrailingZeros(n) < 32 { OneBit(n); }
    if SmallPower(n) {
      var s: nat :| s < 32 && n == Pow2(s);
      PowerHasOneBit(s);
    }
  }

  lemma {:induction false} ValueFits(env: Env, a: Addr)
    requires Split(a).Some?
    ensures Value(env, a) < 0x1_0000_0000_0000_0000
  {
  }

  lemma LeafMakesValue(env: Env, a: Addr)
    requires Split(a).Some? && !a.Plus? && !a.Times? && !a.ShiftLeft?
    ensures Makes(env, Split(a).value, Value(env, a))
  {
    ConstValue(env, 0);
    if a.Constant? {
      ConstValue(env, Unsigned64(a.value) % 0x1_0000_0000);
      ConstValue(env, Unsigned64(a.value) / 0x1_0000_0000);
    } else if a.SignExtend? {
      SignMakes(env, a.src);
    }
  }

  /** The halves of every accepted address expression make up its value. */
  lemma {:induction false} SplitMakesValue(env: Env, a: Addr)
    requires Split(a).Some?
    ensures Makes(env, Split(a).value, Value(env, a))
    decreases a
  {
    if a.Plus? {
      SplitMakesValue(env, a.a);
      SplitMakesValue(env, a.b);
      AddMakes(env, Split(a.a).value, Split(a.b).value, Value(env, a.a), Value(env, a.b));
    } else if a.Times? {
      SplitMakesValue(env, a.a);
      ValueFits(env, a.a);
      OneBit(Unsigned64(a.amount));
      ShiftMakes(env, Split(a.a).value, TrailingZeros(Unsigned64(a.amount)), Value(env, a.a));
    } else if a.ShiftLeft? {
      SplitMakesValue(env, a.a);
      ValueFits(env, a.a);
      ShiftMakes(env, Split(a.a).value, Unsigned64(a.amount), Value(env, a.a));
    } else {
      LeafMakesValue(env, a);
    }
  }
}
