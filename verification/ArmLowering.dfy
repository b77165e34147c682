/**
  Rewriting integer operations into what the 64-bit Arm instruction set has: narrow operations are
  done in 32 bits, shifts by any count use shifts that mask their count, remainders become a
  multiply-subtract.
 */
module ArmLowering {
  import opened Basics
  import opened MachineInts
  import opened Expressions

  // ---- the rewrites ----

  predicate Narrow(dt: Dt) { dt == I8 || dt == I16 }

  predicate SignedOp(op: Bin) { op in {Le, Lt, Gt, Ge, Div, Rem, Shr} }

  function Extend(e: Expr, ext: Un): Expr {
    if Narrow(DtOf(e)) then UnOp(ext, I32, e) else e
  }

  /** Narrow operations are done in 32 bits; all but comparisons are cut back to the original width. */
  function WidenBin(op: Bin, dt: Dt, l: Expr, r: Expr): Expr {
    var ext := if SignedOp(op) then Conv else UConv;
    var l', r' := Extend(l, ext), Extend(r, if Shift(op) then UConv else ext);
    if Comparison(op) then BinOp(op, dt, l', r') else UnOp(UConv, dt, BinOp(op, I32, l', r'))
  }

  function WidenUn(un: Un, dt: Dt, e: Expr): Expr {
    UnOp(UConv, dt, UnOp(un, I32, Extend(e, UConv)))
  }

  function WideCount(count: Expr): Expr {
    Extend(count, UConv)
  }

  function LowerConstShift(op: Bin, dt: Dt, l: Expr, count: Expr): Expr
    requires count.Const?
  {
    if count.value == 0 then l
    else if 0 <= count.value < Bits(dt) then Native(op, dt, l, WideCount(count))
    else if op != Shr then Const(dt, 0)
    else Native(op, dt, l, Const(DtOf(WideCount(count)), Bits(dt) - 1))
  }

  function InRange(dt: Dt, count: Expr): Expr {
    BinOp(ULt, I8, WideCount(count), Const(DtOf(WideCount(count)), Bits(dt)))
  }

  function LowerShift(op: Bin, dt: Dt, l: Expr, count: Expr): Expr {
    var wide := WideCount(count);
    if count.Const? then LowerConstShift(op, dt, l, count)
    else if op == Shr
      then Native(op, dt, l, Select(DtOf(wide), wide, Const(DtOf(wide), Bits(dt) - 1), InRange(dt, count)))
    else Select(dt, Native(op, dt, l, wide), Const(dt, 0), InRange(dt, count))
  }

  function LowerRem(op: Bin, dt: Dt, l: Expr, r: Expr): Expr {
    Msub(dt, BinOp(DivFor(op), dt, l, r), r, l)
  }

  function Peep(e: Expr): Option<Expr> {
    match e
    case BinOp(op, dt, l, r) =>
      if Narrow(if Comparison(op) then DtOf(l) else dt) then Some(WidenBin(op, dt, l, r))
      else if Shift(op) then Some(LowerShift(op, dt, l, r))
      else if op == Rem || op == URem then Some(LowerRem(op, dt, l, r))
      else None
    case UnOp(un, dt, x) => if (un == Neg || un == Not) && Narrow(dt) then Some(WidenUn(un, dt, x)) else None
    case _ => None
  }

  // ---- narrow operations ----

  /** Extending and computing in 32 bits, then cutting back, is the narrow operation. */
  lemma WideUnsigned(op: Bin, dt: Dt, a: nat, b: nat)
    requires Narrow(dt) && op in {Add, Sub, Mul, UDiv, URem} && a < Modulus(dt) && b < Modulus(dt)
    ensures Wrap(Wrap(BinValue(op, I32, a, b), I32), dt) == Wrap(BinValue(op, dt, a, b), dt)
  {
    TruncateWide(BinValue(op, I32, a, b), dt);
  }

  lemma WideBitwise(op: Bin, dt: Dt, a: nat, b: nat)
    requires Narrow(dt) && op in {And, Or, Xor, AndNot} && a < Modulus(dt) && b < Modulus(dt)
    ensures Wrap(Wrap(BinValue(op, I32, a, b), I32), dt) == Wrap(BinValue(op, dt, a, b), dt)
  {
    TruncateWide(BinValue(op, I32, a, b), dt);
  }

  lemma WideSigned(op: Bin, dt: Dt, a: nat, b: nat, wa: nat, wb: nat)
    requires Narrow(dt) && op in {Div, Rem} && Signed(wa, I32) == Signed(a, dt) && Signed(wb, I32) == Signed(b, dt)
    ensures Wrap(Wrap(BinValue(op, I32, wa, wb), I32), dt) == Wrap(BinValue(op, dt, a, b), dt)
  {
    TruncateWide(BinValue(op, I32, wa, wb), dt);
  }

  /** Sign extension keeps the signed reading. */
  lemma ExtendedSigned(a: nat, dt: Dt)
    requires Narrow(dt) && a < Modulus(dt)
    ensures Signed(Wrap(Signed(a, dt), I32), I32) == Signed(a, dt)
  {
    SignedWraps(a, dt);
    WrapSigned(Signed(a, dt), I32);
  }

  lemma WideShl(dt: Dt, a: nat, c: nat)
    requires Narrow(dt) && a < Modulus(dt)
    ensures Wrap(Wrap(BinValue(Shl, I32, a, c), I32), dt) == Wrap(BinValue(Shl, dt, a, c), dt)
  {
    TruncateWide(BinValue(Shl, I32, a, c), dt);
    if Bits(dt) <= c { ShiftedAway(a, c, dt); }
  }

  lemma WideUShr(dt: Dt, a: nat, c: nat)
    requires Narrow(dt) && a < Modulus(dt)
    ensures BinValue(UShr, I32, a, c) == BinValue(UShr, dt, a, c)
  {
    if Bits(dt) <= c < 32 {
      ModulusIsPow2(dt);
      Pow2Grows(Bits(dt), c);
      ShiftedOut(a, c);
    }
  }

  lemma WideShr(dt: Dt, a: nat, wa: nat, c: nat)
    requires Narrow(dt) && a < Modulus(dt) && Signed(wa, I32) == Signed(a, dt)
    ensures BinValue(Shr, I32, wa, c) == BinValue(Shr, dt, a, c)
  {
    var s := Signed(a, dt);
    SignedWraps(a, dt);
    ModulusIsPow2(dt);
    if Bits(dt) <= c {
      SignRemains(s, Bits(dt) - 1);
      Pow2Grows(Bits(dt) - 1, Clamp(c, I32));
      SignRemains(s, Clamp(c, I32));
    }
  }

  /** The extended operand: the same pattern, or the same signed reading. */
  lemma ExtendValue(env: Env, e: Expr, ext: Un)
    requires ext == Conv || ext == UConv
    ensures DtOf(Extend(e, ext)) == if Narrow(DtOf(e)) then I32 else DtOf(e)
    ensures ext == UConv || !Narrow(DtOf(e)) ==> Eval(env, Extend(e, ext)) == Eval(env, e)
    ensures ext == Conv && Narrow(DtOf(e)) ==> Signed(Eval(env, Extend(e, ext)), I32) == Signed(Eval(env, e), DtOf(e))
  {
    var a, dt := Eval(env, e), DtOf(e);
    if Narrow(dt) {
      if ext == UConv { SmallRemainder(a, Modulus(I32)); } else { ExtendedSigned(a, dt); }
    }
  }

  /** All narrow operations but comparisons, on the values. */
  lemma WideArithmetic(op: Bin, dt: Dt, a: nat, b: nat, wa: nat, wb: nat)
    requires Narrow(dt) && !Comparison(op) && a < Modulus(dt) && (Shift(op) || b < Modulus(dt))
    requires if SignedOp(op) then Signed(wa, I32) == Signed(a, dt) else wa == a
    requires if SignedOp(op) && !Shift(op) then Signed(wb, I32) == Signed(b, dt) else wb == b
    ensures Wrap(Wrap(BinValue(op, I32, wa, wb), I32), dt) == Wrap(BinValue(op, dt, a, b), dt)
  {
    if op in {Add, Sub, Mul, UDiv, URem} { WideUnsigned(op, dt, a, b); }
    else if op in {And, Or, Xor, AndNot} { WideBitwise(op, dt, a, b); }
    else if op == Shl { WideShl(dt, a, b); }
    else if op == UShr { WideUShr(dt, a, b); TruncateWide(BinValue(op, I32, a, b), dt); }
    else if op == Shr { WideShr(dt, a, wa, b); TruncateWide(BinValue(op, I32, wa, b), dt); }
    else { WideSigned(op, dt, a, b, wa, wb); }
  }

  lemma WideComparison(op: Bin, dt: Dt, a: nat, b: nat, wa: nat, wb: nat)
    requires Narrow(dt) && Comparison(op)
    requires if SignedOp(op) then Signed(wa, I32) == Signed(a, dt) && Signed(wb, I32) == Signed(b, dt)
      else wa == a && wb == b
    ensures BinValue(op, I32, wa, wb) == BinValue(op, dt, a, b)
  {
  }

  lemma WidenBinPreserves(env: Env, op: Bin, dt: Dt, l: Expr, r: Expr)
    requires WellTyped(BinOp(op, dt, l, r)) && Narrow(if Comparison(op) then DtOf(l) else dt)
    ensures WellTyped(WidenBin(op, dt, l, r)) && DtOf(WidenBin(op, dt, l, r)) == dt
    ensures Eval(env, WidenBin(op, dt, l, r)) == Eval(env, BinOp(op, dt, l, r))
  {
    var ext := if SignedOp(op) then Conv else UConv;
    var rext := if Shift(op) then UConv else ext;
    var l', r' := Extend(l, ext), Extend(r, rext);
    ExtendValue(env, l, ext);
    ExtendValue(env, r, rext);
    var a, b, wa, wb := Eval(env, l), Eval(env, r), Eval(env, l'), Eval(env, r');
    if Comparison(op) {
      WideComparison(op, DtOf(l), a, b, wa, wb);
    } else {
      WideArithmetic(op, dt, a, b, wa, wb);
      assert Eval(env, BinOp(op, I32, l', r')) == Wrap(BinValue(op, I32, wa, wb), I32);
    }
  }

  lemma WideNeg(dt: Dt, a: nat)
    requires Narrow(dt) && a < Modulus(dt)
    ensures Wrap(Wrap(UnValue(Neg, I32, a), I32), dt) == Wrap(UnValue(Neg, dt, a), dt)
  {
    TruncateWide(0 - a, dt);
  }

  lemma WideNot(dt: Dt, a: nat)
    requires Narrow(dt) && a < Modulus(dt)
    ensures Wrap(Wrap(UnValue(Not, I32, a), I32), dt) == Wrap(UnValue(Not, dt, a), dt)
  {
    TruncateWide(Modulus(I32) - 1 - a, dt);
    NarrowDivides(dt);
    var q := if dt == I8 then 0x100_0000 else 0x1_0000;
    SameRemainder(Modulus(I32) - 1 - a, Modulus(dt) - 1 - a, Modulus(dt), q - 1);
  }

  lemma WidenUnPreserves(env: Env, un: Un, dt: Dt, x: Expr)
    requires WellTyped(UnOp(un, dt, x)) && Narrow(dt) && (un == Neg || un == Not)
    ensures WellTyped(WidenUn(un, dt, x)) && DtOf(WidenUn(un, dt, x)) == dt
    ensures Eval(env, WidenUn(un, dt, x)) == Eval(env, UnOp(un, dt, x))
  {
    ExtendValue(env, x, UConv);
    var a := Eval(env, x);
    if un == Neg { WideNeg(dt, a); } else { WideNot(dt, a); }
    assert Eval(env, UnOp(un, I32, Extend(x, UConv))) == Wrap(UnValue(un, I32, a), I32);
  }

  // ---- shifts ----

  /** The pattern of a constant count is out of range exactly when the constant is. */
  lemma CountPattern(cdt: Dt, v: int, dt: Dt)
    requires -(Modulus(cdt) / 2) <= v < Modulus(cdt)
    ensures if 0 <= v < Bits(dt) then Wrap(v, cdt) == v else Wrap(v, cdt) >= Bits(dt)
  {
    if v < 0 {
      SameRemainder(v, v + Modulus(cdt), Modulus(cdt), -1);
      SmallRemainder(v + Modulus(cdt), Modulus(cdt));
    } else {
      SmallRemainder(v, Modulus(cdt));
    }
  }

  /** In range, the masked shift is the shift. */
  lemma MaskedInRange(op: Bin, dt: Dt, a: nat, c: nat)
    requires Shift(op) && c < Bits(dt)
    ensures NativeValue(op, dt, a, c) == BinValue(op, dt, a, c)
  {
    SmallRemainder(c, Bits(dt));
  }

  lemma ShiftByNothing(op: Bin, dt: Dt, a: nat)
    requires Shift(op) && a < Modulus(dt)
    ensures Wrap(BinValue(op, dt, a, 0), dt) == a
  {
    assert Pow2(0) == 1;
    if op == Shr {
      assert BinValue(Shr, dt, a, 0) == Signed(a, dt);
      SignedWraps(a, dt);
    } else {
      assert BinValue(op, dt, a, 0) == a;
      SmallRemainder(a, Modulus(dt));
    }
  }

  lemma ConstShiftTyped(op: Bin, dt: Dt, l: Expr, count: Expr)
    requires Shift(op) && WellTyped(BinOp(op, dt, l, count)) && count.Const?
    ensures WellTyped(LowerConstShift(op, dt, l, count)) && DtOf(LowerConstShift(op, dt, l, count)) == dt
  {
  }

  lemma ConstShiftPreserves(env: Env, op: Bin, dt: Dt, l: Expr, count: Expr)
    requires Shift(op) && WellTyped(BinOp(op, dt, l, count)) && count.Const?
    ensures Eval(env, LowerConstShift(op, dt, l, count)) == Eval(env, BinOp(op, dt, l, count))
  {
    var a, c := Eval(env, l), Eval(env, count);
    CountPattern(count.cdt, count.value, dt);
    if count.value == 0 {
      ShiftByNothing(op, dt, a);
    } else if 0 <= count.value < Bits(dt) {
      ExtendValue(env, count, UConv);
      MaskedInRange(op, dt, a, c);
    } else if op != Shr {
      SmallRemainder(0, Modulus(dt));
    } else {
      ClampedConstPreserves(env, dt, l, count);
    }
  }

  lemma ClampedConstPreserves(env: Env, dt: Dt, l: Expr, count: Expr)
    requires DtOf(l) == dt && Eval(env, count) >= Bits(dt)
    ensures Eval(env, Native(Shr, dt, l, Const(DtOf(WideCount(count)), Bits(dt) - 1))) ==
      Eval(env, BinOp(Shr, dt, l, count))
  {
    SmallRemainder(Bits(dt) - 1, Modulus(DtOf(WideCount(count))));
    MaskedInRange(Shr, dt, Eval(env, l), Bits(dt) - 1);
  }

  lemma InRangeValue(env: Env, dt: Dt, count: Expr)
    requires WellTyped(count)
    ensures WellTyped(InRange(dt, count)) && WellTyped(WideCount(count))
    ensures Eval(env, WideCount(count)) == Eval(env, count)
    ensures Eval(env, InRange(dt, count)) != 0 <==> Eval(env, count) < Bits(dt)
  {
    ExtendValue(env, count, UConv);
    SmallRemainder(Bits(dt), Modulus(DtOf(WideCount(count))));
  }

  lemma SelectValue(env: Env, dt: Dt, yes: Expr, no: Expr, cond: Expr)
    requires DtOf(yes) == dt && DtOf(no) == dt
    ensures Eval(env, Select(dt, yes, no, cond)) == if Eval(env, cond) != 0 then Eval(env, yes) else Eval(env, no)
  {
    SmallRemainder(Eval(env, yes), Modulus(dt));
    SmallRemainder(Eval(env, no), Modulus(dt));
  }

  lemma VariableShiftTyped(op: Bin, dt: Dt, l: Expr, count: Expr)
    requires Shift(op) && WellTyped(BinOp(op, dt, l, count)) && !count.Const?
    ensures WellTyped(LowerShift(op, dt, l, count)) && DtOf(LowerShift(op, dt, l, count)) == dt
  {
    var wide := WideCount(count);
    assert WellTyped(wide);
    assert WellTyped(Const(DtOf(wide), Bits(dt)));
    assert WellTyped(InRange(dt, count));
  }

  lemma GuardedShiftPreserves(env: Env, op: Bin, dt: Dt, l: Expr, count: Expr)
    requires op in {Shl, UShr} && WellTyped(BinOp(op, dt, l, count)) && !count.Const?
    ensures Eval(env, LowerShift(op, dt, l, count)) == Eval(env, BinOp(op, dt, l, count))
  {
    var a, c := Eval(env, l), Eval(env, count);
    var shift := Native(op, dt, l, WideCount(count));
    InRangeValue(env, dt, count);
    SelectValue(env, dt, shift, Const(dt, 0), InRange(dt, count));
    SmallRemainder(0, Modulus(dt));
    if c < Bits(dt) { MaskedInRange(op, dt, a, c); }
  }

  lemma ClampedShiftPreserves(env: Env, dt: Dt, l: Expr, count: Expr)
    requires WellTyped(BinOp(Shr, dt, l, count)) && !count.Const?
    ensures Eval(env, LowerShift(Shr, dt, l, count)) == Eval(env, BinOp(Shr, dt, l, count))
  {
    var a, c, wide := Eval(env, l), Eval(env, count), WideCount(count);
    var limit := Const(DtOf(wide), Bits(dt) - 1);
    ExtendValue(env, count, UConv);
    InRangeValue(env, dt, count);
    SmallRemainder(Bits(dt) - 1, Modulus(DtOf(wide)));
    SelectValue(env, DtOf(wide), wide, limit, InRange(dt, count));
    MaskedInRange(Shr, dt, a, Clamp(c, dt));
  }

  lemma ShiftPreserves(env: Env, op: Bin, dt: Dt, l: Expr, count: Expr)
    requires Shift(op) && WellTyped(BinOp(op, dt, l, count))
    ensures WellTyped(LowerShift(op, dt, l, count)) && DtOf(LowerShift(op, dt, l, count)) == dt
    ensures Eval(env, LowerShift(op, dt, l, count)) == Eval(env, BinOp(op, dt, l, count))
  {
    if count.Const? {
      ConstShiftTyped(op, dt, l, count);
      ConstShiftPreserves(env, op, dt, l, count);
    } else {
      VariableShiftTyped(op, dt, l, count);
      if op == Shr { ClampedShiftPreserves(env, dt, l, count); } else { GuardedShiftPreserves(env, op, dt, l, count); }
    }
  }

  // ---- remainders ----

  lemma SignedOffset(p: nat, dt: Dt)
    ensures exists k :: (k == 0 || k == 1) && p == Signed(p, dt) + Modulus(dt) * k
  {
    var k := if p < Modulus(dt) / 2 then 0 else 1;
    assert p == Signed(p, dt) + Modulus(dt) * k;
  }

  /** Also for the least value divided by -1, whose quotient wraps. */
  lemma SignedRem(dt: Dt, a: nat, b: nat)
    requires Signed(b, dt) != 0
    ensures MultiplySubtract(dt, Wrap(Quot(Signed(a, dt), Signed(b, dt)), dt), b, a) ==
      Wrap(Remainder(Signed(a, dt), Signed(b, dt)), dt)
  {
    var m, x, y := Modulus(dt), Signed(a, dt), Signed(b, dt);
    var t := Quot(x, y);
    var d := Wrap(t, dt);
    SignedOffset(a, dt);
    SignedOffset(b, dt);
    var i :| (i == 0 || i == 1) && a == x + m * i;
    var k :| (k == 0 || k == 1) && b == y + m * k;
    var j := -(t / m);
    assert t == m * (t / m) + d;
    assert m * j == -(m * (t / m));
    MulSubCongruent(a, x, d, t, b, y, m, i, j, k);
    QuotRemainder(x, y);
  }

  lemma UnsignedRem(dt: Dt, a: nat, b: nat)
    requires 0 < b < Modulus(dt) && a < Modulus(dt)
    ensures MultiplySubtract(dt, Wrap(a / b, dt), b, a) == Wrap(a % b, dt)
  {
    var q := a / b;
    QuotientBelow(a, b);
    SmallRemainder(q, Modulus(dt));
    assert q * b == b * q;
  }

  lemma QuotientBelow(a: nat, b: nat)
    requires b > 0
    ensures 0 <= a / b <= a && a == b * (a / b) + a % b
  {
    var q, r := a / b, a % b;
    assert a == b * q + r;
    Apart(b, q);
    if q >= 0 { MulGrows(b, q); }
  }

  lemma MulGrows(b: nat, q: nat)
    requires b >= 1
    ensures b * q >= q
  {
    assert b * q == q + (b - 1) * q;
    assert (b - 1) * q >= 0;
  }

  function DivFor(op: Bin): Bin { if op == Rem then Div else UDiv }

  /** Multiply-subtract gives the remainder exactly when the divisor is not zero, or nothing is divided. */
  lemma RemValue(op: Bin, dt: Dt, a: nat, b: nat)
    requires (op == Rem || op == URem) && a < Modulus(dt) && b < Modulus(dt)
    ensures MultiplySubtract(dt, Wrap(BinValue(DivFor(op), dt, a, b), dt), b, a) == Wrap(BinValue(op, dt, a, b), dt)
      <==> b != 0 || a == 0
  {
    if b == 0 {
      ZeroDivisor(op, dt, a);
    } else if op == Rem {
      SignedRem(dt, a, b);
    } else {
      UnsignedRem(dt, a, b);
    }
  }

  lemma ZeroDivisor(op: Bin, dt: Dt, a: nat)
    requires (op == Rem || op == URem) && a < Modulus(dt)
    ensures BinValue(DivFor(op), dt, a, 0) == 0 && BinValue(op, dt, a, 0) == 0 && Wrap(0, dt) == 0
    ensures MultiplySubtract(dt, 0, 0, a) == a
  {
    SmallRemainder(0, Modulus(dt));
    SmallRemainder(a, Modulus(dt));
  }

  lemma RemPreserves(env: Env, op: Bin, dt: Dt, l: Expr, r: Expr)
    requires (op == Rem || op == URem) && WellTyped(BinOp(op, dt, l, r))
    ensures Eval(env, LowerRem(op, dt, l, r)) == Eval(env, BinOp(op, dt, l, r)) <==>
      Eval(env, r) != 0 || Eval(env, l) == 0
  {
    RemValue(op, dt, Eval(env, l), Eval(env, r));
    assert Eval(env, BinOp(DivFor(op), dt, l, r)) == Wrap(BinValue(DivFor(op), dt, Eval(env, l), Eval(env, r)), dt);
  }

  lemma RemTyped(op: Bin, dt: Dt, l: Expr, r: Expr)
    requires (op == Rem || op == URem) && WellTyped(BinOp(op, dt, l, r))
    ensures WellTyped(LowerRem(op, dt, l, r)) && DtOf(LowerRem(op, dt, l, r)) == dt
  {
  }

  // ---- rewriting anywhere, any number of times ----

  /** No remainder by zero anywhere: there the operation is defined as 0 but multiply-subtract gives the dividend. */
  predicate Defined(env: Env, e: Expr) {
    match e
    case Input(_, _) => true
    case Const(_, _) => true
    case BinOp(op, _, l, r) => Defined(env, l) && Defined(env, r) && (op == Rem || op == URem ==> Eval(env, r) != 0)
    case UnOp(_, _, e) => Defined(env, e)
    case Select(_, a, b, c) => Defined(env, a) && Defined(env, b) && Defined(env, c)
    case Native(_, _, a, c) => Defined(env, a) && Defined(env, c)
    case Msub(_, a, b, c) => Defined(env, a) && Defined(env, b) && Defined(env, c)
  }

  /** A remainder by zero is lowered wrongly. */
  lemma RemByZeroDiffers(env: Env)
    ensures var e := BinOp(Rem, I32, Const(I32, 7), Const(I32, 0));
      WellTyped(e) && Peep(e).Some? && Eval(env, e) == 0 && Eval(env, Peep(e).value) == 7
  {
    var seven, zero := Const(I32, 7), Const(I32, 0);
    assert Eval(env, seven) == 7 && Eval(env, zero) == 0;
    assert Eval(env, BinOp(Div, I32, seven, zero)) == 0;
  }

  /** The replacement means the same, has the same type and is as defined. */
  predicate Faithful(env: Env, e: Expr, x: Expr) {
    WellTyped(x) && DtOf(x) == DtOf(e) && Eval(env, x) == Eval(env, e) && Defined(env, x)
  }

  lemma PeepPreserves(env: Env, e: Expr)
    requires WellTyped(e) && Defined(env, e) && Peep(e).Some?
    ensures Faithful(env, e, Peep(e).value)
  {
    if e.BinOp? {
      var op, dt, l, r := e.op, e.bdt, e.l, e.r;
      if Narrow(if Comparison(op) then DtOf(l) else dt) {
        WidenBinPreserves(env, op, dt, l, r);
        WidenDefined(env, op, dt, l, r);
      } else if Shift(op) {
        ShiftPreserves(env, op, dt, l, r);
        ShiftDefined(env, op, dt, l, r);
      } else {
        RemPreserves(env, op, dt, l, r);
        RemTyped(op, dt, l, r);
      }
    } else {
      WidenUnPreserves(env, e.un, e.udt, e.e);
    }
  }

  lemma WidenDefined(env: Env, op: Bin, dt: Dt, l: Expr, r: Expr)
    requires WellTyped(BinOp(op, dt, l, r)) && Defined(env, BinOp(op, dt, l, r))
    ensures Defined(env, WidenBin(op, dt, l, r))
  {
    var ext := if SignedOp(op) then Conv else UConv;
    ExtendValue(env, r, if Shift(op) then UConv else ext);
    if op == Rem && Narrow(DtOf(r)) {
      SignedWraps(Eval(env, r), DtOf(r));
    }
  }

  lemma ShiftDefined(env: Env, op: Bin, dt: Dt, l: Expr, count: Expr)
    requires Shift(op) && Defined(env, l) && Defined(env, count)
    ensures Defined(env, LowerShift(op, dt, l, count))
  {
    var wide := WideCount(count);
    assert Defined(env, wide);
    if !count.Const? {
      InRangeDefined(env, dt, count);
      if op == Shr {
        assert Defined(env, Select(DtOf(wide), wide, Const(DtOf(wide), Bits(dt) - 1), InRange(dt, count)));
      } else {
        assert Defined(env, Native(op, dt, l, wide));
      }
    }
  }

  lemma InRangeDefined(env: Env, dt: Dt, count: Expr)
    requires Defined(env, count)
    ensures Defined(env, InRange(dt, count))
  {
  }

  function Parts(e: Expr): (parts: seq<Expr>)
    ensures forall i :: 0 <= i < |parts| ==> parts[i] < e
  {
    match e
    case Input(_, _) => []
    case Const(_, _) => []
    case BinOp(_, _, l, r) => [l, r]
    case UnOp(_, _, x) => [x]
    case Select(_, a, b, c) => [a, b, c]
    case Native(_, _, a, c) => [a, c]
    case Msub(_, a, b, c) => [a, b, c]
  }

  function WithPart(e: Expr, i: nat, y: Expr): (x: Expr)
    requires i < |Parts(e)|
    ensures Parts(x) == Parts(e)[i := y] && DtOf(x) == DtOf(e)
  {
    match e
    case BinOp(_, _, _, _) => if i == 0 then e.(l := y) else e.(r := y)
    case UnOp(_, _, _) => e.(e := y)
    case Select(_, _, _, _) => if i == 0 then e.(yes := y) else if i == 1 then e.(no := y) else e.(cond := y)
    case Native(_, _, _, _) => if i == 0 then e.(from := y) else e.(count := y)
    case Msub(_, _, _, _) => if i == 0 then e.(times := y) else if i == 1 then e.(factor := y) else e.(minuend := y)
  }

  /** x results from one rewrite somewhere in e. */
  predicate Steps(e: Expr, x: Expr)
    decreases e, 1
  {
    Peep(e) == Some(x) || exists i :: 0 <= i < |Parts(e)| && StepsIn(e, x, i)
  }

  predicate StepsIn(e: Expr, x: Expr, i: nat)
    requires i < |Parts(e)|
    decreases e, 0
  {
    i < |Parts(x)| && x == WithPart(e, i, Parts(x)[i]) && Steps(Parts(e)[i], Parts(x)[i])
  }

  lemma StepInside(e: Expr, x: Expr) returns (i: nat)
    requires Steps(e, x) && Peep(e) != Some(x)
    ensures i < |Parts(e)| && i < |Parts(x)| && Steps(Parts(e)[i], Parts(x)[i]) && x == WithPart(e, i, Parts(x)[i])
  {
    var j :| 0 <= j < |Parts(e)| && StepsIn(e, x, j);
    i := j;
  }

  lemma BinPreserves(env: Env, e: Expr, l: Expr, r: Expr)
    requires e.BinOp? && WellTyped(e) && Defined(env, e) && Faithful(env, e.l, l) && Faithful(env, e.r, r)
    ensures Faithful(env, e, BinOp(e.op, e.bdt, l, r))
  {
    assert BinValue(e.op, DtOf(l), Eval(env, l), Eval(env, r)) ==
      BinValue(e.op, DtOf(e.l), Eval(env, e.l), Eval(env, e.r));
  }

  lemma UnPreserves(env: Env, e: Expr, x: Expr)
    requires e.UnOp? && WellTyped(e) && Defined(env, e) && Faithful(env, e.e, x)
    ensures Faithful(env, e, UnOp(e.un, e.udt, x))
  {
    assert UnValue(e.un, DtOf(x), Eval(env, x)) == UnValue(e.un, DtOf(e.e), Eval(env, e.e));
  }

  lemma SelectPreserves(env: Env, e: Expr, a: Expr, b: Expr, c: Expr)
    requires e.Select? && WellTyped(e) && Defined(env, e)
    requires Faithful(env, e.yes, a) && Faithful(env, e.no, b) && Faithful(env, e.cond, c)
    ensures Faithful(env, e, Select(e.sdt, a, b, c))
  {
  }

  lemma NativePreserves(env: Env, e: Expr, a: Expr, c: Expr)
    requires e.Native? && WellTyped(e) && Defined(env, e) && Faithful(env, e.from, a) && Faithful(env, e.count, c)
    ensures Faithful(env, e, Native(e.shift, e.ndt, a, c))
  {
    assert NativeValue(e.shift, e.ndt, Eval(env, a), Eval(env, c)) ==
      NativeValue(e.shift, e.ndt, Eval(env, e.from), Eval(env, e.count));
  }

  lemma MsubPreserves(env: Env, e: Expr, a: Expr, b: Expr, c: Expr)
    requires e.Msub? && WellTyped(e) && Defined(env, e)
    requires Faithful(env, e.times, a) && Faithful(env, e.factor, b) && Faithful(env, e.minuend, c)
    ensures Faithful(env, e, Msub(e.mdt, a, b, c))
  {
  }

  lemma PartsDefined(env: Env, e: Expr, i: nat)
    requires WellTyped(e) && Defined(env, e) && i < |Parts(e)|
    ensures WellTyped(Parts(e)[i]) && Defined(env, Parts(e)[i]) && Faithful(env, Parts(e)[i], Parts(e)[i])
  {
  }

  lemma PartPreserves(env: Env, e: Expr, i: nat, y: Expr)
    requires WellTyped(e) && Defined(env, e) && i < |Parts(e)| && Faithful(env, Parts(e)[i], y)
    ensures Faithful(env, e, WithPart(e, i, y))
  {
    forall j | 0 <= j < |Parts(e)| ensures Faithful(env, Parts(e)[j], Parts(WithPart(e, i, y))[j]) {
      PartsDefined(env, e, j);
    }
    var ps := Parts(WithPart(e, i, y));
    match e
    case BinOp(_, _, _, _) => BinPreserves(env, e, ps[0], ps[1]);
    case UnOp(_, _, _) => UnPreserves(env, e, ps[0]);
    case Select(_, _, _, _) => SelectPreserves(env, e, ps[0], ps[1], ps[2]);
    case Native(_, _, _, _) => NativePreserves(env, e, ps[0], ps[1]);
    case Msub(_, _, _, _) => MsubPreserves(env, e, ps[0], ps[1], ps[2]);
  }

  /** One rewrite anywhere keeps the meaning of the whole. */
  lemma {:induction false} StepPreserves(env: Env, e: Expr, x: Expr)
    requires WellTyped(e) && Defined(env, e) && Steps(e, x)
    ensures Faithful(env, e, x)
    decreases e
  {
    if Peep(e) == Some(x) {
      PeepPreserves(env, e);
    } else {
      var i := StepInside(e, x);
      PartsDefined(env, e, i);
      StepPreserves(env, Parts(e)[i], Parts(x)[i]);
      PartPreserves(env, e, i, Parts(x)[i]);
    }
  }

  /** A run of rewrites, in whatever order the worklist takes them. */
  ghost predicate Rewriting(es: seq<Expr>) {
    |es| > 0 && forall i, j :: 0 <= i && j == i + 1 && j < |es| ==> Steps(es[i], es[j])
  }

  lemma RestRewrites(es: seq<Expr>)
    requires Rewriting(es) && |es| > 1
    ensures Steps(es[0], es[1]) && Rewriting(es[1..])
  {
    forall i, j | 0 <= i && j == i + 1 && j < |es[1..]| ensures Steps(es[1..][i], es[1..][j]) {
      assert es[1..][i] == es[i + 1] && es[1..][j] == es[j + 1];
    }
  }

  lemma {:induction false} LoweringPreserves(env: Env, es: seq<Expr>)
    requires Rewriting(es) && WellTyped(es[0]) && Defined(env, es[0])
    ensures Faithful(env, es[0], es[|es| - 1])
  {
    if |es| > 1 {
      RestRewrites(es);
      StepPreserves(env, es[0], es[1]);
      LoweringPreserves(env, es[1..]);
    }
  }

  // ---- what a finished run leaves ----

  /** What the instruction set has: arithmetic and comparisons of 32 and 64 bits, shifts that mask their count, and
      multiply-subtract; no shift by any count and no remainder. */
  predicate Lowered(e: Expr) {
    match e
    case Input(_, _) => true
    case Const(_, _) => true
    case BinOp(op, dt, l, r) =>
      && op !in {Shl, Shr, UShr, Rem, URem} && Wide(if Comparison(op) then DtOf(l) else dt)
      && Lowered(l) && Lowered(r)
    case UnOp(un, dt, x) => (un == Neg || un == Not ==> Wide(dt)) && Lowered(x)
    case Select(_, a, b, c) => Lowered(a) && Lowered(b) && Lowered(c)
    case Native(_, dt, a, c) => Wide(dt) && Wide(DtOf(c)) && Lowered(a) && Lowered(c)
    case Msub(dt, a, b, c) => Wide(dt) && Lowered(a) && Lowered(b) && Lowered(c)
  }

  predicate Wide(dt: Dt) { dt == I32 || dt == I64 }

  /** Machine operations, if any, work on 32 or 64 bits. There are none at the start. */
  predicate WideMachine(e: Expr) {
    match e
    case Input(_, _) => true
    case Const(_, _) => true
    case BinOp(_, _, l, r) => WideMachine(l) && WideMachine(r)
    case UnOp(_, _, x) => WideMachine(x)
    case Select(_, a, b, c) => WideMachine(a) && WideMachine(b) && WideMachine(c)
    case Native(_, dt, a, c) => Wide(dt) && Wide(DtOf(c)) && WideMachine(a) && WideMachine(c)
    case Msub(dt, a, b, c) => Wide(dt) && WideMachine(a) && WideMachine(b) && WideMachine(c)
  }

  /** What no rewrite changes. */
  predicate Sound(e: Expr) { WellTyped(e) && WideMachine(e) }

  lemma PeepKeeps(e: Expr)
    requires Sound(e) && Peep(e).Some?
    ensures Sound(Peep(e).value) && DtOf(Peep(e).value) == DtOf(e)
  {
    if e.BinOp? {
      var op, dt, l, r := e.op, e.bdt, e.l, e.r;
      if Narrow(if Comparison(op) then DtOf(l) else dt) {
        WidenBinPreserves(_ => 0, op, dt, l, r);
      } else if Shift(op) {
        ShiftPreserves(_ => 0, op, dt, l, r);
        ShiftIsWide(op, dt, l, r);
      } else {
        RemTyped(op, dt, l, r);
      }
    } else {
      WidenUnPreserves(_ => 0, e.un, e.udt, e.e);
    }
  }

  lemma ShiftIsWide(op: Bin, dt: Dt, l: Expr, count: Expr)
    requires Shift(op) && WideMachine(l) && WideMachine(count) && Wide(dt)
    ensures WideMachine(LowerShift(op, dt, l, count))
  {
    var wide := WideCount(count);
    assert WideMachine(wide) && Wide(DtOf(wide));
    assert WideMachine(InRange(dt, count));
    assert WideMachine(Select(DtOf(wide), wide, Const(DtOf(wide), Bits(dt) - 1), InRange(dt, count)));
    assert WideMachine(Native(op, dt, l, wide));
  }

  lemma UnloweredPart(e: Expr) returns (i: nat)
    requires WideMachine(e) && !Lowered(e) && Peep(e).None?
    ensures i < |Parts(e)| && WideMachine(Parts(e)[i]) && !Lowered(Parts(e)[i])
  {
    match e
    case BinOp(_, _, l, r) => i := if Lowered(l) then 1 else 0;
    case UnOp(_, _, x) => i := 0;
    case Select(_, a, b, c) => i := if Lowered(a) then if Lowered(b) then 2 else 1 else 0;
    case Native(_, _, a, c) => i := if Lowered(a) then 1 else 0;
    case Msub(_, a, b, c) => i := if Lowered(a) then if Lowered(b) then 2 else 1 else 0;
  }

  lemma LoweredParts(e: Expr)
    requires Lowered(e)
    ensures Peep(e).None? && forall i :: 0 <= i < |Parts(e)| ==> Lowered(Parts(e)[i])
  {
  }

  /** Where something is left to lower, there is a rewrite. */
  lemma {:induction false} UnloweredSteps(e: Expr) returns (x: Expr)
    requires WideMachine(e) && !Lowered(e)
    ensures Steps(e, x)
  {
    if Peep(e).Some? {
      x := Peep(e).value;
    } else {
      var i := UnloweredPart(e);
      var y := UnloweredSteps(Parts(e)[i]);
      x := WithPart(e, i, y);
      assert StepsIn(e, x, i);
    }
  }

  lemma {:induction false} LoweredIsDone(e: Expr, x: Expr)
    requires Lowered(e)
    ensures !Steps(e, x)
    decreases e
  {
    if Steps(e, x) {
      LoweredParts(e);
      var i := StepInside(e, x);
      LoweredIsDone(Parts(e)[i], Parts(x)[i]);
    }
  }

  ghost predicate Finished(e: Expr) { forall x :: !Steps(e, x) }

  /** No rewrite applies anywhere exactly when everything is lowered. */
  lemma DoneIsLowered(e: Expr)
    requires WideMachine(e)
    ensures Finished(e) <==> Lowered(e)
  {
    if Lowered(e) {
      forall x ensures !Steps(e, x) { LoweredIsDone(e, x); }
    } else {
      var x := UnloweredSteps(e);
    }
  }

  // ---- runs end ----

  /** Shifts and remainders count double what the rewrite repeats; narrow operations count what widening adds. */
  function Weight(e: Expr): (w: nat)
    ensures w > 0
  {
    match e
    case Input(_, _) => 1
    case Const(_, _) => 1
    case BinOp(op, dt, l, r) => OpWeight(op, Weight(l), Weight(r)) +
      if Narrow(if Comparison(op) then DtOf(l) else dt) then 6 else 0
    case UnOp(un, dt, x) => Weight(x) + if (un == Neg || un == Not) && Narrow(dt) then 4 else 1
    case Select(_, a, b, c) => Weight(a) + Weight(b) + Weight(c) + 1
    case Native(_, _, a, c) => Weight(a) + Weight(c) + 1
    case Msub(_, a, b, c) => Weight(a) + Weight(b) + Weight(c) + 1
  }

  function OpWeight(op: Bin, l: nat, r: nat): nat {
    if Shift(op) then l + 2 * r + 8 else if op == Rem || op == URem then 2 * l + 2 * r + 3 else l + r + 1
  }

  lemma ExtendWeight(e: Expr, ext: Un)
    requires ext == Conv || ext == UConv
    ensures Weight(Extend(e, ext)) <= Weight(e) + 1 && !Narrow(DtOf(Extend(e, ext)))
  {
  }

  lemma OpWeightGrows(op: Bin, l: nat, r: nat, l': nat, r': nat)
    requires l' <= l + 1 && r' <= r + 1
    ensures OpWeight(op, l', r') <= OpWeight(op, l, r) + 4
  {
  }

  lemma WidenLighter(op: Bin, dt: Dt, l: Expr, r: Expr)
    requires Narrow(if Comparison(op) then DtOf(l) else dt)
    ensures Weight(WidenBin(op, dt, l, r)) < Weight(BinOp(op, dt, l, r))
  {
    var ext := if SignedOp(op) then Conv else UConv;
    var l', r' := Extend(l, ext), Extend(r, if Shift(op) then UConv else ext);
    ExtendWeight(l, ext);
    ExtendWeight(r, if Shift(op) then UConv else ext);
    OpWeightGrows(op, Weight(l), Weight(r), Weight(l'), Weight(r'));
    WidenedWeight(op, dt, l', r');
    assert Weight(BinOp(op, dt, l, r)) == OpWeight(op, Weight(l), Weight(r)) + 6;
  }

  lemma WidenedWeight(op: Bin, dt: Dt, l: Expr, r: Expr)
    requires !Narrow(DtOf(l))
    ensures var wide := if Comparison(op) then BinOp(op, dt, l, r) else UnOp(UConv, dt, BinOp(op, I32, l, r));
      Weight(wide) <= OpWeight(op, Weight(l), Weight(r)) + 1
  {
    if !Comparison(op) { assert Weight(BinOp(op, I32, l, r)) == OpWeight(op, Weight(l), Weight(r)); }
  }

  lemma ShiftLighter(op: Bin, dt: Dt, l: Expr, count: Expr)
    requires Shift(op)
    ensures Weight(LowerShift(op, dt, l, count)) < Weight(BinOp(op, dt, l, count))
  {
    assert Weight(BinOp(op, dt, l, count)) >= Weight(l) + 2 * Weight(count) + 8;
    ExtendWeight(count, UConv);
    if !count.Const? { VariableShiftWeight(op, dt, l, count); }
  }

  lemma VariableShiftWeight(op: Bin, dt: Dt, l: Expr, count: Expr)
    requires Shift(op) && !count.Const?
    ensures Weight(LowerShift(op, dt, l, count)) <= Weight(l) + 2 * Weight(WideCount(count)) + 5
  {
    var wide := WideCount(count);
    var limit := Const(DtOf(wide), Bits(dt) - 1);
    ExtendWeight(count, UConv);
    RangeWeight(dt, count);
    if op == Shr {
      var clamped := Select(DtOf(wide), wide, limit, InRange(dt, count));
      assert Weight(clamped) == Weight(wide) + Weight(limit) + Weight(InRange(dt, count)) + 1;
      assert Weight(Native(op, dt, l, clamped)) == Weight(l) + Weight(clamped) + 1;
    } else {
      assert Weight(Native(op, dt, l, wide)) == Weight(l) + Weight(wide) + 1;
    }
  }

  lemma RangeWeight(dt: Dt, count: Expr)
    requires !Narrow(DtOf(WideCount(count)))
    ensures Weight(InRange(dt, count)) == Weight(WideCount(count)) + 2
  {
  }

  lemma PeepLighter(e: Expr)
    requires Peep(e).Some?
    ensures Weight(Peep(e).value) < Weight(e)
  {
    if e.BinOp? {
      if Narrow(if Comparison(e.op) then DtOf(e.l) else e.bdt) {
        WidenLighter(e.op, e.bdt, e.l, e.r);
      } else if Shift(e.op) {
        ShiftLighter(e.op, e.bdt, e.l, e.r);
      }
    } else {
      ExtendWeight(e.e, UConv);
    }
  }

  lemma PartKeeps(e: Expr, i: nat, y: Expr)
    requires Sound(e) && i < |Parts(e)| && Sound(y) && DtOf(y) == DtOf(Parts(e)[i])
    ensures Sound(Parts(e)[i]) && Sound(WithPart(e, i, y))
  {
  }

  lemma PartLighter(e: Expr, i: nat, y: Expr)
    requires i < |Parts(e)| && DtOf(y) == DtOf(Parts(e)[i]) && Weight(y) < Weight(Parts(e)[i])
    ensures Weight(WithPart(e, i, y)) < Weight(e)
  {
    if e.BinOp? {
      var x := WithPart(e, i, y);
      OpLighter(e.op, Weight(e.l), Weight(e.r), Weight(x.l), Weight(x.r));
    }
  }

  lemma OpLighter(op: Bin, l: nat, r: nat, l': nat, r': nat)
    requires l' <= l && r' <= r && l' + r' < l + r
    ensures OpWeight(op, l', r') < OpWeight(op, l, r)
  {
  }

  /** A rewrite keeps the type, gives machine operations wide operands, and makes the expression lighter. */
  lemma {:induction false} StepKeeps(e: Expr, x: Expr)
    requires Sound(e) && Steps(e, x)
    ensures Sound(x) && DtOf(x) == DtOf(e) && Weight(x) < Weight(e)
    decreases e
  {
    if Peep(e) == Some(x) {
      PeepKeeps(e);
      PeepLighter(e);
    } else {
      var i := StepInside(e, x);
      PartKeeps(e, i, Parts(e)[i]);
      StepKeeps(Parts(e)[i], Parts(x)[i]);
      PartKeeps(e, i, Parts(x)[i]);
      PartLighter(e, i, Parts(x)[i]);
    }
  }

  /** Every run ends: it has no more steps than the expression has weight. */
  lemma {:induction false} RunsEnd(es: seq<Expr>)
    requires Rewriting(es) && Sound(es[0])
    ensures Sound(es[|es| - 1]) && |es| <= Weight(es[0])
  {
    if |es| > 1 {
      RestRewrites(es);
      StepKeeps(es[0], es[1]);
      RunsEnd(es[1..]);
    }
  }

  /** There is a run to the lowered form. */
  lemma {:induction false} LoweringReaches(e: Expr) returns (es: seq<Expr>)
    requires Sound(e)
    ensures Rewriting(es) && es[0] == e && Lowered(es[|es| - 1])
    decreases Weight(e)
  {
    es := [e];
    if !Lowered(e) {
      var x := UnloweredSteps(e);
      StepKeeps(e, x);
      var rest := LoweringReaches(x);
      es := [e] + rest;
      assert es[1] == x;
    }
  }

  /** A run that can go no further has lowered everything, and kept the meaning. */
  lemma FinishedIsLowered(env: Env, es: seq<Expr>)
    requires Rewriting(es) && Sound(es[0]) && Defined(env, es[0]) && Finished(es[|es| - 1])
    ensures Lowered(es[|es| - 1]) && Faithful(env, es[0], es[|es| - 1])
  {
    RunsEnd(es);
    DoneIsLowered(es[|es| - 1]);
    LoweringPreserves(env, es);
  }
}
