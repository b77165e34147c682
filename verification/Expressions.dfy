/**
  Integer expressions over typed patterns and what they evaluate to: the operations of the graph, and
  the few machine operations they are lowered to.
 */
module Expressions {
  import opened Basics
  import opened MachineInts

  datatype Bin =
    | Add | Sub | And | Or | Xor | Eq | Ne | Le | Lt | Gt | Ge | ULt | UGt | ULe | UGe
    | Shl | Shr | UShr | Mul | Div | UDiv | Rem | URem | AndNot

  datatype Un = Neg | Not | Conv | UConv

  datatype Expr =
    | Input(i: nat, idt: Dt)
    | Const(cdt: Dt, value: int)
    | BinOp(op: Bin, bdt: Dt, l: Expr, r: Expr)
    | UnOp(un: Un, udt: Dt, e: Expr)
    | Select(sdt: Dt, yes: Expr, no: Expr, cond: Expr)
    | Native(shift: Bin, ndt: Dt, from: Expr, count: Expr)
    | Msub(mdt: Dt, times: Expr, factor: Expr, minuend: Expr)

  function DtOf(e: Expr): Dt {
    match e
    case Input(_, dt) => dt
    case Const(dt, _) => dt
    case BinOp(_, dt, _, _) => dt
    case UnOp(_, dt, _) => dt
    case Select(dt, _, _, _) => dt
    case Native(_, dt, _, _) => dt
    case Msub(dt, _, _, _) => dt
  }

  predicate Comparison(op: Bin) {
    op in {Eq, Ne, Le, Lt, Gt, Ge, ULt, UGt, ULe, UGe}
  }

  predicate Shift(op: Bin) { op in {Shl, Shr, UShr} }

  /** A constant may be given by its signed or by its unsigned reading. */
  predicate WellTyped(e: Expr) {
    match e
    case Input(_, _) => true
    case Const(dt, v) => -(Modulus(dt) / 2) <= v < Modulus(dt)
    case BinOp(op, dt, l, r) =>
      WellTyped(l) && WellTyped(r) && (Shift(op) || DtOf(l) == DtOf(r)) && (Comparison(op) || DtOf(l) == dt)
    case UnOp(un, dt, e) => WellTyped(e) && (un.Neg? || un.Not? ==> DtOf(e) == dt)
    case Select(dt, a, b, c) => WellTyped(a) && WellTyped(b) && WellTyped(c) && DtOf(a) == dt && DtOf(b) == dt
    case Native(op, dt, a, c) => Shift(op) && WellTyped(a) && WellTyped(c) && DtOf(a) == dt
    case Msub(dt, a, b, c) =>
      WellTyped(a) && WellTyped(b) && WellTyped(c) && DtOf(a) == dt && DtOf(b) == dt && DtOf(c) == dt
  }

  // ---- meaning ----

  function Truth(b: bool): int { if b then 1 else 0 }

  function Clamp(c: nat, dt: Dt): nat { if c < Bits(dt) then c else Bits(dt) - 1 }

  /** What an operation computes from two patterns, before wrapping; dt is the type of the left operand. */
  function BinValue(op: Bin, dt: Dt, a: nat, b: nat): int {
    match op
    case Add => a + b
    case Sub => a - b
    case Mul => a * b
    case And => Bitwise(AndGate, a, b)
    case Or => Bitwise(OrGate, a, b)
    case Xor => Bitwise(XorGate, a, b)
    case AndNot => Bitwise(AndNotGate, a, b)
    case Eq => Truth(a == b)
    case Ne => Truth(a != b)
    case Le => Truth(Signed(a, dt) <= Signed(b, dt))
    case Lt => Truth(Signed(a, dt) < Signed(b, dt))
    case Gt => Truth(Signed(a, dt) > Signed(b, dt))
    case Ge => Truth(Signed(a, dt) >= Signed(b, dt))
    case ULt => Truth(a < b)
    case UGt => Truth(a > b)
    case ULe => Truth(a <= b)
    case UGe => Truth(a >= b)
    case Shl => if b < Bits(dt) then a * Pow2(b) else 0
    case Shr => Signed(a, dt) / Pow2(Clamp(b, dt))
    case UShr => if b < Bits(dt) then a / Pow2(b) else 0
    case Div => if Signed(b, dt) == 0 then 0 else Quot(Signed(a, dt), Signed(b, dt))
    case UDiv => if b == 0 then 0 else a / b
    case Rem => if Signed(b, dt) == 0 then 0 else Remainder(Signed(a, dt), Signed(b, dt))
    case URem => if b == 0 then 0 else a % b
  }

  function UnValue(un: Un, dt: Dt, a: nat): int {
    match un
    case Neg => 0 - a
    case Not => Modulus(dt) - 1 - a
    case Conv => Signed(a, dt)
    case UConv => a
  }

  /** The instruction takes its count modulo the width. */
  function NativeValue(op: Bin, dt: Dt, a: nat, c: nat): int {
    var k := c % Bits(dt);
    if op == Shl then a * Pow2(k) else if op == Shr then Signed(a, dt) / Pow2(k) else a / Pow2(k)
  }

  function MultiplySubtract(dt: Dt, q: nat, b: nat, a: nat): (p: nat)
    ensures p < Modulus(dt)
  {
    Wrap(a - q * b, dt)
  }

  type Env = nat -> nat

  function Eval(env: Env, e: Expr): (p: nat)
    ensures p < Modulus(DtOf(e))
  {
    match e
    case Input(i, dt) => Wrap(env(i), dt)
    case Const(dt, v) => Wrap(v, dt)
    case BinOp(op, dt, l, r) => Wrap(BinValue(op, DtOf(l), Eval(env, l), Eval(env, r)), dt)
    case UnOp(un, dt, e) => Wrap(UnValue(un, DtOf(e), Eval(env, e)), dt)
    case Select(dt, a, b, c) => Wrap(if Eval(env, c) != 0 then Eval(env, a) else Eval(env, b), dt)
    case Native(op, dt, a, c) => Wrap(NativeValue(op, dt, Eval(env, a), Eval(env, c)), dt)
    case Msub(dt, a, b, c) => MultiplySubtract(dt, Eval(env, a), Eval(env, b), Eval(env, c))
  }
}
