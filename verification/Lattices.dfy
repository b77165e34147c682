/**
  The lattice of what is known about a node: Top (nothing computed yet), an integer range, what a
  float cannot be, whether control is dead, memory, and Bot (anything).
 */
module Lattices {
  datatype Sort = Top | Int | Float | Ctlr | Mem | Bot

  /** What is known of a float. */
  datatype Flags = Flags(notNan: bool, notNinf: bool, notPinf: bool, notZero: bool, isNan: bool)

  const NO_FLAGS: Flags := Flags(false, false, false, false, false)

  /** One record for all sorts, as stored; fields that do not belong to the sort are unused. */
  datatype Lattice = Lattice(min: int, max: int, sort: Sort, flags: Flags, dead: bool, widens: nat)

  const TOP: Lattice := Lattice(0, 0, Top, NO_FLAGS, false, 0)
  const BOT: Lattice := TOP.(sort := Bot)
  const MEM: Lattice := TOP.(sort := Mem)

  function IntOf(min: int, max: int): Lattice { TOP.(sort := Int, min := min, max := max) }

  function FloatOf(f: Flags): Lattice { TOP.(sort := Float, flags := f) }

  function CtlrOf(dead: bool): Lattice { TOP.(sort := Ctlr, dead := dead) }

  const I64_MIN: int := -0x8000_0000_0000_0000
  const I64_MAX: int := 0x7fff_ffff_ffff_ffff

  function Least(a: int, b: int): int { if a < b then a else b }

  function Greatest(a: int, b: int): int { if a > b then a else b }

  function Both(a: Flags, b: Flags): Flags {
    Flags(a.notNan && b.notNan, a.notNinf && b.notNinf, a.notPinf && b.notPinf,
      a.notZero && b.notZero, a.isNan && b.isNan)
  }

  function Either(a: Flags, b: Flags): Flags {
    Flags(a.notNan || b.notNan, a.notNinf || b.notNinf, a.notPinf || b.notPinf,
      a.notZero || b.notZero, a.isNan || b.isNan)
  }

  function Flipped(a: Flags): Flags {
    Flags(!a.notNan, !a.notNinf, !a.notPinf, !a.notZero, !a.isNan)
  }

  function Meet(a: Lattice, b: Lattice): Lattice {
    if a.sort == Top || b.sort == Bot then b
    else if b.sort == Top || a.sort == Bot then a
    else if a.sort != b.sort then BOT
    else if a.sort == Int then IntOf(Least(a.min, b.min), Greatest(a.max, b.max))
    else if a.sort == Float then FloatOf(Both(a.flags, b.flags))
    else if a.sort == Ctlr then CtlrOf(a.dead && b.dead)
    else MEM
  }

  function Dual(v: Lattice): Lattice {
    match v.sort
    case Top => v.(sort := Bot)
    case Mem => v
    case Int => v.(min := v.max, max := v.min)
    case Float => v.(flags := Flipped(v.flags))
    case Ctlr => v.(dead := !v.dead)
    case Bot => v.(sort := Top)
  }

  predicate Contradictory(v: Lattice) {
    (v.sort == Int && v.min > v.max) || (v.sort == Float && v.flags.isNan && v.flags.notNan)
  }

  function Join(a: Lattice, b: Lattice): Lattice {
    var res := Dual(Meet(Dual(a), Dual(b)));
    if Contradictory(res) then TOP else res
  }

  predicate Isa(this_: Lattice, that: Lattice) {
    Meet(this_, that.(widens := 0)) == that.(widens := 0)
  }

  // ---- normal values ----

  /** Unused fields are zero, the range is not empty and within 64 bits, and a NaN is not excluded and required. */
  predicate Normal(v: Lattice) {
    match v.sort
    case Int => v == IntOf(v.min, v.max) && I64_MIN <= v.min <= v.max <= I64_MAX
    case Float => v == FloatOf(v.flags) && !(v.flags.isNan && v.flags.notNan)
    case Ctlr => v == CtlrOf(v.dead)
    case Top => v == TOP
    case Mem => v == MEM
    case Bot => v == BOT
  }

  lemma MeetStaysNormal(a: Lattice, b: Lattice)
    requires Normal(a) && Normal(b)
    ensures Normal(Meet(a, b))
  {
  }

  /** What join comes to, without the detour over duals. */
  function Common(a: Lattice, b: Lattice): Lattice {
    if a.sort == Bot then b else if b.sort == Bot then a
    else if a.sort != b.sort || a.sort == Top then TOP
    else if a.sort == Int then
      if Greatest(a.min, b.min) > Least(a.max, b.max) then TOP else IntOf(Greatest(a.min, b.min), Least(a.max, b.max))
    else if a.sort == Float then
      if Either(a.flags, b.flags).isNan && Either(a.flags, b.flags).notNan then TOP
      else FloatOf(Either(a.flags, b.flags))
    else if a.sort == Ctlr then CtlrOf(a.dead || b.dead)
    else MEM
  }

  lemma DualOfMeet(a: Lattice, b: Lattice)
    requires Normal(a) && Normal(b) && a.sort == b.sort
    ensures Join(a, b) == Common(a, b)
  {
    if a.sort == Float {
      assert Flipped(Both(Flipped(a.flags), Flipped(b.flags))) == Either(a.flags, b.flags);
      assert Dual(Meet(Dual(a), Dual(b))) == FloatOf(Either(a.flags, b.flags));
    } else if a.sort == Int {
      assert Dual(Meet(Dual(a), Dual(b))) == IntOf(Greatest(a.min, b.min), Least(a.max, b.max));
    } else if a.sort == Ctlr {
      assert Dual(Meet(Dual(a), Dual(b))) == CtlrOf(a.dead || b.dead);
    }
  }

  lemma JoinIsCommon(a: Lattice, b: Lattice)
    requires Normal(a) && Normal(b)
    ensures Join(a, b) == Common(a, b)
  {
    if a.sort == b.sort {
      DualOfMeet(a, b);
    } else if a.sort == Bot || b.sort == Bot {
      assert Dual(Dual(a)) == a && Dual(Dual(b)) == b by { DualTwice(a); DualTwice(b); }
    } else {
      assert Meet(Dual(a), Dual(b)) == BOT;
    }
  }

  lemma DualTwice(a: Lattice)
    ensures Dual(Dual(a)) == a
  {
  }

  lemma CommonStaysNormal(a: Lattice, b: Lattice)
    requires Normal(a) && Normal(b)
    ensures Normal(Common(a, b))
  {
  }

  lemma JoinStaysNormal(a: Lattice, b: Lattice)
    requires Normal(a) && Normal(b)
    ensures Normal(Join(a, b))
  {
    JoinIsCommon(a, b);
    CommonStaysNormal(a, b);
  }

  lemma MeetLaws(a: Lattice, b: Lattice)
    requires Normal(a) && Normal(b)
    ensures Meet(a, b) == Meet(b, a) && Meet(a, a) == a
  {
    if a.sort == b.sort == Float {
      assert Both(a.flags, b.flags) == Both(b.flags, a.flags);
    }
    assert a.sort == Float ==> Both(a.flags, a.flags) == a.flags;
  }

  lemma MeetAssociates(a: Lattice, b: Lattice, c: Lattice)
    requires Normal(a) && Normal(b) && Normal(c)
    ensures Meet(Meet(a, b), c) == Meet(a, Meet(b, c))
  {
    if a.sort == b.sort == c.sort == Float {
      assert Both(Both(a.flags, b.flags), c.flags) == Both(a.flags, Both(b.flags, c.flags));
    } else if a.sort == b.sort == c.sort == Int {
    } else if a.sort == Top || b.sort == Top || c.sort == Top {
    } else if a.sort == Bot || b.sort == Bot || c.sort == Bot {
    } else if a.sort == b.sort == c.sort {
    } else {
      assert Meet(Meet(a, b), c) == BOT;
    }
  }

  lemma JoinLaws(a: Lattice, b: Lattice)
    requires Normal(a) && Normal(b)
    ensures Join(a, b) == Join(b, a) && Join(a, a) == a
  {
    JoinIsCommon(a, b);
    JoinIsCommon(b, a);
    JoinIsCommon(a, a);
    CommonLaws(a, b);
  }

  lemma CommonLaws(a: Lattice, b: Lattice)
    requires Normal(a) && Normal(b)
    ensures Common(a, b) == Common(b, a) && Common(a, a) == a
  {
    FlagsLaws(a.flags, b.flags);
    if a.sort == Float && b.sort == Float {
      assert Common(a, b) == Common(b, a);
    } else if a.sort == Int && b.sort == Int {
      assert Common(a, b) == Common(b, a);
    }
  }

  lemma FlagsLaws(a: Flags, b: Flags)
    ensures Either(a, b) == Either(b, a) && Either(a, a) == a && Both(a, b) == Both(b, a) && Both(a, a) == a
  {
  }

  lemma CommonAssociates(a: Lattice, b: Lattice, c: Lattice)
    requires Normal(a) && Normal(b) && Normal(c)
    ensures Common(Common(a, b), c) == Common(a, Common(b, c))
  {
    if a.sort == b.sort == c.sort == Float {
      assert Either(Either(a.flags, b.flags), c.flags) == Either(a.flags, Either(b.flags, c.flags));
    } else if a.sort == b.sort == c.sort == Int {
    } else if a.sort == Bot || b.sort == Bot || c.sort == Bot {
    } else if a.sort == b.sort == c.sort {
    } else {
      assert Common(Common(a, b), c) == TOP;
    }
  }

  lemma JoinAssociates(a: Lattice, b: Lattice, c: Lattice)
    requires Normal(a) && Normal(b) && Normal(c)
    ensures Join(Join(a, b), c) == Join(a, Join(b, c))
  {
    CommonStaysNormal(a, b);
    CommonStaysNormal(b, c);
    JoinIsCommon(a, b);
    JoinIsCommon(b, c);
    JoinIsCommon(Common(a, b), c);
    JoinIsCommon(a, Common(b, c));
    CommonAssociates(a, b, c);
  }

  lemma Absorption(a: Lattice, b: Lattice)
    requires Normal(a) && Normal(b)
    ensures Meet(a, Join(a, b)) == a && Join(a, Meet(a, b)) == a
  {
    MeetStaysNormal(a, b);
    JoinIsCommon(a, b);
    JoinIsCommon(a, Meet(a, b));
    CommonAbsorbs(a, b);
  }

  lemma CommonAbsorbs(a: Lattice, b: Lattice)
    requires Normal(a) && Normal(b)
    ensures Meet(a, Common(a, b)) == a && Common(a, Meet(a, b)) == a
  {
    if a.sort == b.sort == Float {
      FloatAbsorbs(a, b);
    } else if a.sort == b.sort == Int {
      IntAbsorbs(a, b);
    } else {
      MeetLaws(a, a);
      CommonLaws(a, a);
    }
  }

  lemma FloatAbsorbs(a: Lattice, b: Lattice)
    requires Normal(a) && Normal(b) && a.sort == b.sort == Float
    ensures Meet(a, Common(a, b)) == a && Common(a, Meet(a, b)) == a
  {
    assert Both(a.flags, Either(a.flags, b.flags)) == a.flags;
    assert Either(a.flags, Both(a.flags, b.flags)) == a.flags;
    assert Meet(a, b) == FloatOf(Both(a.flags, b.flags));
  }

  lemma IntAbsorbs(a: Lattice, b: Lattice)
    requires Normal(a) && Normal(b) && a.sort == b.sort == Int
    ensures Meet(a, Common(a, b)) == a && Common(a, Meet(a, b)) == a
  {
    assert Meet(a, b) == IntOf(Least(a.min, b.min), Greatest(a.max, b.max));
  }

  /** Isa is a partial order in which meet is the greatest lower bound ... */
  lemma IsaIsPartialOrder(a: Lattice, b: Lattice, c: Lattice)
    requires Normal(a) && Normal(b) && Normal(c)
    ensures Isa(a, a) && (Isa(a, b) && Isa(b, a) ==> a == b) && (Isa(a, b) && Isa(b, c) ==> Isa(a, c))
    ensures Isa(a, Meet(a, b)) && Isa(b, Meet(a, b)) && (Isa(a, c) && Isa(b, c) ==> Isa(Meet(a, b), c))
  {
    MeetStaysNormal(a, b);
    MeetLaws(a, b);
    MeetLaws(b, a);
    MeetAssociates(a, b, c);
    MeetAssociates(a, a, b);
    MeetAssociates(b, b, a);
    NormalIsUnwidened(a);
    NormalIsUnwidened(b);
    NormalIsUnwidened(c);
    NormalIsUnwidened(Meet(a, b));
  }

  /** How often a value was widened does not matter to the order, on either side. */
  lemma IsaIgnoresWidening(a: Lattice, b: Lattice, k: nat, l: nat)
    requires Normal(a) && Normal(b)
    ensures Isa(a.(widens := k), b.(widens := l)) <==> Isa(a, b)
  {
    assert b.(widens := l).(widens := 0) == b && b.(widens := 0) == b;
  }

  lemma NormalIsUnwidened(a: Lattice)
    requires Normal(a)
    ensures a.(widens := 0) == a
  {
  }

  /** ... and join the least upper bound. */
  lemma JoinIsLeastAbove(a: Lattice, b: Lattice, c: Lattice)
    requires Normal(a) && Normal(b) && Normal(c)
    ensures Isa(Join(a, b), a) && Isa(Join(a, b), b) && (Isa(c, a) && Isa(c, b) ==> Isa(c, Join(a, b)))
  {
    JoinStaysNormal(a, b);
    Absorption(a, b);
    Absorption(b, a);
    JoinLaws(a, b);
    MeetLaws(a, Join(a, b));
    MeetLaws(b, Join(a, b));
    NormalIsUnwidened(a);
    NormalIsUnwidened(b);
    if Isa(c, a) && Isa(c, b) {
      AboveBoth(a, b, c);
    }
  }

  lemma AboveBoth(a: Lattice, b: Lattice, c: Lattice)
    requires Normal(a) && Normal(b) && Normal(c) && Meet(c, a) == a && Meet(c, b) == b
    ensures Isa(c, Join(a, b))
  {
    JoinStaysNormal(a, b);
    Absorption(c, a);
    Absorption(c, b);
    MeetLaws(a, c);
    MeetLaws(b, c);
    assert Join(c, a) == c && Join(c, b) == c;
    JoinLaws(c, a);
    JoinAssociates(a, b, c);
    JoinLaws(b, c);
    JoinLaws(Join(a, b), c);
    Absorption(Join(a, b), c);
    MeetLaws(Join(a, b), c);
    NormalIsUnwidened(Join(a, b));
  }

  /** Off the normal values the laws fail: meet forgets how often a value was widened. */
  lemma MeetForgetsWidening(a: Lattice)
    requires a.sort == Int && a.widens > 0
    ensures Meet(a, a) != a
  {
  }

  // ---- what a value describes ----

  datatype FloatClass = Nan | NegInf | PosInf | Zero | Finite

  /** A concrete outcome of a node. */
  datatype Outcome = IntIs(i: int) | FloatIs(f: FloatClass) | Reached | Unreached | Memory | Other

  predicate Allows(flags: Flags, f: FloatClass) {
    && !(flags.notNan && f == Nan) && !(flags.notNinf && f == NegInf) && !(flags.notPinf && f == PosInf)
    && !(flags.notZero && f == Zero) && !(flags.isNan && f != Nan)
  }

  predicate Describes(v: Lattice, x: Outcome) {
    match v.sort
    case Top => false
    case Bot => true
    case Mem => x == Memory
    case Int => x.IntIs? && v.min <= x.i <= v.max
    case Ctlr => x == Unreached || (x == Reached && !v.dead)
    case Float =>
      x.FloatIs? && Allows(v.flags, x.f)
  }

  /** Meet describes at least what either value does; more general values describe more. */
  lemma MeetCoversUnion(a: Lattice, b: Lattice, x: Outcome)
    requires Normal(a) && Normal(b)
    ensures Describes(a, x) || Describes(b, x) ==> Describes(Meet(a, b), x)
    ensures Isa(a, b) && Describes(a, x) ==> Describes(b, x)
  {
  }

  /** Join describes exactly what both values do. */
  lemma JoinIsIntersection(a: Lattice, b: Lattice, x: Outcome)
    requires Normal(a) && Normal(b)
    ensures Describes(Join(a, b), x) <==> Describes(a, x) && Describes(b, x)
  {
    JoinIsCommon(a, b);
  }

  function Sample(v: Lattice): Outcome {
    match v.sort
    case Int => IntIs(v.min)
    case Float => FloatIs(if v.flags.isNan then Nan else Finite)
    case Ctlr => Unreached
    case _ => Memory
  }

  /** ... so it is Top exactly when no outcome fits both. */
  lemma JoinIsTopWhenDisjoint(a: Lattice, b: Lattice)
    requires Normal(a) && Normal(b)
    ensures Join(a, b) == TOP <==> forall x :: !(Describes(a, x) && Describes(b, x))
  {
    JoinStaysNormal(a, b);
    forall x ensures Describes(Join(a, b), x) <==> Describes(a, x) && Describes(b, x) {
      JoinIsIntersection(a, b, x);
    }
    if Join(a, b) != TOP {
      assert Describes(Join(a, b), Sample(Join(a, b)));
    }
  }

  // ---- height ----

  /** How far a value can still fall. */
  function Height(v: Lattice): (h: nat)
    requires Normal(v)
  {
    match v.sort
    case Top => 0x1_0000_0000_0000_0002
    case Int => 0x1_0000_0000_0000_0001 - (v.max - v.min)
    case Float => 1 + Flag(v.flags.notNan) + Flag(v.flags.notNinf) + Flag(v.flags.notPinf) + Flag(v.flags.notZero) +
      Flag(v.flags.isNan)
    case Ctlr => 1 + Flag(v.dead)
    case Mem => 1
    case Bot => 0
  }

  function Flag(b: bool): nat { if b then 1 else 0 }

  /** A strictly more general value is strictly lower. */
  lemma FallingLowersHeight(a: Lattice, b: Lattice)
    requires Normal(a) && Normal(b) && Isa(a, b) && a != b
    ensures Height(b) < Height(a)
  {
  }
}
