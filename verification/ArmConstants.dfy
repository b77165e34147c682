/**
  Building a 64-bit constant from 16-bit pieces: one instruction that clears or sets all other
  halfwords, then one per halfword that still differs.
 */
module ArmConstants {
  import opened Basics
  import opened MachineInts

  type Half = h: nat | h < 0x1_0000

  /** A register as its four halfwords, least significant first. */
  type Register = r: seq<Half> | |r| == 4 witness [0, 0, 0, 0]

  function Value(r: Register): nat {
    var a: nat, b: nat, c: nat, d: nat := r[0], r[1], r[2], r[3];
    a + 0x1_0000 * b + 0x1_0000_0000 * c + 0x1_0000_0000_0000 * d
  }

  // ---- the instructions (section C6.2 of the Arm Architecture Reference Manual) ----

  datatype Move = Movz | Movn | Movk

  datatype Instr = Instr(move: Move, hw: nat, imm: Half, rd: nat)

  /** The upper nine bits: 64-bit operands, kind of move, and the fixed pattern of wide moves. */
  function Opcode(m: Move): nat {
    match m case Movz => 0x1a5 case Movn => 0x125 case Movk => 0x1e5
  }

  /** The fields of an instruction word do not overlap. */
  function Encode(m: Move, hw: nat, imm: Half, rd: nat): nat {
    Opcode(m) * 0x80_0000 + hw * 0x20_0000 + imm * 0x20 + rd
  }

  function Decode(word: nat): Option<Instr> {
    var op, hw, imm, rd := word / 0x80_0000, (word / 0x20_0000) % 4, (word / 0x20) % 0x1_0000, word % 0x20;
    if op == 0x1a5 then Some(Instr(Movz, hw, imm, rd))
    else if op == 0x125 then Some(Instr(Movn, hw, imm, rd))
    else if op == 0x1e5 then Some(Instr(Movk, hw, imm, rd))
    else None
  }

  lemma DecodeEncode(m: Move, hw: nat, imm: Half, rd: nat)
    requires hw < 4 && rd < 32
    ensures Decode(Encode(m, hw, imm, rd)) == Some(Instr(m, hw, imm, rd))
  {
    var w := Encode(m, hw, imm, rd);
    assert w / 0x80_0000 == Opcode(m);
    assert w / 0x20_0000 == Opcode(m) * 4 + hw;
    assert w / 0x20 == (Opcode(m) * 4 + hw) * 0x1_0000 + imm;
  }

  function Execute(i: Instr, r: Register): Register
    requires i.hw < 4
  {
    match i.move
    case Movz => var z: Register := [0, 0, 0, 0]; z[i.hw := i.imm]
    case Movn => var ones: Register := [0xffff, 0xffff, 0xffff, 0xffff]; ones[i.hw := 0xffff - i.imm]
    case Movk => r[i.hw := i.imm]
  }

  type Machine = map<nat, Register>

  /** Runs words that are wide moves on registers that exist; None otherwise. */
  function Run(words: seq<nat>, m: Machine): Option<Machine> {
    if words == [] then Some(m)
    else
      var before := Run(words[..|words| - 1], m);
      if before.None? then None else Step(words[|words| - 1], before.value)
  }

  function Step(word: nat, m: Machine): Option<Machine> {
    var i := Decode(word);
    if i.None? || i.value.hw >= 4 || i.value.rd !in m then None
    else Some(m[i.value.rd := Execute(i.value, m[i.value.rd])])
  }

  lemma RunOneMore(words: seq<nat>, word: nat, m: Machine)
    ensures Run(words + [word], m) == if Run(words, m).None? then None else Step(word, Run(words, m).value)
  {
    assert (words + [word])[..|words|] == words;
  }

  // ---- the pieces of a value ----

  function Scale(i: nat): (p: nat)
    ensures p > 0
  {
    if i == 0 then 1 else 0x1_0000 * Scale(i - 1)
  }

  /** Halfword i of a value in two's complement: an arithmetic shift, then the low sixteen bits. */
  function Piece(v: int, i: nat): Half { (v / Scale(i)) % 0x1_0000 }

  function Pieces(v: int): Register { [Piece(v, 0), Piece(v, 1), Piece(v, 2), Piece(v, 3)] }

  predicate Fits64(v: int) { -0x8000_0000_0000_0000 <= v < 0x8000_0000_0000_0000 }

  lemma PiecesMakeValue(v: int)
    requires Fits64(v)
    ensures Value(Pieces(v)) == v % 0x1_0000_0000_0000_0000
  {
    assert Scale(1) == 0x1_0000 && Scale(2) == 0x1_0000_0000 && Scale(3) == 0x1_0000_0000_0000;
    var a, b, c := v / 0x1_0000, v / 0x1_0000_0000, v / 0x1_0000_0000_0000;
    assert b == a / 0x1_0000 && c == b / 0x1_0000;
  }

  function BitLength(v: nat): nat {
    if v == 0 then 0 else 1 + BitLength(v / 2)
  }

  /** For a negative value, of its complement: how many bits are not copies of the sign. */
  function SignificantBits(v: int): nat {
    BitLength(if v >= 0 then v else -v - 1)
  }

  lemma {:induction false} BelowPow2(v: nat)
    ensures v < Pow2(BitLength(v))
  {
    if v > 0 { BelowPow2(v / 2); }
  }

  lemma {:induction false} LengthBounded(v: nat, k: nat)
    requires v < Pow2(k)
    ensures BitLength(v) <= k
  {
    if v > 0 { LengthBounded(v / 2, k - 1); }
  }

  lemma {:induction false} ScaleIsPow2(i: nat)
    ensures Scale(i) == Pow2(16 * i)
  {
    if i > 0 {
      ScaleIsPow2(i - 1);
      Pow2Values();
      Pow2Adds(16, 16 * (i - 1));
    }
  }

  /** What the halfwords that are not written hold. */
  function Filler(v: int): Half { if v >= 0 then 0 else 0xffff }

  /** Beyond the significant bits there is only filler. */
  lemma BeyondIsFiller(v: int, i: nat)
    requires SignificantBits(v) <= 16 * i
    ensures Piece(v, i) == Filler(v)
  {
    var u := if v >= 0 then v else -v - 1;
    BelowPow2(u);
    Pow2Grows(BitLength(u), 16 * i);
    ScaleIsPow2(i);
    SignRemains(v, 16 * i);
  }

  /** How many halfwords are looked at. */
  function PieceCount(v: int): nat { (SignificantBits(v) + 15) / 16 }

  // ---- emission ----

  /** After the halfwords below i: those are right, the others hold filler. */
  ghost predicate Built(v: int, i: nat, r: Register) {
    forall k :: 0 <= k < 4 ==> r[k] == if k < i || k == 0 then Piece(v, k) else Filler(v)
  }

  lemma CountBounded(v: int)
    requires Fits64(v)
    ensures PieceCount(v) <= 4
  {
    var u := if v >= 0 then v else -v - 1;
    ModulusIsPow2(I64);
    LengthBounded(u, 63);
  }

  lemma AppendMovk(words: seq<nat>, i: nat, vl: Half, rd: nat, m: Machine, r: Register)
    requires i < 4 && rd < 32 && rd in m && Run(words, m) == Some(m[rd := r])
    ensures Run(words + [Encode(Movk, i, vl, rd)], m) == Some(m[rd := r[i := vl]])
  {
    var word := Encode(Movk, i, vl, rd);
    RunOneMore(words, word, m);
    DecodeEncode(Movk, i, vl, rd);
    assert m[rd := r][rd := r[i := vl]] == m[rd := r[i := vl]];
  }

  /** Whatever the registers hold, the words leave r in rd and the other registers alone. */
  ghost predicate Leaves(words: seq<nat>, rd: nat, r: Register) {
    forall m: Machine {:trigger Run(words, m)} :: rd in m ==> Run(words, m) == Some(m[rd := r])
  }

  lemma LeavesMore(words: seq<nat>, i: nat, vl: Half, rd: nat, r: Register)
    requires i < 4 && rd < 32 && Leaves(words, rd, r)
    ensures Leaves(words + [Encode(Movk, i, vl, rd)], rd, r[i := vl])
  {
    var next := words + [Encode(Movk, i, vl, rd)];
    forall m: Machine | rd in m ensures Run(next, m) == Some(m[rd := r[i := vl]]) {
      AppendMovk(words, i, vl, rd, m, r);
    }
  }

  predicate Skipped(v: int, i: nat) { Piece(v, i) == Filler(v) }

  lemma BuiltNext(v: int, i: nat, r: Register)
    requires Built(v, i, r) && 0 < i < 4
    ensures Built(v, i + 1, r[i := Piece(v, i)]) && (Skipped(v, i) ==> Built(v, i + 1, r))
  {
  }

  lemma RestIsFiller(v: int, i: nat, r: Register)
    requires Built(v, i, r) && i >= PieceCount(v)
    ensures r == Pieces(v)
  {
    forall k | 0 <= k < 4 ensures r[k] == Pieces(v)[k] {
      if i <= k { BeyondIsFiller(v, k); }
    }
  }

  /** How many of the halfwords from 1 to i - 1 are not filler. */
  function Unlike(v: int, i: nat): nat {
    if i <= 1 then 0 else Unlike(v, i - 1) + if Skipped(v, i - 1) then 0 else 1
  }

  lemma {:induction false} UnlikeStays(v: int, i: nat, k: nat)
    requires PieceCount(v) <= i <= k
    ensures Unlike(v, k) == Unlike(v, i)
  {
    if i < k {
      UnlikeStays(v, i, k - 1);
      BeyondIsFiller(v, k - 1);
    }
  }

  function FirstWord(v: int, rd: nat): nat {
    if v >= 0 then Encode(Movz, 0, Piece(v, 0), rd) else Encode(Movn, 0, 0xffff - Piece(v, 0), rd)
  }

  function FirstValue(v: int): Register { [Piece(v, 0), Filler(v), Filler(v), Filler(v)] }

  lemma FirstMove(v: int, rd: nat, m: Machine)
    requires rd < 32 && rd in m
    ensures Run([FirstWord(v, rd)], m) == Some(m[rd := FirstValue(v)]) && Built(v, 1, FirstValue(v))
  {
    var low := Piece(v, 0);
    DecodeEncode(Movz, 0, low, rd);
    DecodeEncode(Movn, 0, 0xffff - low, rd);
    RunOneMore([], FirstWord(v, rd), m);
    assert [] + [FirstWord(v, rd)] == [FirstWord(v, rd)];
    assert Execute(Decode(FirstWord(v, rd)).value, m[rd]) == FirstValue(v);
  }

  lemma FirstLeaves(v: int, rd: nat)
    requires rd < 32
    ensures Leaves([FirstWord(v, rd)], rd, FirstValue(v)) && Built(v, 1, FirstValue(v))
  {
    var first := [FirstWord(v, rd)];
    forall m: Machine | rd in m ensures Run(first, m) == Some(m[rd := FirstValue(v)]) {
      FirstMove(v, rd, m);
    }
  }

  /** Emits the moves for a value into register rd: whatever the registers held, they leave exactly that value in rd
      and the other registers alone. Behind the first there is one for each halfword that is not filler. */
  method EmitConstant(value: int, rd: nat) returns (words: seq<nat>)
    requires Fits64(value) && rd < 32
    ensures Leaves(words, rd, Pieces(value)) && Value(Pieces(value)) == value % 0x1_0000_0000_0000_0000
    ensures |words| == 1 + Unlike(value, 4)
  {
    CountBounded(value);
    PiecesMakeValue(value);
    FirstLeaves(value, rd);
    words := [FirstWord(value, rd)];
    ghost var r := FirstValue(value);
    var count := PieceCount(value);
    var i := 1;
    while i < count
      invariant 1 <= i <= 4 && Built(value, i, r) && Leaves(words, rd, r) && |words| == 1 + Unlike(value, i)
    {
      var vl := Piece(value, i);
      BuiltNext(value, i, r);
      if (vl != 0 || value < 0) && (vl != 0xffff || value >= 0) {
        LeavesMore(words, i, vl, rd, r);
        words := words + [Encode(Movk, i, vl, rd)];
        r := r[i := vl];
      }
      i := i + 1;
    }
    RestIsFiller(value, i, r);
    UnlikeStays(value, i, 4);
  }
}
