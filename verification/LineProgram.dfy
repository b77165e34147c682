/**
  The line-number program of .debug_line: the writer, and the state machine of section 6.2 of
  DWARF Version 4 that reads it.
 */
module LineProgram {
  import opened Basics
  import opened Leb128

  /** A source location and the number of code bytes that belong to it. */
  type Sloc = s: RawSloc | s.range < 256 witness RawSloc(0, 0, 0)

  datatype RawSloc = RawSloc(file: nat, line: nat, range: nat)

  datatype Proc = Proc(symbol: nat, hasBody: bool, file: nat, slocs: seq<Sloc>)

  /** Procedures without a body or without code have no sequence. */
  predicate Listed(p: Proc) { p.hasBody && p.slocs != [] }

  // ---- the state machine ----

  datatype Registers = Registers(address: nat, file: nat, line: int)

  const INITIAL: Registers := Registers(0, 1, 1)

  datatype Row = Row(address: nat, file: nat, line: int, end: bool)

  function RowOf(r: Registers, end: bool): Row { Row(r.address, r.file, r.line, end) }

  const LINE_BASE: int := -5
  const LINE_RANGE: int := 14
  const OPCODE_BASE: nat := 13

  function LittleEndian(bytes: seq<Byte>): nat {
    if bytes == [] then 0 else bytes[0] + 256 * LittleEndian(bytes[1..])
  }

  function LittleBytes(v: nat, n: nat): (bytes: seq<Byte>)
    ensures |bytes| == n
  {
    if n == 0 then [] else [v % 256] + LittleBytes(v / 256, n - 1)
  }

  const ADDRESSES: nat := 0x1_0000_0000_0000_0000

  function Pow256(n: nat): nat { if n == 0 then 1 else 256 * Pow256(n - 1) }

  lemma {:induction false} LittleRoundTrip(v: nat, n: nat)
    requires v < Pow256(n)
    ensures LittleEndian(LittleBytes(v, n)) == v
  {
    if n > 0 {
      LittleRoundTrip(v / 256, n - 1);
      assert LittleBytes(v, n)[1..] == LittleBytes(v / 256, n - 1);
    }
  }

  /** Operations as far as the modelled registers are concerned. */
  datatype Op =
    | Copy | AdvancePc(gap: nat) | AdvanceLine(delta: int) | SetFile(file: nat) | SetAddress(address: nat)
    | EndSequence | Special(code: nat) | Other

  /** The operation at the front of the program; None if an operand is cut off. */
  function NextOp(bytes: seq<Byte>): (r: Option<Read<Op>>)
    requires bytes != []
    ensures r.Some? ==> |r.value.rest| < |bytes|
  {
    var op, rest := bytes[0], bytes[1..];
    if op == 0 then ExtendedOp(rest)
    else if op == 1 then Some(Read(Copy, rest))
    else if op == 2 || op == 4 || op == 5 || op == 12 then
      var arg := ReadUnsigned(rest);
      if arg.None? then None
      else
        var v := arg.value.value;
        Some(Read(if op == 2 then AdvancePc(v) else if op == 4 then SetFile(v) else Other, arg.value.rest))
    else if op == 3 then
      var arg := ReadSigned(rest);
      if arg.None? then None else Some(Read(AdvanceLine(arg.value.value), arg.value.rest))
    else if op == 8 then Some(Read(AdvancePc((255 - OPCODE_BASE) / LINE_RANGE), rest))
    else if op == 9 then if |rest| < 2 then None else Some(Read(AdvancePc(LittleEndian(rest[..2])), rest[2..]))
    else Some(Read(if op < OPCODE_BASE then Other else Special(op - OPCODE_BASE), rest))
  }

  /** Extended operations start with their length; unknown ones are skipped. */
  function ExtendedOp(bytes: seq<Byte>): (r: Option<Read<Op>>)
    ensures r.Some? ==> |r.value.rest| < |bytes|
  {
    var len := ReadUnsigned(bytes);
    if len.None? || len.value.value == 0 || len.value.value > |len.value.rest| then None
    else
      var n, body := len.value.value, len.value.rest;
      Some(Read(if body[0] == 1 && n == 1 then EndSequence
                else if body[0] == 2 && n == 9 then SetAddress(LittleEndian(body[1..9])) else Other, body[n..]))
  }

  function After(op: Op, r: Registers): Registers {
    match op
    case AdvancePc(gap) => r.(address := r.address + gap)
    case AdvanceLine(delta) => r.(line := r.line + delta)
    case SetFile(file) => r.(file := file)
    case SetAddress(address) => r.(address := address)
    case EndSequence => INITIAL
    case Special(code) => r.(address := r.address + code / LINE_RANGE, line := r.line + LINE_BASE + code % LINE_RANGE)
    case _ => r
  }

  function Emits(op: Op, r: Registers): seq<Row> {
    match op
    case Copy => [RowOf(r, false)]
    case EndSequence => [RowOf(r, true)]
    case Special(_) => [RowOf(After(op, r), false)]
    case _ => []
  }

  /** The operations of a program; None if it is cut off. */
  function Parse(bytes: seq<Byte>): Option<seq<Op>>
    decreases |bytes|
  {
    if bytes == [] then Some([])
    else
      var next := NextOp(bytes);
      if next.None? then None
      else
        var later := Parse(next.value.rest);
        if later.None? then None else Some([next.value.value] + later.value)
  }

  /** The rows the operations produce. */
  function Exec(ops: seq<Op>, r: Registers): seq<Row> {
    if ops == [] then [] else Emits(ops[0], r) + Exec(ops[1..], After(ops[0], r))
  }

  function AfterAll(ops: seq<Op>, r: Registers): Registers {
    if ops == [] then r else AfterAll(ops[1..], After(ops[0], r))
  }

  /** Runs a program and collects the rows. */
  function Run(bytes: seq<Byte>): Option<seq<Row>> {
    var ops := Parse(bytes);
    if ops.None? then None else Some(Exec(ops.value, INITIAL))
  }

  // ---- what the writer writes ----

  /** The operations the writer uses. */
  predicate Written(op: Op) {
    !op.Special? && !op.Other? && (op.SetAddress? ==> op.address < ADDRESSES)
  }

  type WrittenOp = op: Op | Written(op) witness Copy

  function Encode(op: WrittenOp): (code: seq<Byte>)
    ensures |code| > 0
  {
    match op
    case Copy => [1]
    case AdvancePc(gap) => [2] + Unsigned(gap)
    case AdvanceLine(delta) => [3] + Signed(delta)
    case SetFile(file) => [4] + Unsigned(file)
    case EndSequence => [0, 1, 1]
    case SetAddress(a) => [0, 9, 2] + LittleBytes(a, 8)
  }

  function EncodeAll(ops: seq<WrittenOp>): seq<Byte> {
    if ops == [] then [] else Encode(ops[0]) + EncodeAll(ops[1..])
  }

  function PcOps(cur: nat, prev: nat): seq<WrittenOp> {
    if cur == prev then [] else [AdvancePc(Gap(cur, prev))]
  }

  /** Subtraction of 32-bit offsets. */
  function Gap(cur: nat, prev: nat): nat { (cur - prev) % 0x1_0000_0000 }

  function FileOps(file: nat, was: nat): seq<WrittenOp> {
    if file == was then [] else [SetFile(file)]
  }

  function LineOps(line: int, was: int): seq<WrittenOp> {
    if line == was then [] else [AdvanceLine(line - was)]
  }

  function SlocOps(s: Sloc, file: nat, prev: nat, line: int, cur: nat): seq<WrittenOp> {
    FileOps(s.file + 1, file) + PcOps(cur, prev) + LineOps(s.line, line) + [Copy]
  }

  /** The running values before location i. */
  datatype Cursor = Cursor(file: nat, prev: nat, line: int, cur: nat)

  function CursorAt(slocs: seq<Sloc>, first: nat, i: nat): (c: Cursor)
    requires i <= |slocs|
    ensures c.cur < 0x1_0000_0000
  {
    if i == 0 then Cursor(first, 0, 1, 0) else Moved(CursorAt(slocs, first, i - 1), slocs[i - 1])
  }

  /** The running values behind a location. */
  function Moved(c: Cursor, s: Sloc): (next: Cursor)
    ensures next.cur < 0x1_0000_0000
  {
    Cursor(s.file + 1, c.cur, s.line, (c.cur + s.range) % 0x1_0000_0000)
  }

  function SlocOpsAt(slocs: seq<Sloc>, first: nat, i: nat): seq<WrittenOp>
    requires i < |slocs|
  {
    var c := CursorAt(slocs, first, i);
    SlocOps(slocs[i], c.file, c.prev, c.line, c.cur)
  }

  /** From location i on. */
  function OpsFrom(slocs: seq<Sloc>, first: nat, i: nat): seq<WrittenOp>
    requires i <= |slocs|
    decreases |slocs| - i
  {
    if i == |slocs| then EndOps(CursorAt(slocs, first, i))
    else SlocOpsAt(slocs, first, i) + OpsFrom(slocs, first, i + 1)
  }

  function EndOps(c: Cursor): seq<WrittenOp> { PcOps(c.cur, c.prev) + [EndSequence] }

  type Address = a: nat | a < ADDRESSES

  /** Where each symbol lies. */
  type Symbols = nat -> Address

  /** Before linking, all addresses are zero. */
  const UNLINKED: Symbols := _ => 0

  function ProcOps(p: Proc, at: Symbols): seq<WrittenOp> {
    if !Listed(p) then []
    else [SetAddress(at(p.symbol)), SetFile(p.file + 1)] + OpsFrom(p.slocs, p.file + 1, 0)
  }

  function ProgramOps(procs: seq<Proc>, at: Symbols): seq<WrittenOp> {
    if procs == [] then [] else ProcOps(procs[0], at) + ProgramOps(procs[1..], at)
  }

  // ---- relocation ----

  /** The eight bytes at the offset are to become the address of the symbol. */
  datatype Rela = Rela(offset: nat, symbol: nat)

  predicate Inside(bytes: seq<Byte>, relas: seq<Rela>) {
    forall i :: 0 <= i < |relas| ==> relas[i].offset + 8 <= |bytes|
  }

  function Patched(bytes: seq<Byte>, offset: nat, a: Address): (out: seq<Byte>)
    requires offset + 8 <= |bytes|
    ensures |out| == |bytes|
  {
    bytes[..offset] + LittleBytes(a, 8) + bytes[offset + 8..]
  }

  /** What the linker makes of a section. */
  function Linked(bytes: seq<Byte>, relas: seq<Rela>, at: Symbols): (out: seq<Byte>)
    requires Inside(bytes, relas)
    ensures |out| == |bytes|
    decreases |relas|
  {
    if relas == [] then bytes
    else Linked(Patched(bytes, relas[0].offset, at(relas[0].symbol)), relas[1..], at)
  }

  /** The operand follows the escape byte, the length and the code. */
  function ProcRelas(p: Proc, start: nat): seq<Rela> {
    if Listed(p) then [Rela(start + 3, p.symbol)] else []
  }

  function ProgramRelas(procs: seq<Proc>, start: nat): seq<Rela> {
    if procs == [] then []
    else ProcRelas(procs[0], start) + ProgramRelas(procs[1..], start + |EncodeAll(ProcOps(procs[0], UNLINKED))|)
  }

  // ---- what the rows should be ----

  /** One row per location, as far behind the start as the ranges before it reach; the end row behind all. */
  function RowsFrom(slocs: seq<Sloc>, base: nat, i: nat): seq<Row>
    requires i <= |slocs| && slocs != []
    decreases |slocs| - i
  {
    if i == |slocs| then [EndRow(slocs, base)]
    else [Row(base + Offset(slocs, i), slocs[i].file + 1, slocs[i].line, false)] + RowsFrom(slocs, base, i + 1)
  }

  /** It repeats the file and line of the last location. */
  function EndRow(slocs: seq<Sloc>, base: nat): Row
    requires slocs != []
  {
    var last := slocs[|slocs| - 1];
    Row(base + Offset(slocs, |slocs|), last.file + 1, last.line, true)
  }

  function ProcRows(p: Proc, at: Symbols): seq<Row> {
    if Listed(p) then RowsFrom(p.slocs, at(p.symbol), 0) else []
  }

  function ProgramRows(procs: seq<Proc>, at: Symbols): seq<Row> {
    if procs == [] then [] else ProcRows(procs[0], at) + ProgramRows(procs[1..], at)
  }

  /** The code bytes before location k. */
  function Offset(slocs: seq<Sloc>, k: nat): nat
    requires k <= |slocs|
  {
    if k == 0 then 0 else Offset(slocs, k - 1) + slocs[k - 1].range
  }

  lemma {:induction false} RowsAre(slocs: seq<Sloc>, base: nat, i: nat, k: nat)
    requires i <= k <= |slocs| && slocs != []
    ensures |RowsFrom(slocs, base, i)| == |slocs| - i + 1
    ensures RowsFrom(slocs, base, i)[k - i] ==
      if k < |slocs| then Row(base + Offset(slocs, k), slocs[k].file + 1, slocs[k].line, false) else EndRow(slocs, base)
    decreases |slocs| - i
  {
    if i < |slocs| {
      RowsAre(slocs, base, i + 1, if i < k then k else i + 1);
      HeadFirst(Row(base + Offset(slocs, i), slocs[i].file + 1, slocs[i].line, false), RowsFrom(slocs, base, i + 1),
        k - i);
    }
  }

  lemma HeadFirst(head: Row, rest: seq<Row>, j: nat)
    requires j <= |rest|
    ensures ([head] + rest)[j] == if j == 0 then head else rest[j - 1]
  {
  }

  // ---- reading back the bytes ----

  lemma ReadsUnsignedOp(code: Byte, v: nat, rest: seq<Byte>)
    requires code == 2 || code == 4
    ensures NextOp([code] + Unsigned(v) + rest) == Some(Read(if code == 2 then AdvancePc(v) else SetFile(v), rest))
  {
    var all: seq<Byte> := [code] + Unsigned(v) + rest;
    assert all[0] == code && all[1..] == Unsigned(v) + rest;
    UnsignedRoundTrip(v, rest);
  }

  lemma ReadsAdvanceLine(delta: int, rest: seq<Byte>)
    ensures NextOp([3] + Signed(delta) + rest) == Some(Read(AdvanceLine(delta), rest))
  {
    var all: seq<Byte> := [3] + Signed(delta) + rest;
    assert all[0] == 3 && all[1..] == Signed(delta) + rest;
    SignedRoundTrip(delta, rest);
  }

  lemma ReadsEnd(rest: seq<Byte>)
    ensures NextOp([0, 1, 1] + rest) == Some(Read(EndSequence, rest))
  {
    var all: seq<Byte> := [0, 1, 1] + rest;
    var body: seq<Byte> := [1] + rest;
    assert all[0] == 0 && all[1..] == Unsigned(1) + body;
    UnsignedRoundTrip(1, body);
    assert body[1..] == rest;
  }

  lemma ReadsSetAddress(a: Address, rest: seq<Byte>)
    ensures NextOp([0, 9, 2] + LittleBytes(a, 8) + rest) == Some(Read(SetAddress(a), rest))
  {
    var all: seq<Byte> := [0, 9, 2] + LittleBytes(a, 8) + rest;
    var body: seq<Byte> := [2] + LittleBytes(a, 8) + rest;
    assert all[0] == 0 && all[1..] == [9] + body;
    ReadsAddress(a, rest);
  }

  /** The operation behind the escape byte: its length, its code and its operand. */
  lemma ReadsAddress(a: Address, rest: seq<Byte>)
    ensures ExtendedOp([9] + ([2] + LittleBytes(a, 8) + rest)) == Some(Read(SetAddress(a), rest))
  {
    var body: seq<Byte> := [2] + LittleBytes(a, 8) + rest;
    assert Unsigned(9) == [9];
    UnsignedRoundTrip(9, body);
    assert body[9..] == rest && body[1..9] == LittleBytes(a, 8);
    assert Pow256(8) == ADDRESSES;
    LittleRoundTrip(a, 8);
  }

  lemma ReadsBack(op: WrittenOp, rest: seq<Byte>)
    ensures NextOp(Encode(op) + rest) == Some(Read(op, rest))
  {
    match op
    case Copy => assert ([1] + rest)[1..] == rest;
    case AdvancePc(gap) => ReadsUnsignedOp(2, gap, rest);
    case AdvanceLine(delta) => ReadsAdvanceLine(delta, rest);
    case SetFile(file) => ReadsUnsignedOp(4, file, rest);
    case EndSequence => ReadsEnd(rest);
    case SetAddress(a) => ReadsSetAddress(a, rest);
  }

  /** Parsing the bytes gives back the operations. */
  lemma {:induction false} ParseIsInverse(ops: seq<WrittenOp>)
    ensures Parse(EncodeAll(ops)) == Some(ops)
  {
    if ops != [] {
      ReadsBack(ops[0], EncodeAll(ops[1..]));
      ParseIsInverse(ops[1..]);
      assert [ops[0]] + ops[1..] == ops;
    }
  }

  // ---- running the operations ----

  lemma {:induction false} ExecJoins(a: seq<Op>, b: seq<Op>, r: Registers)
    ensures Exec(a + b, r) == Exec(a, r) + Exec(b, AfterAll(a, r)) && AfterAll(a + b, r) == AfterAll(b, AfterAll(a, r))
  {
    if a == [] {
      assert a + b == b;
    } else {
      assert (a + b)[0] == a[0] && (a + b)[1..] == a[1..] + b;
      ExecJoins(a[1..], b, After(a[0], r));
    }
  }

  lemma ExecBoth(a: seq<Op>, b: seq<Op>, r: Registers, mid: Registers)
    requires AfterAll(a, r) == mid
    ensures Exec(a + b, r) == Exec(a, r) + Exec(b, mid) && AfterAll(a + b, r) == AfterAll(b, mid)
  {
    ExecJoins(a, b, r);
  }

  lemma ExecSilent(a: seq<Op>, b: seq<Op>, r: Registers, mid: Registers)
    requires Exec(a, r) == [] && AfterAll(a, r) == mid
    ensures Exec(a + b, r) == Exec(b, mid) && AfterAll(a + b, r) == AfterAll(b, mid)
  {
    ExecJoins(a, b, r);
    assert [] + Exec(b, mid) == Exec(b, mid);
  }

  lemma ExecOne(op: Op, r: Registers)
    ensures Exec([op], r) == Emits(op, r) && AfterAll([op], r) == After(op, r)
  {
    assert [op][1..] == [];
    assert Exec([], After(op, r)) == [];
  }

  lemma ExecFile(file: nat, r: Registers)
    ensures Exec(FileOps(file, r.file), r) == [] && AfterAll(FileOps(file, r.file), r) == r.(file := file)
  {
    if file != r.file { ExecOne(SetFile(file), r); }
  }

  lemma ExecPc(cur: nat, prev: nat, r: Registers)
    ensures Exec(PcOps(cur, prev), r) == []
    ensures AfterAll(PcOps(cur, prev), r) == r.(address := r.address + Gap(cur, prev))
  {
    if cur != prev { ExecOne(AdvancePc(Gap(cur, prev)), r); }
  }

  lemma ExecLine(line: int, r: Registers)
    ensures Exec(LineOps(line, r.line), r) == [] && AfterAll(LineOps(line, r.line), r) == r.(line := line)
  {
    if line != r.line { ExecOne(AdvanceLine(line - r.line), r); }
  }

  lemma ExecSloc(s: Sloc, prev: nat, cur: nat, r: Registers)
    ensures var ops, after :=
      SlocOps(s, r.file, prev, r.line, cur), Registers(r.address + Gap(cur, prev), s.file + 1, s.line);
      Exec(ops, r) == [RowOf(after, false)] && AfterAll(ops, r) == after
  {
    var f, p, l := FileOps(s.file + 1, r.file), PcOps(cur, prev), LineOps(s.line, r.line);
    var r1 := r.(file := s.file + 1);
    var r2 := r1.(address := r.address + Gap(cur, prev));
    var r3 := r2.(line := s.line);
    ExecFile(s.file + 1, r);
    ExecPc(cur, prev, r1);
    ExecLine(s.line, r2);
    ExecOne(Copy, r3);
    ExecSilent(f, p, r, r1);
    ExecSilent(f + p, l, r, r2);
    ExecSilent(f + p + l, [Copy], r, r3);
  }

  /** However far the 32-bit offset has wrapped, the gap to the row before is the range of that row. */
  lemma GapIsRange(cur: nat, range: nat)
    requires cur < 0x1_0000_0000 && range < 0x1_0000_0000
    ensures Gap((cur + range) % 0x1_0000_0000, cur) == range
  {
  }

  /** The registers before location i, the address still being that of the location before. */
  ghost predicate InStep(slocs: seq<Sloc>, first: nat, base: nat, i: nat, r: Registers)
    requires i <= |slocs|
  {
    var c := CursorAt(slocs, first, i);
    r.file == c.file && r.line == c.line && r.address + Gap(c.cur, c.prev) == base + Offset(slocs, i)
  }

  function RowRegisters(slocs: seq<Sloc>, base: nat, i: nat): Registers
    requires i < |slocs|
  {
    Registers(base + Offset(slocs, i), slocs[i].file + 1, slocs[i].line)
  }

  lemma CursorNext(slocs: seq<Sloc>, first: nat, i: nat)
    requires i < |slocs|
    ensures CursorAt(slocs, first, i + 1) == Moved(CursorAt(slocs, first, i), slocs[i])
  {
  }

  /** After its own row, location i leaves the registers in step with location i + 1. */
  lemma StepsOn(slocs: seq<Sloc>, first: nat, base: nat, i: nat)
    requires i < |slocs|
    ensures InStep(slocs, first, base, i + 1, RowRegisters(slocs, base, i))
  {
    var c, s := CursorAt(slocs, first, i), slocs[i];
    CursorNext(slocs, first, i);
    GapIsRange(c.cur, s.range);
  }

  lemma ExecSlocAt(slocs: seq<Sloc>, first: nat, base: nat, i: nat, r: Registers)
    requires i < |slocs| && InStep(slocs, first, base, i, r)
    ensures Exec(SlocOpsAt(slocs, first, i), r) == [RowOf(RowRegisters(slocs, base, i), false)]
    ensures AfterAll(SlocOpsAt(slocs, first, i), r) == RowRegisters(slocs, base, i)
  {
    var c := CursorAt(slocs, first, i);
    ExecSloc(slocs[i], c.prev, c.cur, r);
  }

  lemma ExecEnd(slocs: seq<Sloc>, first: nat, base: nat, r: Registers)
    requires slocs != [] && InStep(slocs, first, base, |slocs|, r)
    ensures var ops := EndOps(CursorAt(slocs, first, |slocs|));
      Exec(ops, r) == [EndRow(slocs, base)] && AfterAll(ops, r) == INITIAL
  {
    var c := CursorAt(slocs, first, |slocs|);
    ExecPc(c.cur, c.prev, r);
    ExecOne(EndSequence, r.(address := r.address + Gap(c.cur, c.prev)));
    ExecJoins(PcOps(c.cur, c.prev), [EndSequence], r);
  }

  lemma {:induction false} ExecBody(slocs: seq<Sloc>, first: nat, base: nat, i: nat, r: Registers)
    requires i <= |slocs| && slocs != [] && InStep(slocs, first, base, i, r)
    ensures Exec(OpsFrom(slocs, first, i), r) == RowsFrom(slocs, base, i)
    ensures AfterAll(OpsFrom(slocs, first, i), r) == INITIAL
    decreases |slocs| - i
  {
    if i == |slocs| {
      ExecEnd(slocs, first, base, r);
    } else {
      var mid := RowRegisters(slocs, base, i);
      ExecSlocAt(slocs, first, base, i, r);
      StepsOn(slocs, first, base, i);
      ExecBody(slocs, first, base, i + 1, mid);
      ExecBoth(SlocOpsAt(slocs, first, i), OpsFrom(slocs, first, i + 1), r, mid);
      NextOps(slocs, first, base, i);
    }
  }

  lemma NextOps(slocs: seq<Sloc>, first: nat, base: nat, i: nat)
    requires i < |slocs|
    ensures OpsFrom(slocs, first, i) == SlocOpsAt(slocs, first, i) + OpsFrom(slocs, first, i + 1)
    ensures RowsFrom(slocs, base, i) == [RowOf(RowRegisters(slocs, base, i), false)] + RowsFrom(slocs, base, i + 1)
  {
  }

  lemma ExecStart(a: Address, file: nat)
    ensures var ops := [SetAddress(a), SetFile(file)];
      Exec(ops, INITIAL) == [] && AfterAll(ops, INITIAL) == Registers(a, file, 1)
  {
    ExecOne(SetAddress(a), INITIAL);
    ExecOne(SetFile(file), INITIAL.(address := a));
    ExecJoins([SetAddress(a)], [SetFile(file)], INITIAL);
    assert [SetAddress(a)] + [SetFile(file)] == [SetAddress(a), SetFile(file)];
  }

  lemma ExecProc(p: Proc, at: Symbols)
    ensures Exec(ProcOps(p, at), INITIAL) == ProcRows(p, at) && AfterAll(ProcOps(p, at), INITIAL) == INITIAL
  {
    if Listed(p) {
      var base, first := at(p.symbol), p.file + 1;
      ExecStart(base, first);
      assert InStep(p.slocs, first, base, 0, Registers(base, first, 1));
      ExecBody(p.slocs, first, base, 0, Registers(base, first, 1));
      ExecJoins([SetAddress(base), SetFile(first)], OpsFrom(p.slocs, first, 0), INITIAL);
    }
  }

  lemma {:induction false} ExecProgram(procs: seq<Proc>, at: Symbols)
    ensures Exec(ProgramOps(procs, at), INITIAL) == ProgramRows(procs, at)
  {
    if procs != [] {
      ExecProc(procs[0], at);
      ExecProgram(procs[1..], at);
      ExecJoins(ProcOps(procs[0], at), ProgramOps(procs[1..], at), INITIAL);
    }
  }

  // ---- linking ----

  /** Wherever the procedure lies, linking its sequence only changes the operand of its first operation. */
  ghost predicate LinksFirst(before: seq<Byte>, p: Proc, later: seq<Byte>, at: Symbols) {
    var ops, out := EncodeAll(ProcOps(p, UNLINKED)), EncodeAll(ProcOps(p, at));
    && |out| == |ops| >= 11
    && Patched(before + ops + later, |before| + 3, at(p.symbol)) == before + out + later
  }

  lemma LinkedProc(before: seq<Byte>, p: Proc, later: seq<Byte>, at: Symbols)
    requires Listed(p)
    ensures LinksFirst(before, p, later, at)
  {
    var rest := [SetFile(p.file + 1)] + OpsFrom(p.slocs, p.file + 1, 0);
    StartEncoded(p, UNLINKED);
    StartEncoded(p, at);
    PatchOperand(before, LittleBytes(0, 8), EncodeAll(rest), later, at(p.symbol));
  }

  lemma StartEncoded(p: Proc, at: Symbols)
    requires Listed(p)
    ensures var rest := [SetFile(p.file + 1)] + OpsFrom(p.slocs, p.file + 1, 0);
      EncodeAll(ProcOps(p, at)) == [0, 9, 2] + LittleBytes(at(p.symbol), 8) + EncodeAll(rest)
  {
    var rest := [SetFile(p.file + 1)] + OpsFrom(p.slocs, p.file + 1, 0);
    assert ProcOps(p, at) == [SetAddress(at(p.symbol))] + rest;
    EncodeJoins([SetAddress(at(p.symbol))], rest);
    EncodeOne(SetAddress(at(p.symbol)));
  }

  lemma PatchOperand(before: seq<Byte>, operand: seq<Byte>, rest: seq<Byte>, later: seq<Byte>, a: Address)
    requires |operand| == 8
    ensures Patched(before + ([0, 9, 2] + operand + rest) + later, |before| + 3, a) ==
      before + ([0, 9, 2] + LittleBytes(a, 8) + rest) + later
  {
    var start: seq<Byte> := [0, 9, 2];
    var all := before + (start + operand + rest) + later;
    assert all == (before + start) + operand + (rest + later);
    assert all[..|before| + 3] == before + start && all[|before| + 11..] == rest + later;
  }

  /** The relocations lie within the section, and linking it gives the program with the addresses filled in. */
  ghost predicate LinksTo(before: seq<Byte>, procs: seq<Proc>, at: Symbols) {
    var out := before + EncodeAll(ProgramOps(procs, UNLINKED));
    && Inside(out, ProgramRelas(procs, |before|))
    && Linked(out, ProgramRelas(procs, |before|), at) == before + EncodeAll(ProgramOps(procs, at))
  }

  lemma {:induction false} LinkedProgram(before: seq<Byte>, procs: seq<Proc>, at: Symbols)
    ensures LinksTo(before, procs, at)
    decreases |procs|
  {
    if procs != [] {
      LinkedProgram(before + EncodeAll(ProcOps(procs[0], at)), procs[1..], at);
      if Listed(procs[0]) {
        LinkedProc(before, procs[0], EncodeAll(ProgramOps(procs[1..], UNLINKED)), at);
      }
      LinkedStep(before, procs[0], procs[1..], at);
      assert [procs[0]] + procs[1..] == procs;
    }
  }

  lemma LinkedStep(before: seq<Byte>, p: Proc, rest: seq<Proc>, at: Symbols)
    requires LinksTo(before + EncodeAll(ProcOps(p, at)), rest, at)
    requires Listed(p) ==> LinksFirst(before, p, EncodeAll(ProgramOps(rest, UNLINKED)), at)
    ensures LinksTo(before, [p] + rest, at)
  {
    var ops, linked := EncodeAll(ProcOps(p, UNLINKED)), EncodeAll(ProcOps(p, at));
    var later, later' := EncodeAll(ProgramOps(rest, UNLINKED)), EncodeAll(ProgramOps(rest, at));
    FirstSequence(p, rest, UNLINKED);
    FirstSequence(p, rest, at);
    FirstRelas(p, rest, |before|, |before + ops|);
    Assoc(before, ops, later);
    Assoc(before, linked, later');
    var relas := ProgramRelas(rest, |before + linked|);
    if Listed(p) {
      assert |before + linked| == |before + ops|;
      LinkFirst(before + ops + later, Rela(|before| + 3, p.symbol), relas, at);
    } else {
      assert before + linked == before == before + ops && [] + relas == relas;
    }
  }

  lemma FirstRelas(p: Proc, rest: seq<Proc>, start: nat, next: nat)
    requires next == start + |EncodeAll(ProcOps(p, UNLINKED))|
    ensures ProgramRelas([p] + rest, start) == ProcRelas(p, start) + ProgramRelas(rest, next)
  {
    assert ([p] + rest)[1..] == rest;
  }

  lemma FirstSequence(p: Proc, rest: seq<Proc>, at: Symbols)
    ensures EncodeAll(ProgramOps([p] + rest, at)) == EncodeAll(ProcOps(p, at)) + EncodeAll(ProgramOps(rest, at))
  {
    assert ([p] + rest)[1..] == rest;
    EncodeJoins(ProcOps(p, at), ProgramOps(rest, at));
  }

  lemma LinkFirst(bytes: seq<Byte>, first: Rela, rest: seq<Rela>, at: Symbols)
    requires first.offset + 8 <= |bytes| && Inside(Patched(bytes, first.offset, at(first.symbol)), rest)
    ensures Inside(bytes, [first] + rest)
    ensures Linked(bytes, [first] + rest, at) == Linked(Patched(bytes, first.offset, at(first.symbol)), rest, at)
  {
    assert ([first] + rest)[1..] == rest;
  }

  /** Linked, the written bytes are read back by the state machine to the rows they were written for, each procedure's
      where the procedure lies. */
  lemma ProgramReadsBack(before: seq<Byte>, procs: seq<Proc>, at: Symbols)
    ensures var out := before + EncodeAll(ProgramOps(procs, UNLINKED));
      && Inside(out, ProgramRelas(procs, |before|))
      && Run(Linked(out, ProgramRelas(procs, |before|), at)[|before|..]) == Some(ProgramRows(procs, at))
  {
    LinkedProgram(before, procs, at);
    ParseIsInverse(ProgramOps(procs, at));
    ExecProgram(procs, at);
  }

  // ---- the writer ----

  lemma {:induction false} EncodeJoins(a: seq<WrittenOp>, b: seq<WrittenOp>)
    ensures EncodeAll(a + b) == EncodeAll(a) + EncodeAll(b)
  {
    if a == [] {
      assert a + b == b;
    } else {
      assert (a + b)[0] == a[0] && (a + b)[1..] == a[1..] + b;
      EncodeJoins(a[1..], b);
    }
  }

  lemma EncodeOne(op: WrittenOp)
    ensures EncodeAll([op]) == Encode(op)
  {
    assert [op][1..] == [];
  }

  /** The output so far: what was there and the encoded operations. */
  ghost predicate Holds(out: seq<Byte>, before: seq<Byte>, ops: seq<WrittenOp>) {
    out == before + EncodeAll(ops)
  }

  lemma HoldsJoins(out: seq<Byte>, mid: seq<Byte>, before: seq<Byte>, a: seq<WrittenOp>, b: seq<WrittenOp>)
    requires Holds(mid, before, a) && Holds(out, mid, b)
    ensures Holds(out, before, a + b)
  {
    EncodeJoins(a, b);
    Assoc(before, EncodeAll(a), EncodeAll(b));
  }

  lemma Assoc<T>(a: seq<T>, b: seq<T>, c: seq<T>)
    ensures a + b + c == a + (b + c)
  {
  }

  method WriteOp(op: WrittenOp, out: ByteBuffer)
    modifies out
    ensures Holds(out.bytes, old(out.bytes), [op])
  {
    EncodeOne(op);
    match op
    case Copy => out.Append([1]);
    case AdvancePc(gap) => WriteUnsigned(2, gap, out);
    case AdvanceLine(delta) => WriteSigned(3, delta, out);
    case SetFile(file) => WriteUnsigned(4, file, out);
    case EndSequence => out.Append([0, 1, 1]);
    case SetAddress(a) => out.Append([0, 9, 2] + LittleBytes(a, 8));
  }

  method WriteUnsigned(code: Byte, value: nat, out: ByteBuffer)
    modifies out
    ensures out.bytes == old(out.bytes) + ([code] + Unsigned(value))
  {
    Assoc(out.bytes, [code], Unsigned(value));
    out.Append([code]);
    out.PutUnsigned(value);
  }

  method WriteSigned(code: Byte, value: int, out: ByteBuffer)
    modifies out
    ensures out.bytes == old(out.bytes) + ([code] + Signed(value))
  {
    Assoc(out.bytes, [code], Signed(value));
    out.Append([code]);
    out.PutSigned(value);
  }

  /** Writes the line programs of all procedures, and where the linker has to put their addresses. */
  method WritePrograms(procs: seq<Proc>, out: ByteBuffer) returns (relas: seq<Rela>)
    modifies out
    ensures out.bytes == old(out.bytes) + EncodeAll(ProgramOps(procs, UNLINKED))
    ensures relas == ProgramRelas(procs, |old(out.bytes)|)
  {
    relas := [];
    ghost var before := out.bytes;
    for i := 0 to |procs|
      invariant Remaining(procs, i, out.bytes, relas, before)
    {
      ghost var was := out.bytes;
      var more := WriteProc(procs[i], out);
      RemainingNext(procs, i, was, out.bytes, relas, more, before);
      relas := relas + more;
    }
    assert procs[|procs|..] == [];
  }

  /** What has been written and what the procedures from i on will add. */
  ghost predicate Remaining(procs: seq<Proc>, i: nat, out: seq<Byte>, relas: seq<Rela>, before: seq<Byte>) {
    && i <= |procs| && relas + ProgramRelas(procs[i..], |out|) == ProgramRelas(procs, |before|)
    && out + EncodeAll(ProgramOps(procs[i..], UNLINKED)) == before + EncodeAll(ProgramOps(procs, UNLINKED))
  }

  lemma RemainingNext(procs: seq<Proc>, i: nat, was: seq<Byte>, out: seq<Byte>, relas: seq<Rela>, more: seq<Rela>,
                      before: seq<Byte>)
    requires i < |procs| && Remaining(procs, i, was, relas, before)
    requires Holds(out, was, ProcOps(procs[i], UNLINKED)) && more == ProcRelas(procs[i], |was|)
    ensures Remaining(procs, i + 1, out, relas + more, before)
  {
    var p, rest := procs[i], procs[i + 1..];
    assert procs[i..] == [p] + rest;
    FirstSequence(p, rest, UNLINKED);
    FirstRelas(p, rest, |was|, |out|);
    Assoc(was, EncodeAll(ProcOps(p, UNLINKED)), EncodeAll(ProgramOps(rest, UNLINKED)));
    Assoc(relas, more, ProgramRelas(rest, |out|));
  }

  /** One sequence: start address, file, one entry per location, end. */
  method WriteProc(p: Proc, out: ByteBuffer) returns (relas: seq<Rela>)
    modifies out
    ensures Holds(out.bytes, old(out.bytes), ProcOps(p, UNLINKED)) && relas == ProcRelas(p, |old(out.bytes)|)
  {
    relas := [];
    if !p.hasBody || p.slocs == [] { return; }
    ghost var zero := out.bytes;
    out.Append([0, 9, 2]);
    relas := [Rela(|out.bytes|, p.symbol)];
    ghost var mid := out.bytes;
    out.Append(LittleBytes(0, 8));
    AddressWritten(zero, mid, out.bytes);
    ghost var one := out.bytes;
    WriteOp(SetFile(p.file + 1), out);
    ghost var two := out.bytes;
    WriteBody(p.slocs, p.file + 1, out);
    HoldsJoins(two, one, zero, [SetAddress(0)], [SetFile(p.file + 1)]);
    HoldsJoins(out.bytes, two, zero, [SetAddress(0)] + [SetFile(p.file + 1)], OpsFrom(p.slocs, p.file + 1, 0));
    assert [SetAddress(0)] + [SetFile(p.file + 1)] == [SetAddress(0), SetFile(p.file + 1)];
  }

  lemma AddressWritten(before: seq<Byte>, mid: seq<Byte>, out: seq<Byte>)
    requires mid == before + [0, 9, 2] && out == mid + LittleBytes(0, 8)
    ensures Holds(out, before, [SetAddress(0)])
  {
    EncodeOne(SetAddress(0));
    Assoc(before, [0, 9, 2], LittleBytes(0, 8));
  }

  method WriteBody(slocs: seq<Sloc>, first: nat, out: ByteBuffer)
    modifies out
    ensures Holds(out.bytes, old(out.bytes), OpsFrom(slocs, first, 0))
  {
    ghost var before := out.bytes;
    var c := Cursor(first, 0, 1, 0);
    for i := 0 to |slocs|
      invariant Writing(slocs, first, i, c, out.bytes, before)
    {
      c := WriteAt(slocs, first, i, c, out, before);
    }
    WriteEnd(c.cur, c.prev, out, before, OpsBefore(slocs, first, |slocs|));
    OpsBeforeFrom(slocs, first, |slocs|);
  }

  /** The operations of the locations before i have been written. */
  ghost predicate Writing(slocs: seq<Sloc>, first: nat, i: nat, c: Cursor, out: seq<Byte>, before: seq<Byte>) {
    i <= |slocs| && Holds(out, before, OpsBefore(slocs, first, i)) && CursorAt(slocs, first, i) == c
  }

  method WriteAt(slocs: seq<Sloc>, first: nat, i: nat, c: Cursor, out: ByteBuffer, ghost before: seq<Byte>)
    returns (c': Cursor)
    requires i < |slocs| && Writing(slocs, first, i, c, out.bytes, before)
    modifies out
    ensures Writing(slocs, first, i + 1, c', out.bytes, before)
  {
    c' := Moved(c, slocs[i]);
    CursorNext(slocs, first, i);
    OpsBeforeNext(slocs, first, i);
    AddSloc(slocs[i], c.file, c.prev, c.line, c.cur, out, before, OpsBefore(slocs, first, i));
  }

  ghost function OpsBefore(slocs: seq<Sloc>, first: nat, i: nat): seq<WrittenOp>
    requires i <= |slocs|
  {
    if i == 0 then [] else OpsBefore(slocs, first, i - 1) + SlocOpsAt(slocs, first, i - 1)
  }

  lemma OpsBeforeNext(slocs: seq<Sloc>, first: nat, i: nat)
    requires i < |slocs|
    ensures var c := CursorAt(slocs, first, i);
      OpsBefore(slocs, first, i + 1) == OpsBefore(slocs, first, i) + SlocOps(slocs[i], c.file, c.prev, c.line, c.cur)
  {
  }

  lemma {:induction false} OpsBeforeFrom(slocs: seq<Sloc>, first: nat, i: nat)
    requires i <= |slocs|
    ensures OpsBefore(slocs, first, i) + OpsFrom(slocs, first, i) == OpsFrom(slocs, first, 0)
  {
    if i > 0 {
      OpsBeforeFrom(slocs, first, i - 1);
      Assoc(OpsBefore(slocs, first, i - 1), SlocOpsAt(slocs, first, i - 1), OpsFrom(slocs, first, i));
    }
  }

  method AddSloc(s: Sloc, file: nat, prev: nat, line: int, cur: nat, out: ByteBuffer, ghost before: seq<Byte>,
                 ghost done: seq<WrittenOp>)
    requires Holds(out.bytes, before, done)
    modifies out
    ensures Holds(out.bytes, before, done + SlocOps(s, file, prev, line, cur))
  {
    ghost var mid := out.bytes;
    WriteSloc(s, file, prev, line, cur, out);
    HoldsJoins(out.bytes, mid, before, done, SlocOps(s, file, prev, line, cur));
  }

  method WriteEnd(cur: nat, prev: nat, out: ByteBuffer, ghost before: seq<Byte>, ghost done: seq<WrittenOp>)
    requires Holds(out.bytes, before, done)
    modifies out
    ensures Holds(out.bytes, before, done + (PcOps(cur, prev) + [EndSequence]))
  {
    ghost var start := out.bytes;
    WritePc(cur, prev, out);
    ghost var mid := out.bytes;
    WriteOp(EndSequence, out);
    HoldsJoins(out.bytes, mid, start, PcOps(cur, prev), [EndSequence]);
    HoldsJoins(out.bytes, start, before, done, PcOps(cur, prev) + [EndSequence]);
  }

  method WriteSloc(s: Sloc, file: nat, prev: nat, line: int, cur: nat, out: ByteBuffer)
    modifies out
    ensures Holds(out.bytes, old(out.bytes), SlocOps(s, file, prev, line, cur))
  {
    ghost var f, p, l := FileOps(s.file + 1, file), PcOps(cur, prev), LineOps(s.line, line);
    if s.file + 1 != file { WriteOp(SetFile(s.file + 1), out); }
    ghost var one := out.bytes;
    WritePc(cur, prev, out);
    ghost var two := out.bytes;
    HoldsJoins(two, one, old(out.bytes), f, p);
    if s.line != line { WriteOp(AdvanceLine(s.line - line), out); }
    ghost var three := out.bytes;
    HoldsJoins(three, two, old(out.bytes), f + p, l);
    WriteOp(Copy, out);
    HoldsJoins(out.bytes, three, old(out.bytes), f + p + l, [Copy]);
  }

  method WritePc(cur: nat, prev: nat, out: ByteBuffer)
    modifies out
    ensures Holds(out.bytes, old(out.bytes), PcOps(cur, prev))
  {
    if cur != prev { WriteOp(AdvancePc((cur - prev) % 0x1_0000_0000), out); }
  }
}
