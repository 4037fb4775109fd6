/**
 The line-number program emitted for compiled functions, and what a reader makes of it.
 */
module LineProgram {
  import opened Basics
  import opened Leb128
  import D = DwarfReader

  const WORD: nat := 0x1_0000_0000_0000_0000

  /** The header that goes with the program, as a reader sees it. */
  const HEADER: D.Header := D.Header(1, 1, true, -5, 14, 13, [0, 1, 1, 1, 1, 0, 0, 0, 1, 0, 0, 1])

  /** The instructions used. */
  datatype LineOp =
    | SetAddress(address: nat)
    | AdvancePc(delta: nat)
    | SetFile(file: nat)
    | AdvanceLine(delta_line: int)
    | Copy
    | EndSequence

  predicate Encodable(op: LineOp) {
    op.SetAddress? ==> op.address < WORD
  }

  // ---------------------------------------------------------------- the instructions as bytes

  function Encode(op: LineOp): (bytes: seq<Byte>)
    ensures bytes != []
  {
    match op
    case SetAddress(a) => [0] + Uleb(9) + [2] + Little(a, 8)
    case AdvancePc(d) => [2] + Uleb(d)
    case SetFile(f) => [4] + Uleb(f)
    case AdvanceLine(d) => [3] + Sleb(d)
    case Copy => [1]
    case EndSequence => [0] + Uleb(1) + [1]
  }

  function EncodeAll(ops: seq<LineOp>): seq<Byte> {
    if ops == [] then [] else EncodeAll(ops[..|ops| - 1]) + Encode(ops[|ops| - 1])
  }

  /** What an instruction means to a reader. */
  function Meaning(op: LineOp): D.Inst {
    match op
    case SetAddress(a) => D.SetAddress(a)
    case AdvancePc(d) => D.AdvancePc(d)
    case SetFile(f) => D.SetFile(f)
    case AdvanceLine(d) => D.AdvanceLine(d)
    case Copy => D.Copy
    case EndSequence => D.EndSequence
  }

  /** With this header, a reader finds in the bytes of an instruction what it means. */
  lemma OpRoundTrip(op: LineOp, rest: seq<Byte>)
    requires Encodable(op)
    ensures D.ReadInst(HEADER, Encode(op) + rest) == Some(Parsed(Meaning(op), rest))
  {
    hide Uleb, Sleb, ReadUleb, ReadSleb, D.ReadExtended, Little, D.Skip;
    match op
    case AdvancePc(d) => Peel(2, Uleb(d), rest); UlebRoundTrip(d, rest);
    case SetFile(f) => Peel(4, Uleb(f), rest); UlebRoundTrip(f, rest);
    case AdvanceLine(d) => Peel(3, Sleb(d), rest); SlebRoundTrip(d, rest);
    case Copy => assert ([1] + rest)[1..] == rest;
    case SetAddress(a) =>
      ExtendedRoundTrip(9, [2], Little(a, 8), rest);
      Address(a);
    case EndSequence =>
      ExtendedRoundTrip(1, [1], [], rest);
      assert Encode(op) == [0] + Uleb(1) + [1] + [];
  }

  lemma Peel(first: Byte, body: seq<Byte>, rest: seq<Byte>)
    ensures ([first] + body + rest)[0] == first && ([first] + body + rest)[1..] == body + rest
  {
  }

  lemma Address(a: nat)
    requires a < WORD
    ensures ReadLittle(Little(a, 8)) == a
  {
    hide Little, ReadLittle;
    assert Pow256(2) == 0x1_0000 && Pow256(4) == 0x1_0000_0000;
    LittleRoundTrip(a, 8);
  }

  lemma ExtendedRoundTrip(n: nat, opcode: seq<Byte>, operand: seq<Byte>, rest: seq<Byte>)
    requires n == 1 + |operand| && |opcode| == 1 && opcode[0] in {1, 2}
    ensures var bytes := [0] + Uleb(n) + opcode + operand + rest;
            && bytes[0] == 0
            && D.ReadExtended(bytes[1..]) == if opcode[0] == 1 then if n == 1 then Some(Parsed(D.EndSequence, rest)) else None
                                             else if n == 9 then Some(Parsed(D.SetAddress(ReadLittle(operand)), rest)) else None
  {
    hide Uleb, ReadUleb, ReadLittle;
    var body := opcode + operand + rest;
    UlebRoundTrip(n, body);
    assert ([0] + Uleb(n) + opcode + operand + rest)[1..] == Uleb(n) + body;
    assert body[1..n] == operand && body[n..] == rest;
  }

  lemma {:induction false} EncodeFirst(ops: seq<LineOp>)
    requires ops != []
    ensures EncodeAll(ops) == Encode(ops[0]) + EncodeAll(ops[1..])
    decreases |ops|
  {
    hide Encode;
    if |ops| > 1 {
      var init := ops[..|ops| - 1];
      EncodeFirst(init);
      assert ops[1..][..|ops| - 2] == init[1..];
    }
  }

  // ---------------------------------------------------------------- the machine that reads it

  function Apply(m: D.Machine, op: LineOp): D.Machine {
    D.Apply(HEADER, m, Meaning(op))
  }

  /** The registers behind a row of this program: an address, a file and a line; the rest is as it began. */
  function Place(address: nat, file: nat, line: int): (r: D.Regs) {
    D.Regs(address, 0, file, line, 0, true, false, false, false, 0, 0)
  }

  const Initial: D.Regs := Place(0, 1, 1)

  function Execute(ops: seq<LineOp>): D.Machine {
    if ops == [] then D.Machine([], Initial) else Apply(Execute(ops[..|ops| - 1]), ops[|ops| - 1])
  }

  function ExecuteFrom(m: D.Machine, ops: seq<LineOp>): D.Machine
    decreases |ops|
  {
    if ops == [] then m else ExecuteFrom(Apply(m, ops[0]), ops[1..])
  }

  lemma {:induction false} ExecuteLast(m: D.Machine, ops: seq<LineOp>)
    requires ops != []
    ensures ExecuteFrom(m, ops) == Apply(ExecuteFrom(m, ops[..|ops| - 1]), ops[|ops| - 1])
    decreases |ops|
  {
    hide Apply;
    if |ops| > 1 {
      ExecuteLast(Apply(m, ops[0]), ops[1..]);
      assert ops[1..][..|ops| - 2] == ops[..|ops| - 1][1..];
    }
  }

  lemma {:induction false} SameExecution(ops: seq<LineOp>)
    ensures Execute(ops) == ExecuteFrom(D.Machine([], Initial), ops)
    decreases |ops|
  {
    hide Apply;
    if ops != [] {
      SameExecution(ops[..|ops| - 1]);
      ExecuteLast(D.Machine([], Initial), ops);
    }
  }

  lemma {:induction false} RunsFrom(m: D.Machine, ops: seq<LineOp>)
    requires forall op <- ops :: Encodable(op)
    ensures D.RunProgram(HEADER, m, EncodeAll(ops)) == Some(ExecuteFrom(m, ops))
    decreases |ops|
  {
    hide Encode, D.ReadInst, Encodable, D.Apply;
    if ops != [] {
      EncodeFirst(ops);
      OpRoundTrip(ops[0], EncodeAll(ops[1..]));
      RunsFrom(Apply(m, ops[0]), ops[1..]);
    }
  }

  /** A reader with this header runs the bytes of the instructions to exactly what the instructions mean. */
  lemma ProgramRoundTrip(ops: seq<LineOp>)
    requires forall op <- ops :: Encodable(op)
    ensures D.RunProgram(HEADER, D.Machine([], D.Initial(HEADER)), EncodeAll(ops)) == Some(Execute(ops))
  {
    hide Encodable;
    RunsFrom(D.Machine([], Initial), ops);
    SameExecution(ops);
  }

  // ---------------------------------------------------------------- what the program is to say

  /** A compiled function: where its code starts, the code offset of every opcode (and the end), and its file and line. */
  datatype Function = Function(start: int, offsets: seq<nat>, debug: seq<(int, int)>)
  {
    predicate WellFormed() {
      |offsets| == |debug| + 1
    }

    /** The sign bit of the file marks something else. */
    function File(j: nat): (file: nat)
      requires j < |debug|
    {
      debug[j].0 % 0x8000_0000
    }

    predicate Listed(files: nat, j: nat)
      requires WellFormed() && j < |debug|
    {
      File(j) < files && debug[j].1 > 0 && offsets[j] < offsets[j + 1]
    }

    function Address(base: nat, j: nat): (a: nat)
      requires j < |offsets|
      ensures a < WORD
    {
      (base + start + offsets[j]) % WORD
    }

    /** A row for every listed opcode, in order. */
    function LineRows(base: nat, files: nat, n: nat): (rows: seq<D.Row>)
      requires WellFormed() && n <= |debug|
    {
      if n == 0 then []
      else LineRows(base, files, n - 1)
           + if Listed(files, n - 1) then [D.Row(Place(Address(base, n - 1), File(n - 1) + 1, debug[n - 1].1), false)] else []
    }

    /** And, if there are any, a row that ends the sequence, not before the last one. */
    function Rows(base: nat, files: nat): seq<D.Row>
      requires WellFormed()
    {
      var rows := LineRows(base, files, |debug|);
      if rows == [] then []
      else
        var last, end := rows[|rows| - 1], Address(base, |debug|);
        rows + [D.Row(last.regs.(address := if end > last.regs.address then end else last.regs.address), true)]
    }
  }

  /** The functions that have debug information. */
  function AllRows(base: nat, files: nat, functions: seq<Option<Function>>): seq<D.Row>
    requires forall f <- functions :: f.Some? ==> f.value.WellFormed()
  {
    if functions == [] then []
    else
      var last := functions[|functions| - 1];
      AllRows(base, files, functions[..|functions| - 1]) + if last.Some? then last.value.Rows(base, files) else []
  }

  // ---------------------------------------------------------------- emission

  /** The bytes of one instruction, a field at a time. */
  method WriteOp(out: ByteBuffer, op: LineOp)
    modifies out
    ensures out.data == old(out.data) + Encode(op)
  {
    match op {
      case SetAddress(a) => WriteExtended(out, 9, [2], Little(a, 8));
      case AdvancePc(d) => WriteUnsigned(out, 2, d);
      case SetFile(f) => WriteUnsigned(out, 4, f);
      case AdvanceLine(d) => WriteSigned(out, 3, d);
      case Copy => out.Bytes([1]);
      case EndSequence => WriteExtended(out, 1, [1], []);
    }
  }

  method WriteExtended(out: ByteBuffer, length: nat, opcode: seq<Byte>, operand: seq<Byte>)
    modifies out
    ensures out.data == old(out.data) + ([0] + Uleb(length) + opcode + operand)
  {
    hide Uleb;
    out.Bytes([0]);
    out.AppendUleb(length);
    out.Bytes(opcode);
    out.Bytes(operand);
  }

  method WriteUnsigned(out: ByteBuffer, opcode: Byte, operand: nat)
    modifies out
    ensures out.data == old(out.data) + ([opcode] + Uleb(operand))
  {
    hide Uleb;
    out.Bytes([opcode]);
    out.AppendUleb(operand);
  }

  method WriteSigned(out: ByteBuffer, opcode: Byte, operand: int)
    modifies out
    ensures out.data == old(out.data) + ([opcode] + Sleb(operand))
  {
    hide Sleb;
    out.Bytes([opcode]);
    out.AppendSleb(operand);
  }

  /** Appends instructions to a buffer; the machine that will read them is followed alongside. */
  class LineWriter {
    const out: ByteBuffer
    ghost const prefix: seq<Byte>
    ghost var ops: seq<LineOp>
    ghost var machine: D.Machine

    ghost predicate Valid()
      reads this, out
    {
      out.data == prefix + EncodeAll(ops) && machine == Execute(ops) && forall op <- ops :: Encodable(op)
    }

    constructor (out: ByteBuffer)
      ensures Valid() && this.out == out && prefix == out.data && machine == D.Machine([], Initial)
    {
      this.out, this.prefix, this.ops, this.machine := out, out.data, [], D.Machine([], Initial);
    }

    method Emit(op: LineOp)
      requires Valid() && Encodable(op)
      modifies this, out
      ensures Valid() && machine == Apply(old(machine), op)
    {
      hide Encode, Apply, Encodable;
      WriteOp(out, op);
      assert (ops + [op])[..|ops|] == ops;
      ops, machine := ops + [op], Apply(machine, op);
      assert out.data == prefix + (EncodeAll(old(ops)) + Encode(op));
    }

    /** The inner loop of build_debug_line. */
    method EmitFunction(base: nat, files: nat, f: Function)
      requires Valid() && machine.regs == Initial && f.WellFormed()
      modifies this, out
      ensures Valid() && machine == D.Machine(old(machine).rows + f.Rows(base, files), Initial)
    {
      hide EncodeAll, Execute, f.Address, f.File;
      var previous: nat, file: nat, line, emitted := 0, 0, 1, false;
      ghost var before := machine.rows;
      for j := 0 to |f.debug|
        invariant Valid() && machine.rows == before + f.LineRows(base, files, j)
        invariant emitted == (f.LineRows(base, files, j) != [])
        invariant Tracks(machine, emitted, previous, file, line)
      {
        if f.Listed(files, j) {
          EmitRow(emitted, previous, file, line, f.Address(base, j), f.File(j) + 1, f.debug[j].1);
          previous, file, line, emitted := f.Address(base, j), f.File(j) + 1, f.debug[j].1, true;
        }
      }
      if emitted {
        var end := f.Address(base, |f.debug|);
        if end > previous {
          Emit(AdvancePc(end - previous));
        }
        Emit(EndSequence);
      }
    }

    /** One opcode's instructions: the address, the file and line where they differ, and a row. */
    method EmitRow(emitted: bool, previous: nat, oldFile: nat, oldLine: int, address: nat, file: nat, line: int)
      requires Valid() && Tracks(machine, emitted, previous, oldFile, oldLine) && address < WORD && file > 0
      modifies this, out
      ensures Valid() && machine == D.Machine(old(machine).rows + [D.Row(Place(address, file, line), false)], Place(address, file, line))
    {
      hide EncodeAll, Execute;
      AdvanceReaches(previous, address);
      if !emitted {
        Emit(SetAddress(address));
      } else {
        Emit(AdvancePc((address - previous) % WORD));
      }
      assert machine == old(machine).(regs := old(machine).regs.(address := address));
      if oldFile != file {
        Emit(SetFile(file));
      }
      if oldLine != line {
        Emit(AdvanceLine(line - oldLine));
      }
      assert machine == D.Machine(old(machine).rows, Place(address, file, line));
      Emit(Copy);
    }

    /** The outer loop. */
    method EmitAll(base: nat, files: nat, functions: seq<Option<Function>>)
      requires Valid() && machine == D.Machine([], Initial) && forall f <- functions :: f.Some? ==> f.value.WellFormed()
      modifies this, out
      ensures Valid() && machine == D.Machine(AllRows(base, files, functions), Initial)
    {
      for i := 0 to |functions|
        invariant Valid() && machine == D.Machine(AllRows(base, files, functions[..i]), Initial)
      {
        assert functions[..i + 1][..i] == functions[..i];
        if functions[i].Some? {
          EmitFunction(base, files, functions[i].value);
        }
      }
      assert functions[..|functions|] == functions;
    }
  }

  lemma AdvanceReaches(from: nat, to: nat)
    requires from < WORD && to < WORD
    ensures (from + (to - from) % WORD) % WORD == to && (to >= from ==> (to - from) % WORD == to - from)
  {
  }

  /** What the emitter remembers is what the reader's registers hold, once a row is out and the file is set. */
  ghost predicate Tracks(m: D.Machine, emitted: bool, previous: nat, file: nat, line: int) {
    && previous < WORD
    && (if emitted then
          && m.regs == Place(previous, file, line) && m.rows != [] && file > 0
          && m.rows[|m.rows| - 1] == D.Row(Place(previous, file, line), false)
        else m.regs == Initial && file == 0 && line == 1)
  }

  /** Offsets in order, within the address space. */
  predicate InOrder(f: Function, base: nat) {
    && f.WellFormed() && 0 <= base + f.start
    && (forall j :: 0 <= j < |f.debug| ==> f.offsets[j] <= f.offsets[j + 1])
    && base + f.start + f.offsets[|f.debug|] < WORD
  }

  /** Addresses increase, up to a bound. */
  ghost predicate Ascends(rows: seq<D.Row>, bound: nat) {
    && (forall i, j :: 0 <= i < j < |rows| ==> rows[i].regs.address < rows[j].regs.address)
    && (forall i :: 0 <= i < |rows| ==> rows[i].regs.address < bound)
  }

  /** Addresses of a sequence only increase, as section 6.2.5 of DWARF Version 4 requires, if the offsets are in order. */
  lemma {:induction false} AddressesAscend(f: Function, base: nat, files: nat, n: nat)
    requires InOrder(f, base) && n <= |f.debug|
    ensures Ascends(f.LineRows(base, files, n), f.Address(base, n))
  {
    if n > 0 {
      AddressesAscend(f, base, files, n - 1);
      Ascending(f, base, n - 1);
      if f.Listed(files, n - 1) {
        Ascended(f.LineRows(base, files, n - 1), D.Row(Place(f.Address(base, n - 1), f.File(n - 1) + 1, f.debug[n - 1].1), false), f.Address(base, n));
      } else {
        assert f.LineRows(base, files, n) == f.LineRows(base, files, n - 1);
      }
    }
  }

  lemma Ascended(rows: seq<D.Row>, row: D.Row, bound: nat)
    requires Ascends(rows, row.regs.address) && row.regs.address < bound
    ensures Ascends(rows + [row], bound)
  {
  }

  lemma {:induction false} OffsetsAscend(f: Function, base: nat, i: nat, j: nat)
    requires InOrder(f, base) && i <= j <= |f.debug|
    ensures f.offsets[i] <= f.offsets[j]
    decreases j
  {
    if i < j {
      OffsetsAscend(f, base, i, j - 1);
    }
  }

  lemma Ascending(f: Function, base: nat, j: nat)
    requires InOrder(f, base) && j < |f.debug|
    ensures f.Address(base, j) == base + f.start + f.offsets[j] <= f.Address(base, j + 1) == base + f.start + f.offsets[j + 1]
  {
    OffsetsAscend(f, base, j + 1, |f.debug|);
  }
}
