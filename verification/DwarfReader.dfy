/**
 A reader of line-number units that knows nothing about who wrote them: it follows section 6.2 of DWARF Version 4, takes
 every parameter from the header it reads, and has the standard's opcodes written out.
 */
module DwarfReader {
  import opened Basics
  import opened Leb128

  type Name = seq<Byte>

  const ADDRESSES: nat := 0x1_0000_0000_0000_0000

  /** The fields of section 6.2.4 that the program depends on; `operands` are the standard opcodes' operand counts. */
  datatype Header = Header(minLength: nat, maxOps: nat, stmt: bool, lineBase: int, lineRange: nat, opcodeBase: nat,
                           operands: seq<Byte>)
  {
    predicate Usable() {
      maxOps > 0 && lineRange > 0 && opcodeBase == |operands| + 1
    }
  }

  /** The registers of section 6.2.2. */
  datatype Regs = Regs(address: nat, opIndex: nat, file: nat, line: int, column: nat, stmt: bool, basicBlock: bool,
                       prologueEnd: bool, epilogueBegin: bool, isa: nat, discriminator: nat)

  datatype Row = Row(regs: Regs, end: bool)

  /** The rows made so far, and the registers. */
  datatype Machine = Machine(rows: seq<Row>, regs: Regs)

  datatype Inst =
    | Special(adjusted: nat)
    | Copy
    | AdvancePc(advance: nat)
    | AdvanceLine(delta: int)
    | SetFile(file: nat)
    | SetColumn(column: nat)
    | NegateStmt
    | SetBasicBlock
    | ConstAddPc
    | FixedAdvancePc(bytes: nat)
    | SetPrologueEnd
    | SetEpilogueBegin
    | SetIsa(isa: nat)
    | EndSequence
    | SetAddress(address: nat)
    | SetDiscriminator(discriminator: nat)
    | Unknown

  // ---------------------------------------------------------------- the state machine

  function Initial(h: Header): Regs {
    Regs(0, 0, 1, 1, 0, h.stmt, false, false, false, 0, 0)
  }

  /** An operation advance, as in section 6.2.5.1. */
  function Advance(h: Header, r: Regs, advance: nat): Regs
    requires h.Usable()
  {
    r.(address := (r.address + h.minLength * ((r.opIndex + advance) / h.maxOps)) % ADDRESSES,
       opIndex := (r.opIndex + advance) % h.maxOps)
  }

  function AppendRow(m: Machine): Machine {
    Machine(m.rows + [Row(m.regs, false)],
            m.regs.(basicBlock := false, prologueEnd := false, epilogueBegin := false, discriminator := 0))
  }

  function Apply(h: Header, m: Machine, inst: Inst): Machine
    requires h.Usable()
  {
    var r := m.regs;
    match inst
    case Special(adjusted) =>
      var a := Advance(h, r, adjusted / h.lineRange);
      AppendRow(m.(regs := a.(line := a.line + h.lineBase + adjusted % h.lineRange)))
    case Copy => AppendRow(m)
    case AdvancePc(advance) => m.(regs := Advance(h, r, advance))
    case AdvanceLine(delta) => m.(regs := r.(line := r.line + delta))
    case SetFile(file) => m.(regs := r.(file := file))
    case SetColumn(column) => m.(regs := r.(column := column))
    case NegateStmt => m.(regs := r.(stmt := !r.stmt))
    case SetBasicBlock => m.(regs := r.(basicBlock := true))
    case ConstAddPc => m.(regs := Advance(h, r, if h.opcodeBase <= 255 then (255 - h.opcodeBase) / h.lineRange else 0))
    case FixedAdvancePc(bytes) => m.(regs := r.(address := (r.address + bytes) % ADDRESSES, opIndex := 0))
    case SetPrologueEnd => m.(regs := r.(prologueEnd := true))
    case SetEpilogueBegin => m.(regs := r.(epilogueBegin := true))
    case SetIsa(isa) => m.(regs := r.(isa := isa))
    case EndSequence => Machine(m.rows + [Row(r, true)], Initial(h))
    case SetAddress(address) => m.(regs := r.(address := address, opIndex := 0))
    case SetDiscriminator(d) => m.(regs := r.(discriminator := d))
    case Unknown => m
  }

  // ---------------------------------------------------------------- the instructions

  /** Section 6.2.5.3: zero, the length of opcode and operands, the opcode. Addresses have eight bytes. */
  function ReadExtended(bytes: seq<Byte>): (p: Option<Parsed<Inst>>)
    ensures p.Some? ==> |p.value.rest| < |bytes|
  {
    var length := ReadUleb(bytes);
    if length.None? || length.value.value == 0 || length.value.value > |length.value.rest| then None
    else
      var n, body := length.value.value, length.value.rest;
      var operand, rest := body[1..n], body[n..];
      match body[0]
      case 1 => if n == 1 then Some(Parsed(EndSequence, rest)) else None
      case 2 => if n == 9 then Some(Parsed(SetAddress(ReadLittle(operand)), rest)) else None
      case 3 => None
      case 4 =>
        var d := ReadUleb(operand);
        if d.None? then None else Some(Parsed(SetDiscriminator(d.value.value), rest))
      case _ => Some(Parsed(Unknown, rest))
  }

  /** The operand counts of section 6.2.5.2. */
  const STANDARD_OPERANDS: seq<Byte> := [0, 1, 1, 1, 1, 0, 0, 0, 1, 0, 0, 1]

  function WithUleb(bytes: seq<Byte>, make: nat -> Inst): (p: Option<Parsed<Inst>>)
    ensures p.Some? ==> |p.value.rest| < |bytes|
  {
    var v := ReadUleb(bytes);
    if v.None? then None else Some(Parsed(make(v.value.value), v.value.rest))
  }

  /** Section 6.2.5.2. */
  function ReadStandard(opcode: Byte, rest: seq<Byte>): (p: Option<Parsed<Inst>>)
    ensures p.Some? ==> |p.value.rest| <= |rest|
  {
    match opcode
    case 1 => Some(Parsed(Copy, rest))
    case 2 => WithUleb(rest, (v: nat) => AdvancePc(v))
    case 3 =>
      var v := ReadSleb(rest);
      if v.None? then None else Some(Parsed(AdvanceLine(v.value.value), v.value.rest))
    case 4 => WithUleb(rest, (v: nat) => SetFile(v))
    case 5 => WithUleb(rest, (v: nat) => SetColumn(v))
    case 6 => Some(Parsed(NegateStmt, rest))
    case 7 => Some(Parsed(SetBasicBlock, rest))
    case 8 => Some(Parsed(ConstAddPc, rest))
    case 9 => if |rest| < 2 then None else Some(Parsed(FixedAdvancePc(ReadLittle(rest[..2])), rest[2..]))
    case 10 => Some(Parsed(SetPrologueEnd, rest))
    case 11 => Some(Parsed(SetEpilogueBegin, rest))
    case 12 => WithUleb(rest, (v: nat) => SetIsa(v))
    case _ => None
  }

  /** Reads over `n` operands. */
  function Skip(bytes: seq<Byte>, n: nat): (rest: Option<seq<Byte>>)
    ensures rest.Some? ==> |rest.value| <= |bytes|
    decreases n
  {
    if n == 0 then Some(bytes)
    else
      var v := ReadUleb(bytes);
      if v.None? then None else Skip(v.value.rest, n - 1)
  }

  /** An opcode from `opcodeBase` on is special; a standard one whose operand count is not the standard's is skipped. */
  function ReadInst(h: Header, bytes: seq<Byte>): (p: Option<Parsed<Inst>>)
    requires h.Usable()
    ensures p.Some? ==> |p.value.rest| < |bytes|
  {
    if bytes == [] then None
    else if bytes[0] == 0 then ReadExtended(bytes[1..])
    else if bytes[0] >= h.opcodeBase then Some(Parsed(Special(bytes[0] - h.opcodeBase), bytes[1..]))
    else if bytes[0] <= 12 && h.operands[bytes[0] - 1] == STANDARD_OPERANDS[bytes[0] - 1] then ReadStandard(bytes[0], bytes[1..])
    else
      var rest := Skip(bytes[1..], h.operands[bytes[0] - 1]);
      if rest.None? then None else Some(Parsed(Unknown, rest.value))
  }

  function RunProgram(h: Header, m: Machine, bytes: seq<Byte>): (r: Option<Machine>)
    requires h.Usable()
    decreases |bytes|
  {
    if bytes == [] then Some(m)
    else
      var inst := ReadInst(h, bytes);
      if inst.None? then None else RunProgram(h, Apply(h, m, inst.value.value), inst.value.rest)
  }

  // ---------------------------------------------------------------- the header

  /** A name ends at its first zero. */
  function ReadName(bytes: seq<Byte>): (p: Option<Parsed<Name>>)
    ensures p.Some? ==> |p.value.rest| < |bytes|
  {
    if bytes == [] then None
    else if bytes[0] == 0 then Some(Parsed([], bytes[1..]))
    else
      var tail := ReadName(bytes[1..]);
      if tail.None? then None else Some(Parsed([bytes[0]] + tail.value.value, tail.value.rest))
  }

  /** Directories, up to an empty one. */
  function ReadDirs(bytes: seq<Byte>): (p: Option<Parsed<seq<Name>>>)
    decreases |bytes|
  {
    var name := ReadName(bytes);
    if name.None? then None
    else if name.value.value == [] then Some(Parsed([], name.value.rest))
    else
      var others := ReadDirs(name.value.rest);
      if others.None? then None else Some(Parsed([name.value.value] + others.value.value, others.value.rest))
  }

  /** One entry; the numbers of its directory, its time and its length are read over. */
  function ReadFile(bytes: seq<Byte>): (p: Option<Parsed<Name>>)
    ensures p.Some? ==> |p.value.rest| < |bytes|
  {
    var name := ReadName(bytes);
    if name.None? then None
    else
      var rest := Skip(name.value.rest, 3);
      if rest.None? then None else Some(Parsed(name.value.value, rest.value))
  }

  /** Files, up to an empty name. */
  function ReadFiles(bytes: seq<Byte>): (p: Option<Parsed<seq<Name>>>)
    decreases |bytes|
  {
    if bytes == [] then None
    else if bytes[0] == 0 then Some(Parsed([], bytes[1..]))
    else
      var first := ReadFile(bytes);
      if first.None? then None
      else
        var others := ReadFiles(first.value.rest);
        if others.None? then None else Some(Parsed([first.value.value] + others.value.value, others.value.rest))
  }

  function Signed(b: Byte): int {
    if b < 128 then b else b as int - 256
  }

  /** The parameters of section 6.2.4, from the minimum instruction length to the operand counts. */
  function ReadHeader(bytes: seq<Byte>): (p: Option<Parsed<Header>>)
    ensures p.Some? ==> p.value.value.Usable()
  {
    if |bytes| < 6 || bytes[1] == 0 || bytes[4] == 0 || bytes[5] == 0 then None
    else
      var end: nat := 5 + bytes[5] as int;
      if |bytes| < end then None
      else
        Some(Parsed(Header(bytes[0], bytes[1], bytes[2] != 0, Signed(bytes[3]), bytes[4], bytes[5], bytes[6..end]), bytes[end..]))
  }

  datatype Unit = Unit(files: seq<Name>, rows: seq<Row>)

  /** Follows the unit's length and the header's length to the file table and the program, and runs the program. */
  function ReadUnit(u: seq<Byte>): (r: Option<Unit>) {
    if |u| < 10 then None
    else
      var end, start := 4 + ReadLittle(u[..4]), 10 + ReadLittle(u[6..10]);
      if ReadLittle(u[4..6]) != 4 || end > |u| || start > end then None
      else
        var header := ReadHeader(u[10..start]);
        if header.None? then None
        else
          var h := header.value.value;
          var dirs := ReadDirs(header.value.rest);
          if dirs.None? then None
          else
            var files, machine := ReadFiles(dirs.value.rest), RunProgram(h, Machine([], Initial(h)), u[start..end]);
            if files.None? || files.value.rest != [] || machine.None? then None
            else Some(Unit(files.value.value, machine.value.rows))
  }
}
