/**
 Loading a constant into a register: the words emitted, and what they do when executed under the Arm Architecture
 Reference Manual (DDI 0487).
 */
module LoadImmediate {
  import opened Basics
  import opened BitStrings
  import opened LogicalImmediate

  const ZR: nat := 31

  // ---------------------------------------------------------------- instruction words, as sums of their bit fields

  function Flag(b: bool): nat {
    if b then 1 else 0
  }

  /** MOVN, MOVZ and MOVK. */
  function EncodeMove(wide: bool, opc: nat, hw: nat, imm16: nat, rd: nat): nat {
    Flag(wide) * 0x8000_0000 + opc % 4 * 0x2000_0000 + 0x25 * 0x80_0000 + hw % 4 * 0x20_0000 + imm16 % 0x1_0000 * 0x20 + rd % 0x20
  }

  /** Logical operations with an immediate. */
  function EncodeLogicalImmediate(wide: bool, opc: nat, n: bool, immr: nat, imms: nat, rn: nat, rd: nat): nat {
    Flag(wide) * 0x8000_0000 + opc % 4 * 0x2000_0000 + 0x24 * 0x80_0000 + Flag(n) * 0x40_0000
    + immr % 0x40 * 0x1_0000 + imms % 0x40 * 0x400 + rn % 0x20 * 0x20 + rd % 0x20
  }

  /** Logical operations on registers, without shift. */
  function EncodeLogicalRegister(wide: bool, opc: nat, rm: nat, rn: nat, rd: nat): nat {
    Flag(wide) * 0x8000_0000 + opc % 4 * 0x2000_0000 + 0x0A * 0x100_0000 + rm % 0x20 * 0x1_0000 + rn % 0x20 * 0x20 + rd % 0x20
  }

  datatype Instruction =
    | MoveWide(width: nat, opc: nat, hw: nat, imm16: nat, rd: nat)
    | LogicalImm(width: nat, opc: nat, n: bool, immr: nat, imms: nat, rn: nat, rd: nat)
    | LogicalReg(width: nat, opc: nat, rm: nat, rn: nat, rd: nat)
    | Unknown

  function Width(wide: bool): nat {
    if wide then 64 else 32
  }

  /** The instruction classes used here, told apart by bits 28 to 23 (and 28 to 21 for registers, with no shift amount). */
  function Disassemble(word: nat): Instruction {
    var width, opc, rn, rd := Width(word / 0x8000_0000 % 2 == 1), word / 0x2000_0000 % 4, word / 0x20 % 0x20, word % 0x20;
    if word / 0x80_0000 % 0x40 == 0x25 then
      MoveWide(width, opc, word / 0x20_0000 % 4, word / 0x20 % 0x1_0000, rd)
    else if word / 0x80_0000 % 0x40 == 0x24 then
      LogicalImm(width, opc, word / 0x40_0000 % 2 == 1, word / 0x1_0000 % 0x40, word / 0x400 % 0x40, rn, rd)
    else if word / 0x20_0000 % 0x100 == 0x50 && word / 0x400 % 0x40 == 0 then
      LogicalReg(width, opc, word / 0x1_0000 % 0x20, rn, rd)
    else Unknown
  }

  /** A field of a word is read back whatever stands above and below it. */
  lemma FieldAt(word: nat, high: nat, field: nat, low: nat, start: nat, size: nat)
    requires start > 0 && field < size && low < start && word == (high * size + field) * start + low
    ensures word / start % size == field
  {
    DivUnique(word, start, high * size + field, low);
    DivUnique(high * size + field, size, high, field);
  }

  lemma MoveRoundTrip(wide: bool, opc: nat, hw: nat, imm16: nat, rd: nat)
    requires opc < 4 && hw < 4 && imm16 < 0x1_0000 && rd < 0x20
    ensures Disassemble(EncodeMove(wide, opc, hw, imm16, rd)) == MoveWide(Width(wide), opc, hw, imm16, rd)
  {
    var w, sf := EncodeMove(wide, opc, hw, imm16, rd), Flag(wide);
    var top := sf * 4 + opc;
    FieldAt(w, 0, sf, opc * 0x2000_0000 + 0x1280_0000 + hw * 0x20_0000 + imm16 * 0x20 + rd, 0x8000_0000, 2);
    FieldAt(w, sf, opc, 0x1280_0000 + hw * 0x20_0000 + imm16 * 0x20 + rd, 0x2000_0000, 4);
    FieldAt(w, top, 0x25, hw * 0x20_0000 + imm16 * 0x20 + rd, 0x80_0000, 0x40);
    FieldAt(w, top * 0x40 + 0x25, hw, imm16 * 0x20 + rd, 0x20_0000, 4);
    FieldAt(w, (top * 0x40 + 0x25) * 4 + hw, imm16, rd, 0x20, 0x1_0000);
    FieldAt(w, ((top * 0x40 + 0x25) * 4 + hw) * 0x1_0000 + imm16, rd, 0, 1, 0x20);
  }

  /** The fields of bits 31 to 22, and of bits 21 to 0. */
  lemma UpperFields(w: nat, sf: nat, opc: nat, group: nat, n: nat, low: nat)
    requires sf < 2 && opc < 4 && group < 0x40 && n < 2 && low < 0x40_0000
    requires w == sf * 0x8000_0000 + opc * 0x2000_0000 + group * 0x80_0000 + n * 0x40_0000 + low
    ensures w / 0x8000_0000 % 2 == sf && w / 0x2000_0000 % 4 == opc
    ensures w / 0x80_0000 % 0x40 == group && w / 0x40_0000 % 2 == n
  {
    FieldAt(w, 0, sf, opc * 0x2000_0000 + group * 0x80_0000 + n * 0x40_0000 + low, 0x8000_0000, 2);
    FieldAt(w, sf, opc, group * 0x80_0000 + n * 0x40_0000 + low, 0x2000_0000, 4);
    FieldAt(w, sf * 4 + opc, group, n * 0x40_0000 + low, 0x80_0000, 0x40);
    FieldAt(w, (sf * 4 + opc) * 0x40 + group, n, low, 0x40_0000, 2);
  }

  lemma LowerFields(w: nat, high: nat, immr: nat, imms: nat, rn: nat, rd: nat)
    requires immr < 0x40 && imms < 0x40 && rn < 0x20 && rd < 0x20
    requires w == high * 0x40_0000 + immr * 0x1_0000 + imms * 0x400 + rn * 0x20 + rd
    ensures w / 0x1_0000 % 0x40 == immr && w / 0x400 % 0x40 == imms && w / 0x20 % 0x20 == rn && w % 0x20 == rd
  {
    FieldAt(w, high, immr, imms * 0x400 + rn * 0x20 + rd, 0x1_0000, 0x40);
    FieldAt(w, high * 0x40 + immr, imms, rn * 0x20 + rd, 0x400, 0x40);
    FieldAt(w, (high * 0x40 + immr) * 0x40 + imms, rn, rd, 0x20, 0x20);
    FieldAt(w, ((high * 0x40 + immr) * 0x40 + imms) * 0x20 + rn, rd, 0, 1, 0x20);
  }

  lemma LogicalImmediateRoundTrip(wide: bool, opc: nat, n: bool, immr: nat, imms: nat, rn: nat, rd: nat)
    requires opc < 4 && immr < 0x40 && imms < 0x40 && rn < 0x20 && rd < 0x20
    ensures Disassemble(EncodeLogicalImmediate(wide, opc, n, immr, imms, rn, rd)) == LogicalImm(Width(wide), opc, n, immr, imms, rn, rd)
  {
    var w := EncodeLogicalImmediate(wide, opc, n, immr, imms, rn, rd);
    UpperFields(w, Flag(wide), opc, 0x24, Flag(n), immr * 0x1_0000 + imms * 0x400 + rn * 0x20 + rd);
    LowerFields(w, Flag(wide) * 0x200 + opc * 0x80 + 0x48 + Flag(n), immr, imms, rn, rd);
  }

  lemma LogicalRegisterRoundTrip(wide: bool, opc: nat, rm: nat, rn: nat, rd: nat)
    requires opc < 4 && rm < 0x20 && rn < 0x20 && rd < 0x20
    ensures Disassemble(EncodeLogicalRegister(wide, opc, rm, rn, rd)) == LogicalReg(Width(wide), opc, rm, rn, rd)
  {
    var w, high := EncodeLogicalRegister(wide, opc, rm, rn, rd), Flag(wide) * 4 + opc;
    var low := rm * 0x1_0000 + rn * 0x20 + rd;
    UpperFields(w, Flag(wide), opc, 0x14, 0, low);
    LowerFields(w, high * 0x80 + 0x28, rm, 0, rn, rd);
    FieldAt(w, high, 0x50, low, 0x20_0000, 0x100);
    FieldAt(w, high * 0x100 + 0x50, rm, rn * 0x20 + rd, 0x1_0000, 0x20);
  }

  // ---------------------------------------------------------------- their execution

  /** Registers 0 to 30; reading register 31 gives zero. */
  type Registers = seq<Bits>

  predicate Sized(x: Registers) {
    |x| == 31 && forall r <- x :: |r| == 64
  }

  function Read(x: Registers, r: nat, width: nat): (b: Bits)
    requires Sized(x) && r <= 31 && width <= 64
    ensures |b| == width
  {
    if r == 31 then Zeros(width) else x[r][..width]
  }

  /** A write to register 31 is lost (or goes to the stack pointer, which is not modelled); the bits above are cleared. */
  function Write(x: Registers, r: nat, b: Bits): (x': Registers)
    requires Sized(x) && r <= 31 && |b| <= 64
    ensures Sized(x')
  {
    if r == 31 then x else x[r := b + Zeros(64 - |b|)]
  }

  /** Replaces sixteen bits. */
  function Insert(b: Bits, hw: nat, imm: Bits): (c: Bits)
    requires 16 * hw + |imm| <= |b|
    ensures |c| == |b|
  {
    b[..16 * hw] + imm + b[16 * hw + |imm|..]
  }

  function Move(x: Registers, width: nat, opc: nat, hw: nat, imm: Bits, rd: nat): (x': Option<Registers>)
    requires Sized(x) && width <= 64 && |imm| == 16 && rd <= 31
    ensures x'.Some? ==> Sized(x'.value)
  {
    if 16 * hw + 16 > width then None
    else if opc == 0 then Some(Write(x, rd, Not(Insert(Zeros(width), hw, imm))))
    else if opc == 2 then Some(Write(x, rd, Insert(Zeros(width), hw, imm)))
    else if opc == 3 then Some(Write(x, rd, Insert(Read(x, rd, width), hw, imm)))
    else None
  }

  /** ORR with a decoded immediate. */
  function OrImmediate(x: Registers, width: nat, v: Option<Bits>, rn: nat, rd: nat): (x': Option<Registers>)
    requires Sized(x) && width <= 64 && rn <= 31 && rd <= 31
    ensures x'.Some? ==> Sized(x'.value)
  {
    if v.Some? && |v.value| == width then Some(Write(x, rd, Or(Read(x, rn, width), v.value))) else None
  }

  /** One instruction; `None` for a word outside the instructions used here, or unallocated. */
  function Perform(i: Instruction, x: Registers): (x': Option<Registers>)
    requires Sized(x)
    ensures x'.Some? ==> Sized(x'.value)
  {
    match i
    case MoveWide(width, opc, hw, imm16, rd) =>
      if width <= 64 && rd <= 31 then Move(x, width, opc, hw, Low(imm16, 16), rd) else None
    case LogicalImm(width, opc, n, immr, imms, rn, rd) =>
      if width <= 64 && rn <= 31 && rd <= 31 && opc == 1 then
        var f := Fields(n, Low(immr, 6), Low(imms, 6));
        OrImmediate(x, width, if width == 64 then Decode(f) else Decode32(f), rn, rd)
      else None
    case LogicalReg(width, opc, rm, rn, rd) =>
      if width <= 64 && rm <= 31 && rn <= 31 && rd <= 31 && opc == 1 then
        Some(Write(x, rd, Or(Read(x, rn, width), Read(x, rm, width))))
      else None
    case Unknown => None
  }

  function Execute(code: seq<nat>, x: Registers): (x': Option<Registers>)
    requires Sized(x)
    ensures x'.Some? ==> Sized(x'.value)
  {
    if code == [] then Some(x)
    else
      var before := Execute(code[..|code| - 1], x);
      if before.Some? then Perform(Disassemble(code[|code| - 1]), before.value) else None
  }

  // ---------------------------------------------------------------- what the pieces load

  /** Executing the code puts the value in the register, from any state, and changes nothing else. */
  ghost predicate Loads(code: seq<nat>, dst: nat, v: Bits) {
    && dst <= 30 && |v| <= 64
    && forall x: Registers :: Sized(x) ==> Execute(code, x) == Some(Write(x, dst, v))
  }

  lemma OneLoads(word: nat, dst: nat, v: Bits)
    requires dst <= 30 && |v| <= 64
    requires forall x: Registers :: Sized(x) ==> Perform(Disassemble(word), x) == Some(Write(x, dst, v))
    ensures Loads([word], dst, v)
  {
    hide Perform, Disassemble, Write, Sized;
    forall x: Registers | Sized(x) ensures Execute([word], x) == Some(Write(x, dst, v)) {
      assert [word][..0] == [];
      assert Execute([], x) == Some(x);
    }
  }

  lemma {:induction false} LowComplement(u: int, n: nat)
    ensures Low(-1 - u, n) == Not(Low(u, n))
    decreases n
  {
    if n > 0 {
      LowComplement(u / 2, n - 1);
      assert (-1 - u) / 2 == -1 - u / 2 && (-1 - u) % 2 == 1 - u % 2;
      assert Not(Low(u, n)) == [u % 2 != 1] + Not(Low(u / 2, n - 1));
    }
  }

  function Fill(ones: bool, n: nat): (b: Bits)
    ensures |b| == n && forall i :: 0 <= i < n ==> b[i] == ones
  {
    if ones then Ones(n) else Zeros(n)
  }

  lemma LowOfZero(n: nat)
    ensures Low(0, n) == Zeros(n)
  {
    forall i: nat | i < n ensures !Low(0, n)[i] {
      ZeroBits(n, i);
    }
  }

  /** A small number fills the lowest halfword. */
  lemma SmallBits(u: nat, len: nat, width: nat)
    requires u < Pow2(len) && len <= width
    ensures Low(u, width) == Low(u, len) + Zeros(width - len)
  {
    hide Low;
    LowTake(u, width, len);
    forall i: nat | len <= i < width ensures !Low(u, width)[i] {
      LowSmall(u, len, width, i);
    }
    assert Low(u, width) == Low(u, width)[..len] + Zeros(width - len);
  }

  /** MOVZ when not inverted, MOVN when inverted: one halfword, the others filled. */
  lemma FirstMove(width: nat, inverted: bool, hw: nat, imm: Bits, x: Registers, dst: nat)
    requires Sized(x) && width <= 64 && 16 * hw + 16 <= width && |imm| == 16 && dst <= 30
    ensures Move(x, width, if inverted then 0 else 2, hw, if inverted then Not(imm) else imm, dst)
            == Some(Write(x, dst, Insert(Fill(inverted, width), hw, imm)))
  {
    hide Write, Sized;
    if inverted {
      assert Not(Insert(Zeros(width), hw, Not(imm))) == Insert(Ones(width), hw, imm);
    }
  }

  lemma FirstLoads(wide: bool, inverted: bool, hw: nat, imm: nat, dst: nat)
    requires 16 * hw + 16 <= Width(wide) && imm < 0x1_0000 && dst <= 30
    ensures Loads([EncodeMove(wide, if inverted then 0 else 2, hw, if inverted then 0xFFFF - imm else imm, dst)],
                  dst, Insert(Fill(inverted, Width(wide)), hw, Low(imm, 16)))
  {
    hide Disassemble, EncodeMove, Move, Insert, Fill, Low, Write, Sized;
    var field := if inverted then 0xFFFF - imm else imm;
    var word := EncodeMove(wide, if inverted then 0 else 2, hw, field, dst);
    MoveRoundTrip(wide, if inverted then 0 else 2, hw, field, dst);
    HalfwordComplement(imm);
    forall x: Registers | Sized(x)
      ensures Perform(Disassemble(word), x) == Some(Write(x, dst, Insert(Fill(inverted, Width(wide)), hw, Low(imm, 16))))
    {
      FirstMove(Width(wide), inverted, hw, Low(imm, 16), x, dst);
    }
    OneLoads(word, dst, Insert(Fill(inverted, Width(wide)), hw, Low(imm, 16)));
  }

  lemma PowerOf16()
    ensures Pow2(16) == 0x1_0000 && Pow2(32) == 0x1_0000_0000 && Pow2(48) == 0x1_0000_0000_0000
    ensures Pow2(64) == 0x1_0000_0000_0000_0000
  {
    hide Pow2;
    PowerOf8();
    PowerAdds(8, 8);
    PowerAdds(16, 16);
    PowerAdds(16, 32);
    PowerAdds(32, 32);
  }

  lemma PowerOf8()
    ensures Pow2(8) == 256
  {
    assert Pow2(4) == 16;
  }

  lemma {:induction false} PowerAdds(m: nat, n: nat)
    ensures Pow2(m + n) == Pow2(m) * Pow2(n)
    decreases m
  {
    if m > 0 {
      PowerAdds(m - 1, n);
    }
  }

  lemma HalfwordComplement(imm: nat)
    requires imm < 0x1_0000
    ensures Low(0xFFFF - imm, 16) == Not(Low(imm, 16))
  {
    hide Low;
    LowComplement(imm, 16);
    PowerOf16();
    assert (0xFFFF - imm) % 0x1_0000 == (-1 - imm) % 0x1_0000;
    LowAgrees(0xFFFF - imm, -1 - imm, 16);
  }

  /** MOVK keeps the other halfwords. */
  lemma NextLoads(code: seq<nat>, wide: bool, hw: nat, imm: nat, dst: nat, v: Bits)
    requires |v| == Width(wide) && 16 * hw + 16 <= |v| && imm < 0x1_0000 && Loads(code, dst, v)
    ensures Loads(code + [EncodeMove(wide, 3, hw, imm, dst)], dst, Insert(v, hw, Low(imm, 16)))
  {
    hide Disassemble, EncodeMove, Insert, Low, Sized;
    var word := EncodeMove(wide, 3, hw, imm, dst);
    MoveRoundTrip(wide, 3, hw, imm, dst);
    forall x: Registers | Sized(x)
      ensures Execute(code + [word], x) == Some(Write(x, dst, Insert(v, hw, Low(imm, 16))))
    {
      assert (code + [word])[..|code|] == code;
      MoveKeeps(x, wide, hw, Low(imm, 16), dst, v);
    }
  }

  lemma MoveKeeps(x: Registers, wide: bool, hw: nat, imm: Bits, dst: nat, v: Bits)
    requires Sized(x) && |v| == Width(wide) && 16 * hw + 16 <= |v| && |imm| == 16 && dst <= 30
    ensures Move(Write(x, dst, v), |v|, 3, hw, imm, dst) == Some(Write(x, dst, Insert(v, hw, imm)))
  {
    hide Insert;
    assert Read(Write(x, dst, v), dst, |v|) == v;
    assert forall b: Bits :: |b| <= 64 ==> Write(Write(x, dst, v), dst, b) == Write(x, dst, b);
  }

  // ---------------------------------------------------------------- halfword by halfword

  function Halfword(val: int, i: nat): (h: nat)
    ensures h < 0x1_0000
  {
    val / Pow2(16 * i) % 0x1_0000
  }

  /** How many of the first `n` halfwords are something else. */
  function Others(val: int, n: nat, fill: nat): (k: nat)
    ensures k <= n
  {
    if n == 0 then 0 else Others(val, n - 1, fill) + if Halfword(val, n - 1) == fill then 0 else 1
  }

  lemma HalfwordBits(val: int, i: nat, width: nat)
    requires 16 * i + 16 <= width
    ensures Low(val, width)[16 * i..16 * i + 16] == Low(Halfword(val, i), 16)
  {
    hide Low, Pow2;
    var rest := val / Pow2(16 * i);
    LowDrop(val, width, 16 * i);
    LowTake(rest, width - 16 * i, 16);
    assert Low(val, width)[16 * i..16 * i + 16] == Low(val, width)[16 * i..][..16];
    PowerOf16();
    DivUnique(rest % 0x1_0000, 0x1_0000, 0, rest % 0x1_0000);
    LowAgrees(rest, rest % 0x1_0000, 16);
  }

  /** The value with the halfwords from `i` on filled. */
  function Partly(v: Bits, i: nat, inverted: bool): (b: Bits)
    requires 16 * i <= |v|
    ensures |b| == |v|
  {
    v[..16 * i] + Fill(inverted, |v| - 16 * i)
  }

  lemma PartlyInsert(v: Bits, i: nat, inverted: bool, imm: Bits)
    requires 16 * i + 16 <= |v| && |imm| == 16 && imm == v[16 * i..16 * i + 16]
    ensures Insert(Partly(v, i, inverted), i, imm) == Partly(v, i + 1, inverted)
    ensures imm == Fill(inverted, 16) ==> Partly(v, i, inverted) == Partly(v, i + 1, inverted)
  {
    var p, q := Insert(Partly(v, i, inverted), i, imm), Partly(v, i + 1, inverted);
    forall k | 0 <= k < |v| ensures p[k] == q[k] {
    }
    if imm == Fill(inverted, 16) {
      forall k | 0 <= k < |v| ensures Partly(v, i, inverted)[k] == q[k] {
        assert 16 * i <= k < 16 * i + 16 ==> v[k] == imm[k - 16 * i];
      }
    }
  }

  lemma SkippedBits(inverted: bool, h: nat)
    requires h < 0x1_0000
    ensures (h == if inverted then 0xFFFF else 0) <==> Low(h, 16) == Fill(inverted, 16)
  {
    hide Low;
    var skip := if inverted then 0xFFFF else 0;
    LowOfZero(16);
    HalfwordComplement(0);
    assert Not(Zeros(16)) == Ones(16);
    PowerOf16();
    LowAgrees(h, skip, 16);
  }

  lemma DiffersAt(v: Bits, i: nat, inverted: bool)
    requires 16 * i + 16 <= |v| && v[16 * i..16 * i + 16] != Fill(inverted, 16)
    ensures v != Fill(inverted, |v|)
  {
    assert Fill(inverted, |v|)[16 * i..16 * i + 16] == Fill(inverted, 16);
  }

  /**
   The loops over halfwords: MOVZ or MOVN for the first one that differs from the fill, MOVK for the others. Nothing is
   emitted when no halfword differs.
   */
  method EmitHalfwords(val: int, wide: bool, inverted: bool, dst: nat) returns (code: seq<nat>)
    requires dst <= 30
    ensures code == [] <==> Low(val, Width(wide)) == Fill(inverted, Width(wide))
    ensures code != [] ==> Loads(code, dst, Low(val, Width(wide)))
    ensures |code| == Others(val, Width(wide) / 16, if inverted then 0xFFFF else 0)
  {
    hide Low, Loads, Insert, Halfword, Partly, Fill, EncodeMove;
    code := [];
    var width := Width(wide);
    ghost var v := Low(val, width);
    PartlyNothing(v, inverted);
    var i := 0;
    while i < width / 16
      invariant 0 <= i <= width / 16 && width == Width(wide)
      invariant if code == [] then Partly(v, i, inverted) == Fill(inverted, width) else Loads(code, dst, Partly(v, i, inverted))
      invariant code != [] ==> v != Fill(inverted, width)
      invariant |code| == Others(val, i, if inverted then 0xFFFF else 0)
    {
      var h := Halfword(val, i);
      HalfwordBits(val, i, width);
      PartlyInsert(v, i, inverted, Low(h, 16));
      SkippedBits(inverted, h);
      if h == (if inverted then 0xFFFF else 0) {
      } else if code == [] {
        DiffersAt(v, i, inverted);
        FirstLoads(wide, inverted, i, h, dst);
        code := [EncodeMove(wide, if inverted then 0 else 2, i, if inverted then 0xFFFF - h else h, dst)];
      } else {
        NextLoads(code, wide, i, h, dst, Partly(v, i, inverted));
        code := code + [EncodeMove(wide, 3, i, h, dst)];
      }
      i := i + 1;
    }
    PartlyAll(v, inverted);
  }

  lemma PartlyNothing(v: Bits, inverted: bool)
    ensures Partly(v, 0, inverted) == Fill(inverted, |v|)
  {
  }

  lemma PartlyAll(v: Bits, inverted: bool)
    requires |v| == 32 || |v| == 64
    ensures Partly(v, |v| / 16, inverted) == v
  {
  }

  // ---------------------------------------------------------------- the single instructions

  /** ORR of the zero register with itself. */
  lemma ZeroLoads(wide: bool, dst: nat)
    requires dst <= 30
    ensures Loads([EncodeLogicalRegister(wide, 1, ZR, ZR, dst)], dst, Low(0, Width(wide)))
  {
    hide Disassemble, EncodeLogicalRegister, Low, Write, Sized;
    LogicalRegisterRoundTrip(wide, 1, ZR, ZR, dst);
    LowOfZero(Width(wide));
    assert Or(Zeros(Width(wide)), Zeros(Width(wide))) == Zeros(Width(wide));
    OneLoads(EncodeLogicalRegister(wide, 1, ZR, ZR, dst), dst, Low(0, Width(wide)));
  }

  /** A single MOVZ for a small positive number, a single MOVN for a small negative one. */
  lemma SmallLoads(wide: bool, val: int, dst: nat)
    requires -0x1_0000 <= val < 0x1_0000 && dst <= 30
    ensures Loads([EncodeMove(wide, if val < 0 then 0 else 2, 0, if val < 0 then -1 - val else val, dst)], dst, Low(val, Width(wide)))
  {
    hide Loads, EncodeMove, Low;
    var u := if val < 0 then -1 - val else val;
    var width, imm := Width(wide), if val < 0 then 0xFFFF - u else u;
    FirstLoads(wide, val < 0, 0, imm, dst);
    PowerOf16();
    SmallBits(u, 16, width);
    if val < 0 {
      LowComplement(u, width);
      HalfwordComplement(u);
      assert Insert(Ones(width), 0, Not(Low(u, 16))) == Not(Low(u, 16) + Zeros(width - 16));
    } else {
      assert Insert(Zeros(width), 0, Low(u, 16)) == Low(u, 16) + Zeros(width - 16);
    }
  }

  function RecogniseAny(v: Bits): (f: Option<Fields>)
    requires |v| == 32 || |v| == 64
  {
    if |v| == 64 then Recognise(v) else Recognise32(v)
  }

  /** ORR of the zero register with a bitmask immediate. */
  lemma BitmaskLoads(wide: bool, v: Bits, dst: nat)
    requires |v| == Width(wide) && dst <= 30 && RecogniseAny(v).Some?
    ensures v != Zeros(|v|)
    ensures var f := RecogniseAny(v).value;
            Loads([EncodeLogicalImmediate(wide, 1, f.n, Value(f.immr), Value(f.imms), ZR, dst)], dst, v)
  {
    hide Disassemble, EncodeLogicalImmediate, Low, Write, Sized, Recognise, Decode, Decode32, Value;
    NotZero(v);
    var f := RecogniseAny(v).value;
    if wide {
      Sound(v);
    } else {
      Sound32(v);
    }
    SixBits(f.immr);
    SixBits(f.imms);
    LogicalImmediateRoundTrip(wide, 1, f.n, Value(f.immr), Value(f.imms), ZR, dst);
    assert Or(Zeros(|v|), v) == v;
    OneLoads(EncodeLogicalImmediate(wide, 1, f.n, Value(f.immr), Value(f.imms), ZR, dst), dst, v);
  }

  lemma NotZero(v: Bits)
    requires (|v| == 32 || |v| == 64) && RecogniseAny(v).Some?
    ensures v != Zeros(|v|)
  {
  }

  lemma SixBits(b: Bits)
    requires |b| == 6
    ensures Value(b) < 0x40 && Low(Value(b), 6) == b
  {
    hide Value, Low;
    ValueBound(b);
    LowOfValue(b);
    PowersDivide(6);
  }

  // ---------------------------------------------------------------- load_immediate

  predicate FitsInt64(val: int) {
    -0x8000_0000_0000_0000 <= val < 0x8000_0000_0000_0000
  }

  /**
   load_immediate puts the constant, modulo 2^64, in a 64-bit register, whatever it is. In a 32-bit register it puts the
   constant modulo 2^32, except for a constant that is not zero but whose low half is: then it emits nothing. It takes more
   than one instruction only if no ORR will do, and then one for each halfword that is not zero.
   */
  method Load(val: int, dst: nat, wide: bool) returns (code: seq<nat>)
    requires dst <= 30 && FitsInt64(val)
    ensures wide ==> Loads(code, dst, Low(val, 64))
    ensures !wide ==> (Loads(code, dst, Low(val, 32)) <==> val == 0 || val % 0x1_0000_0000 != 0)
    ensures |code| > 1 ==> RecogniseAny(Low(val, Width(wide))).None? && |code| == Others(val, Width(wide) / 16, 0)
  {
    hide Loads, Low, EncodeMove, EncodeLogicalImmediate, EncodeLogicalRegister, RecogniseAny, Halfword, Value;
    LowHalfZero(val, wide);
    if val == 0 {
      ZeroLoads(wide, dst);
      return [EncodeLogicalRegister(wide, 1, ZR, ZR, dst)];
    }
    if (!wide && val == 0xFFFF_FFFF) || (wide && val == -1) {
      SmallLoads(wide, -1, dst);
      return [EncodeMove(wide, 0, 0, 0, dst)];
    }
    if -0x1_0000 <= val < 0 {
      SmallLoads(wide, val, dst);
      return [EncodeMove(wide, 0, 0, -1 - val, dst)];
    }
    if 0 < val <= 0xFFFF {
      SmallLoads(wide, val, dst);
      return [EncodeMove(wide, 2, 0, val, dst)];
    }
    var f := RecogniseAny(Low(val, Width(wide)));
    if f.Some? {
      BitmaskLoads(wide, Low(val, Width(wide)), dst);
      return [EncodeLogicalImmediate(wide, 1, f.value.n, Value(f.value.immr), Value(f.value.imms), ZR, dst)];
    }
    var nonzero, ones := CountHalfwords(val, wide);
    code := EmitHalfwords(val, wide, ones > nonzero, dst);
    if code == [] {
      NothingLoads(dst, Low(val, Width(wide)));
    }
  }

  lemma LowHalfZero(val: int, wide: bool)
    requires FitsInt64(val)
    ensures Low(val, Width(wide)) == Zeros(Width(wide)) <==> if wide then val == 0 else val % 0x1_0000_0000 == 0
    ensures val == 0xFFFF_FFFF ==> Low(val, 32) == Low(-1, 32)
  {
    hide Low, Pow2;
    PowerOf16();
    LowOfZero(Width(wide));
    LowAgrees(val, 0, Width(wide));
    LowAgrees(val, -1, 32);
  }

  /** No code at all loads nothing: a register of ones stays as it is. */
  lemma NothingLoads(dst: nat, v: Bits)
    requires dst <= 30 && 0 < |v| <= 64 && v == Zeros(|v|)
    ensures !Loads([], dst, v)
  {
    var x := seq(31, _ => Ones(64));
    assert Sized(x) && Execute([], x) == Some(x);
    assert x[dst][0] && !Write(x, dst, v)[dst][0];
  }

  /** How many halfwords are not zero, and how many are all ones: never more of the latter. */
  method CountHalfwords(val: int, wide: bool) returns (nonzero: nat, ones: nat)
    ensures nonzero == Others(val, Width(wide) / 16, 0) && ones == Width(wide) / 16 - Others(val, Width(wide) / 16, 0xFFFF)
    ensures ones <= nonzero
  {
    nonzero, ones := 0, 0;
    for i := 0 to Width(wide) / 16
      invariant nonzero == Others(val, i, 0) && ones == i - Others(val, i, 0xFFFF) && ones <= nonzero
    {
      if Halfword(val, i) != 0 {
        nonzero := nonzero + 1;
      }
      if Halfword(val, i) == 0xFFFF {
        ones := ones + 1;
      }
    }
  }

  /** So MOVN with MOVKs is never emitted, not even for a constant that two instructions of these would load instead of four. */
  lemma OnesAreNotUsed()
    ensures Others(-0x1_0002, 4, 0) == 4 && Others(-0x1_0002, 4, 0xFFFF) == 2
  {
    hide Pow2;
    PowerOf16();
    PowerOfNothing();
    assert Halfword(-0x1_0002, 0) == 0xFFFE && Halfword(-0x1_0002, 1) == 0xFFFE;
    assert Halfword(-0x1_0002, 2) == 0xFFFF && Halfword(-0x1_0002, 3) == 0xFFFF;
    hide Halfword;
    CountsFour(-0x1_0002, 0);
    CountsFour(-0x1_0002, 0xFFFF);
  }

  lemma PowerOfNothing()
    ensures Pow2(0) == 1
  {
  }

  lemma CountsFour(val: int, fill: nat)
    ensures Others(val, 4, fill) == (if Halfword(val, 0) == fill then 0 else 1) + (if Halfword(val, 1) == fill then 0 else 1)
                                    + (if Halfword(val, 2) == fill then 0 else 1) + (if Halfword(val, 3) == fill then 0 else 1)
  {
    hide Halfword;
    assert Others(val, 1, fill) == if Halfword(val, 0) == fill then 0 else 1;
    assert Others(val, 2, fill) == Others(val, 1, fill) + if Halfword(val, 1) == fill then 0 else 1;
  }
}
