/**
 The whole line-number unit: a header with a file table around the line-number program, with lengths filled in
 afterwards, as a reader of DWARF Version 4 finds it.
 */
module LineTable {
  import opened Basics
  import opened Leb128
  import opened LineProgram
  import D = DwarfReader

  // ---------------------------------------------------------------- the file table

  /** A name, then the directory, the time and the length, which are not given. */
  function EncodeFile(name: D.Name): (bytes: seq<Byte>) {
    name + [0] + Uleb(0) + Uleb(0) + Uleb(0)
  }

  function EncodeFiles(names: seq<D.Name>): seq<Byte> {
    if names == [] then [] else EncodeFiles(names[..|names| - 1]) + EncodeFile(names[|names| - 1])
  }

  /** A name the table can hold: not empty, and without a zero. */
  predicate Proper(name: D.Name) {
    name != [] && forall b <- name :: b != 0
  }

  lemma {:induction false} NameRoundTrip(name: D.Name, rest: seq<Byte>)
    requires forall b <- name :: b != 0
    ensures D.ReadName(name + [0] + rest) == Some(Parsed(name, rest))
  {
    var bytes := name + [0] + rest;
    if name != [] {
      assert forall b <- name[1..] :: b in name;
      NameRoundTrip(name[1..], rest);
      assert bytes[1..] == name[1..] + [0] + rest;
      assert bytes[0] == name[0] && name[0] in name && name == [name[0]] + name[1..];
    } else {
      assert bytes[1..] == rest;
    }
  }

  lemma FileRoundTrip(name: D.Name, rest: seq<Byte>)
    requires Proper(name)
    ensures D.ReadFile(EncodeFile(name) + rest) == Some(Parsed(name, rest))
    ensures (EncodeFile(name) + rest)[0] != 0
  {
    hide D.ReadName, ReadUleb, Uleb;
    var z := Uleb(0);
    NameRoundTrip(name, z + (z + (z + rest)));
    UlebRoundTrip(0, z + (z + rest));
    UlebRoundTrip(0, z + rest);
    UlebRoundTrip(0, rest);
    assert EncodeFile(name) + rest == name + [0] + (z + (z + (z + rest)));
    assert name[0] in name;
  }

  lemma {:induction false} FilesRoundTrip(names: seq<D.Name>, rest: seq<Byte>)
    requires forall n <- names :: Proper(n)
    ensures D.ReadFiles(EncodeFiles(names) + [0] + rest) == Some(Parsed(names, rest))
    decreases |names|
  {
    hide D.ReadFile, EncodeFile;
    var bytes := EncodeFiles(names) + [0] + rest;
    if names == [] {
      assert bytes[1..] == rest;
    } else {
      var tail := EncodeFiles(names[1..]) + [0] + rest;
      FilesRoundTrip(names[1..], rest);
      FilesFirst(names);
      FileRoundTrip(names[0], tail);
      assert bytes == EncodeFile(names[0]) + tail;
      assert names == [names[0]] + names[1..];
    }
  }

  lemma {:induction false} NamesReadHaveNoZero(bytes: seq<Byte>)
    ensures D.ReadName(bytes).Some? ==> forall b <- D.ReadName(bytes).value.value :: b != 0
  {
    if bytes != [] && bytes[0] != 0 {
      NamesReadHaveNoZero(bytes[1..]);
    }
  }

  /** No table of files can hold other names. */
  lemma {:induction false} FilesReadAreProper(bytes: seq<Byte>)
    ensures D.ReadFiles(bytes).Some? ==> forall n <- D.ReadFiles(bytes).value.value :: Proper(n)
    decreases |bytes|
  {
    hide ReadUleb;
    if bytes != [] && bytes[0] != 0 && D.ReadFile(bytes).Some? {
      NamesReadHaveNoZero(bytes);
      FilesReadAreProper(D.ReadFile(bytes).value.rest);
      assert Proper(D.ReadFile(bytes).value.value);
    }
  }

  lemma {:induction false} FilesFirst(names: seq<D.Name>)
    requires names != []
    ensures EncodeFiles(names) == EncodeFile(names[0]) + EncodeFiles(names[1..])
    decreases |names|
  {
    hide EncodeFile;
    if |names| > 1 {
      var init := names[..|names| - 1];
      FilesFirst(init);
      assert names[1..][..|names| - 2] == init[1..];
    }
  }

  // ---------------------------------------------------------------- the unit

  /** Parameters, operand counts of the standard opcodes, and no include directories. */
  const FIXED: seq<Byte> := [1, 1, 1, 251, 14, 13] + OPCODE_LENGTHS + [0]

  const OPCODE_LENGTHS: seq<Byte> := [0, 1, 1, 1, 1, 0, 0, 0, 1, 0, 0, 1]

  /** What the header length counts. */
  function Table(names: seq<D.Name>): seq<Byte> {
    FIXED + EncodeFiles(names) + [0]
  }

  /** The bytes of a unit whose two lengths are given. */
  function UnitBytes(unit: nat, header: nat, names: seq<D.Name>, program: seq<Byte>): seq<Byte> {
    Little(unit, 4) + Little(4, 2) + Little(header, 4) + Table(names) + program
  }

  lemma FourBytes()
    ensures Pow256(4) == 0x1_0000_0000 && Pow256(2) == 0x1_0000
  {
  }

  lemma UnitSlices(unit: nat, header: nat, table: seq<Byte>, program: seq<Byte>)
    requires |table| == header
    ensures var u := Little(unit, 4) + Little(4, 2) + Little(header, 4) + table + program;
            && |u| == 10 + header + |program|
            && u[..4] == Little(unit, 4) && u[4..6] == Little(4, 2) && u[6..10] == Little(header, 4)
            && u[10..10 + header] == table && u[10 + header..] == program
  {
    hide Little;
  }

  /** A reader takes from the header written the parameters that the program was written for. */
  lemma HeaderRoundTrip(rest: seq<Byte>)
    ensures D.ReadHeader(FIXED + rest) == Some(Parsed(HEADER, [0] + rest))
    ensures D.ReadDirs([0] + rest) == Some(Parsed([], rest))
  {
    var bytes := FIXED + rest;
    assert FIXED == [1, 1, 1, 251, 14, 13, 0, 1, 1, 1, 1, 0, 0, 0, 1, 0, 0, 1, 0];
    assert bytes[6..18] == OPCODE_LENGTHS && bytes[18..] == [0] + rest;
  }

  lemma UnitRoundTrip(names: seq<D.Name>, ops: seq<LineOp>)
    requires (forall n <- names :: Proper(n)) && forall op <- ops :: Encodable(op)
    ensures var header := |Table(names)|;
            var unit := 6 + header + |EncodeAll(ops)|;
            unit < 0x1_0000_0000 ==>
              D.ReadUnit(UnitBytes(unit, header, names, EncodeAll(ops))) == Some(D.Unit(names, Execute(ops).rows))
  {
    hide Little, ReadLittle, Pow256, D.ReadFiles, D.ReadDirs, D.ReadHeader, D.RunProgram, EncodeFiles, EncodeAll, Execute;
    var files, program := EncodeFiles(names), EncodeAll(ops);
    var table := Table(names);
    var header := |table|;
    var unit := 6 + header + |program|;
    if unit < 0x1_0000_0000 {
      UnitSlices(unit, header, table, program);
      FourBytes();
      LittleRoundTrip(unit, 4);
      LittleRoundTrip(header, 4);
      LittleRoundTrip(4, 2);
      assert table == FIXED + (files + [0]) && files + [0] == files + [0] + [];
      HeaderRoundTrip(files + [0]);
      FilesRoundTrip(names, []);
      ProgramRoundTrip(ops);
      var u := UnitBytes(unit, header, names, program);
      assert u[10 + header..4 + unit] == program;
    }
  }

  /** build_debug_line: what a reader finds in the unit is the file table and the rows of all functions. */
  method Build(base: nat, names: seq<D.Name>, functions: seq<Option<Function>>) returns (out: ByteBuffer)
    requires forall f <- functions :: f.Some? ==> f.value.WellFormed()
    ensures names == [] ==> out.data == []
    ensures names != [] && |out.data| < 0x1_0000_0000 ==>
              (D.ReadUnit(out.data) == Some(D.Unit(names, AllRows(base, |names|, functions))) <==> forall n <- names :: Proper(n))
  {
    hide Little, Table, EncodeAll, Execute, D.ReadUnit;
    out := new ByteBuffer();
    if names == [] {
      return;
    }
    WriteHeader(out, names);
    ghost var header := |out.data| - 10;
    var writer := new LineWriter(out);
    writer.EmitAll(base, |names|, functions);
    FillUnitLength(out, header, names, EncodeAll(writer.ops));
    if forall n <- names :: Proper(n) {
      UnitRoundTrip(names, writer.ops);
    }
    UnitReadIsProper(out.data);
  }

  lemma UnitReadIsProper(u: seq<Byte>)
    ensures D.ReadUnit(u).Some? ==> forall n <- D.ReadUnit(u).value.files :: Proper(n)
  {
    hide ReadLittle, D.ReadFiles, D.ReadDirs, D.ReadHeader, D.RunProgram;
    if D.ReadUnit(u).Some? {
      var header := D.ReadHeader(u[10..10 + ReadLittle(u[6..10])]);
      FilesReadAreProper(D.ReadDirs(header.value.rest).value.rest);
    }
  }

  method WriteHeader(out: ByteBuffer, names: seq<D.Name>)
    requires out.data == []
    modifies out
    ensures |out.data| == 10 + |Table(names)|
    ensures out.data == UnitBytes(0, |Table(names)| % 0x1_0000_0000, names, [])
  {
    hide Little, Table;
    out.Bytes(Little(0, 4) + Little(4, 2) + Little(0, 4));
    WriteTable(out, names);
    var header := |out.data| - 10;
    PatchMiddle(Little(0, 4) + Little(4, 2), Little(0, 4), Little(header % 0x1_0000_0000, 4), Table(names));
    out.Patch(6, Little(header % 0x1_0000_0000, 4));
  }

  method WriteTable(out: ByteBuffer, names: seq<D.Name>)
    modifies out
    ensures out.data == old(out.data) + Table(names)
  {
    hide EncodeFiles;
    out.Bytes(FIXED);
    WriteFiles(out, names);
    out.Bytes([0]);
  }

  method FillUnitLength(out: ByteBuffer, ghost header: nat, ghost names: seq<D.Name>, ghost program: seq<Byte>)
    requires out.data == UnitBytes(0, header % 0x1_0000_0000, names, []) + program
    modifies out
    ensures |out.data| == |old(out.data)| == 10 + |Table(names)| + |program|
    ensures out.data == UnitBytes((|out.data| - 4) % 0x1_0000_0000, header % 0x1_0000_0000, names, program)
  {
    hide Little, Table;
    var unit := |out.data| - 4;
    ghost var tail := Little(4, 2) + Little(header % 0x1_0000_0000, 4) + Table(names) + program;
    assert out.data == [] + Little(0, 4) + tail;
    PatchMiddle([], Little(0, 4), Little(unit % 0x1_0000_0000, 4), tail);
    out.Patch(0, Little(unit % 0x1_0000_0000, 4));
  }

  lemma PatchMiddle(a: seq<Byte>, b: seq<Byte>, c: seq<Byte>, d: seq<Byte>)
    requires |b| == |c|
    ensures (a + b + d)[..|a|] + c + (a + b + d)[|a| + |c|..] == a + c + d
  {
  }

  method WriteFiles(out: ByteBuffer, names: seq<D.Name>)
    modifies out
    ensures out.data == old(out.data) + EncodeFiles(names)
  {
    hide Uleb;
    for i := 0 to |names|
      invariant out.data == old(out.data) + EncodeFiles(names[..i])
    {
      ghost var before := out.data;
      out.Bytes(names[i] + [0]);
      out.AppendUleb(0);
      out.AppendUleb(0);
      out.AppendUleb(0);
      assert out.data == before + EncodeFile(names[i]);
      assert names[..i + 1][..i] == names[..i];
    }
    assert names[..|names|] == names;
  }
}
