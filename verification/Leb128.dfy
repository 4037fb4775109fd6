/**
 Bytes and the variable-length integers of section 7.6 of DWARF Version 4, with the byte buffer they are written to.
 */
module Leb128 {
  import opened Basics

  type Byte = b: int | 0 <= b < 256

  /** A value read from the front of some bytes, and the bytes after it. */
  datatype Parsed<T> = Parsed(value: T, rest: seq<Byte>)

  // ---------------------------------------------------------------- unsigned

  function Uleb(v: nat): (bytes: seq<Byte>) {
    if v < 128 then [v] else [v % 128 + 128] + Uleb(v / 128)
  }

  function ReadUleb(bytes: seq<Byte>): (p: Option<Parsed<nat>>)
    ensures p.Some? ==> |p.value.rest| < |bytes|
  {
    if bytes == [] then None
    else if bytes[0] < 128 then Some(Parsed(bytes[0], bytes[1..]))
    else
      var high := ReadUleb(bytes[1..]);
      if high.None? then None else Some(Parsed(bytes[0] - 128 + 128 * high.value.value, high.value.rest))
  }

  lemma UlebStep(v: nat)
    ensures Uleb(v) == if v / 128 == 0 then [v % 128] else [v % 128 + 128] + Uleb(v / 128)
  {
  }

  lemma {:induction false} UlebRoundTrip(v: nat, rest: seq<Byte>)
    ensures ReadUleb(Uleb(v) + rest) == Some(Parsed(v, rest))
    decreases v
  {
    var bytes := Uleb(v) + rest;
    if v >= 128 {
      UlebRoundTrip(v / 128, rest);
      assert bytes[1..] == Uleb(v / 128) + rest;
    } else {
      assert bytes[1..] == rest;
    }
  }

  /** No other bytes for the number are shorter. */
  lemma {:induction false} UlebShortest(v: nat, bytes: seq<Byte>)
    requires ReadUleb(bytes).Some? && ReadUleb(bytes).value == Parsed(v, [])
    ensures |Uleb(v)| <= |bytes|
    decreases v
  {
    if v >= 128 {
      var high := ReadUleb(bytes[1..]);
      UlebShortest(high.value.value, bytes[1..]);
      assert v / 128 == high.value.value;
    }
  }

  // ---------------------------------------------------------------- signed

  function Abs(v: int): nat {
    if v < 0 then -v else v
  }

  /** Whether one byte holds the value: the rest of it is a copy of the byte's sign bit. */
  predicate OneByte(v: int) {
    (v / 128 == 0 && v % 128 < 64) || (v / 128 == -1 && v % 128 >= 64)
  }

  function Sleb(v: int): (bytes: seq<Byte>)
    decreases Abs(v)
  {
    if OneByte(v) then [v % 128] else [v % 128 + 128] + Sleb(v / 128)
  }

  /** The sign bit of the last byte is extended. */
  function ReadSleb(bytes: seq<Byte>): (p: Option<Parsed<int>>)
    ensures p.Some? ==> |p.value.rest| < |bytes|
  {
    if bytes == [] then None
    else if bytes[0] < 64 then Some(Parsed(bytes[0], bytes[1..]))
    else if bytes[0] < 128 then
      var negative: int := bytes[0] as int - 128;
      Some(Parsed(negative, bytes[1..]))
    else
      var high := ReadSleb(bytes[1..]);
      if high.None? then None else Some(Parsed(bytes[0] - 128 + 128 * high.value.value, high.value.rest))
  }

  lemma {:induction false} SlebRoundTrip(v: int, rest: seq<Byte>)
    ensures ReadSleb(Sleb(v) + rest) == Some(Parsed(v, rest))
    decreases Abs(v)
  {
    var bytes := Sleb(v) + rest;
    if OneByte(v) {
      assert bytes[1..] == rest;
    } else {
      SlebRoundTrip(v / 128, rest);
      assert bytes[1..] == Sleb(v / 128) + rest;
    }
  }

  /** No other bytes for the number are shorter. */
  lemma {:induction false} SlebShortest(v: int, bytes: seq<Byte>)
    requires ReadSleb(bytes).Some? && ReadSleb(bytes).value == Parsed(v, [])
    ensures |Sleb(v)| <= |bytes|
    decreases Abs(v)
  {
    if !OneByte(v) {
      var high := ReadSleb(bytes[1..]);
      SlebShortest(high.value.value, bytes[1..]);
      assert v / 128 == high.value.value;
    }
  }

  // ---------------------------------------------------------------- fixed size, little endian

  function Pow256(n: nat): (p: nat)
    ensures p > 0
  {
    if n == 0 then 1 else 256 * Pow256(n - 1)
  }

  function Little(v: nat, n: nat): (bytes: seq<Byte>)
    ensures |bytes| == n
    decreases n
  {
    if n == 0 then [] else [v % 256] + Little(v / 256, n - 1)
  }

  function ReadLittle(bytes: seq<Byte>): nat {
    if bytes == [] then 0 else bytes[0] + 256 * ReadLittle(bytes[1..])
  }

  lemma {:induction false} LittleRoundTrip(v: nat, n: nat)
    requires v < Pow256(n)
    ensures ReadLittle(Little(v, n)) == v
    decreases n
  {
    if n > 0 {
      LittleRoundTrip(v / 256, n - 1);
    }
  }

  // ---------------------------------------------------------------- the buffer

  class ByteBuffer {
    var data: seq<Byte>

    constructor ()
      ensures data == []
    {
      data := [];
    }

    method Bytes(bytes: seq<Byte>)
      modifies this
      ensures data == old(data) + bytes
    {
      data := data + bytes;
    }

    /** buffer_uleb. */
    method AppendUleb(value: nat)
      modifies this
      ensures data == old(data) + Uleb(value)
    {
      hide Uleb;
      var rest, more := value, true;
      while more
        invariant data + (if more then Uleb(rest) else []) == old(data) + Uleb(value)
        decreases more, rest
      {
        ghost var before, left := data, rest;
        UlebStep(rest);
        var low: int := rest % 128;
        rest := rest / 128;
        more := rest != 0;
        Bytes([if more then low + 128 else low]);
        assert before + Uleb(left) == data + if more then Uleb(rest) else [];
      }
    }

    /** buffer_sleb. */
    method AppendSleb(value: int)
      modifies this
      ensures data == old(data) + Sleb(value)
    {
      var rest, more := value, true;
      while more
        invariant data + (if more then Sleb(rest) else []) == old(data) + Sleb(value)
        decreases more, Abs(rest)
      {
        ghost var before, left := data, rest;
        var low := rest % 128;
        var sign := low >= 64;
        rest := rest / 128;
        more := !((rest == 0 && !sign) || (rest == -1 && sign));
        Bytes([if more then low + 128 else low]);
        assert before + Sleb(left) == data + if more then Sleb(rest) else [];
      }
    }

    /** Writes over what was reserved. */
    method Patch(at: nat, bytes: seq<Byte>)
      requires at + |bytes| <= |data|
      modifies this
      ensures data == old(data)[..at] + bytes + old(data)[at + |bytes|..]
    {
      data := data[..at] + bytes + data[at + |bytes|..];
    }
  }
}
