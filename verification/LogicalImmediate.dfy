/**
 Recognising bitmask immediates of the A64 instruction set: the fast test on counts of leading and trailing bits against
 the definition of DecodeBitMasks in the Arm Architecture Reference Manual (DDI 0487).
 */
module LogicalImmediate {
  import opened Basics
  import opened BitStrings

  /** The three fields of the encoding; immr and imms have six bits. */
  datatype Fields = Fields(n: bool, immr: Bits, imms: Bits)

  // ---------------------------------------------------------------- the architecture's definition

  function Rotate(a: Bits, k: nat): (c: Bits)
    requires k <= |a|
    ensures |c| == |a|
  {
    a[k..] + a[..k]
  }

  function Wrap(n: int, i: int): int {
    if i < n then i else i - n
  }

  lemma RotateAt(a: Bits, k: nat, i: nat)
    requires k <= |a| && i < |a|
    ensures Rotate(a, k)[i] == a[Wrap(|a|, i + k)]
  {
  }

  function Replicate(a: Bits, times: nat): (c: Bits)
    ensures |c| == times * |a|
  {
    if times == 0 then [] else a + Replicate(a, times - 1)
  }

  /** The position of the highest one, or -1. */
  function HighestSetBit(a: Bits): (n: int) {
    |a| - 1 - Clz(a)
  }

  /** Element sizes are powers of two. */
  function Element(len: nat, ones: nat, rotation: nat): (e: Bits)
    requires ones <= Pow2(len) && rotation < Pow2(len)
    ensures |e| == Pow2(len)
  {
    Rotate(Ones(ones) + Zeros(Pow2(len) - ones), rotation)
  }

  /** How many elements of 2^len bits fill the width. */
  function Copies(width: nat, len: nat): nat {
    if len == 0 then width else Copies(width / 2, len - 1)
  }

  lemma {:induction false} PowersDivide(len: nat)
    requires 1 <= len <= 6
    ensures Pow2(1) == 2 && Pow2(2) == 4 && Pow2(3) == 8 && Pow2(4) == 16 && Pow2(5) == 32 && Pow2(6) == 64
    ensures Copies(64, len) * Pow2(len) == 64 && 64 % Pow2(len) == 0
  {
    assert len == 1 || len == 2 || len == 3 || len == 4 || len == 5 || len == 6;
  }

  /** DecodeBitMasks for a 64-bit logical immediate: N:NOT(imms) gives the element size, the bits below it the rest. */
  function Decode(f: Fields): (v: Option<Bits>)
    requires |f.immr| == |f.imms| == 6
  {
    var len := HighestSetBit(Not(f.imms) + [f.n]);
    if len < 1 then None else DecodeElement(len, Value(f.imms[..len]), Value(f.immr[..len]))
  }

  function DecodeElement(len: nat, s: nat, r: nat): (v: Option<Bits>)
    requires 1 <= len <= 6
  {
    if s + 1 >= Pow2(len) || r >= Pow2(len) then None
    else Some(Replicate(Element(len, s + 1, r), Copies(64, len)))
  }

  /** DecodeBitMasks for a 32-bit logical immediate; N must be clear. */
  function Decode32(f: Fields): (v: Option<Bits>)
    requires |f.immr| == |f.imms| == 6
  {
    var len := HighestSetBit(Not(f.imms) + [f.n]);
    if len < 1 || f.n then None
    else
      var s, r := Value(f.imms[..len]), Value(f.immr[..len]);
      if s + 1 >= Pow2(len) || r >= Pow2(len) then None
      else Some(Replicate(Element(len, s + 1, r), Copies(32, len)))
  }

  lemma {:induction false} ValueBound(b: Bits)
    ensures Value(b) < Pow2(|b|)
  {
    if b != [] {
      ValueBound(b[1..]);
    }
  }

  // ---------------------------------------------------------------- the fast test

  /** rotate_right_64: two shifts, each by an amount taken modulo the width. */
  function RotateRight(v: Bits, rotation: int): (r: Bits)
    requires |v| > 0
  {
    Or(ShiftRight(v, rotation % |v|), ShiftLeft(v, (-rotation) % |v|))
  }

  lemma ShiftsRotate(v: Bits, k: nat)
    requires 0 < k < |v|
    ensures Or(ShiftRight(v, k), ShiftLeft(v, |v| - k)) == Rotate(v, k)
  {
  }

  lemma NegatedMod(k: int, n: int)
    requires n > 0
    ensures (-k) % n == if k % n == 0 then 0 else n - k % n
  {
    var q, r := k / n, k % n;
    assert k == q * n + r && -q * n == -(q * n) && (-q - 1) * n == -(q * n) - n;
    if r == 0 {
      DivUnique(-k, n, -q, 0);
    } else {
      DivUnique(-k, n, -q - 1, n - r);
    }
  }

  lemma RotateRightRotates(v: Bits, rotation: int)
    requires |v| > 0
    ensures RotateRight(v, rotation) == Rotate(v, rotation % |v|)
  {
    NegatedMod(rotation, |v|);
    if rotation % |v| != 0 {
      ShiftsRotate(v, rotation % |v|);
    } else {
      assert Or(ShiftRight(v, 0), ShiftLeft(v, 0)) == v == Rotate(v, 0);
    }
  }

  /** The position of a run of ones: what the value is rotated by. */
  function Rotation(v: Bits): (r: nat)
    ensures r <= |v|
  {
    var cleared := And(v, PlusOne(v));
    if cleared == Zeros(|v|) then 0 else Ctz(cleared)
  }

  function Encode(width: nat, rotation: int, zeroes: int, ones: int): Fields
    requires width >= 6
  {
    var size := zeroes + ones;
    Fields(size / 64 % 2 == 1,
           And(Low(-rotation, width), Low(size - 1, width))[..6],
           Or(Low(-(2 * size), width), Low(ones - 1, width))[..6])
  }

  /** is_logical_immediate_64. */
  function Recognise(v: Bits): (f: Option<Fields>)
    requires |v| == 64
  {
    if v == Zeros(|v|) || v == Ones(|v|) then None
    else
      var normalized := RotateRight(v, Rotation(v));
      var zeroes, ones := Clz(normalized), Ctz(Not(normalized));
      if RotateRight(v, zeroes + ones) != v then None else Some(Encode(|v|, Rotation(v), zeroes, ones))
  }

  /** is_logical_immediate_32: the value twice, and no element of 64 bits. */
  function Recognise32(v: Bits): (f: Option<Fields>)
    requires |v| == 32
  {
    if v == Zeros(|v|) || v == Ones(|v|) then None
    else
      var f := Recognise(v + v);
      if f.Some? && f.value.n then None else f
  }

  // ---------------------------------------------------------------- the run the value is rotated to

  /** Rotated to start with a run of ones and to end with a zero. */
  lemma RotationFindsRun(v: Bits)
    requires |v| > 0 && v != Zeros(|v|) && v != Ones(|v|)
    ensures Rotation(v) < |v|
    ensures var n := Rotate(v, Rotation(v)); n[0] && !n[|v| - 1]
  {
    var cleared := And(v, PlusOne(v));
    RotateEnds(v, if cleared == Zeros(|v|) then 0 else Ctz(cleared));
    forall i: nat | i < |v| ensures cleared[i] == (v[i] && ZeroBefore(v, i)) {
      ClearsTrailingOnes(v, i);
    }
    if cleared == Zeros(|v|) {
      NoLaterRun(v, cleared);
    } else {
      LaterRun(v, cleared);
    }
  }

  lemma RotateEnds(v: Bits, r: nat)
    requires r <= |v| && |v| > 0
    ensures r < |v| ==> Rotate(v, r)[0] == v[r] && Rotate(v, r)[|v| - 1] == v[if r == 0 then |v| - 1 else r - 1]
  {
  }

  /** Without a one above a zero, the ones are the lowest bits. */
  lemma NoLaterRun(v: Bits, cleared: Bits)
    requires |v| > 0 && v != Zeros(|v|) && v != Ones(|v|) && cleared == Zeros(|v|)
    requires forall i: nat :: i < |v| ==> cleared[i] == (v[i] && ZeroBefore(v, i))
    ensures v[0] && !v[|v| - 1]
  {
    var one: nat :| one < |v| && v[one];
    var zero: nat :| zero < |v| && !v[zero];
    assert !cleared[one] && !cleared[|v| - 1];
    assert !ZeroBefore(v, one);
    assert zero < |v| - 1 ==> ZeroBefore(v, |v| - 1);
  }

  lemma LaterRun(v: Bits, cleared: Bits)
    requires |cleared| == |v| > 0 && cleared != Zeros(|v|)
    requires forall i: nat :: i < |v| ==> cleared[i] == (v[i] && ZeroBefore(v, i))
    ensures 0 < Ctz(cleared) < |v| && v[Ctz(cleared)] && !v[Ctz(cleared) - 1]
  {
    var r := Ctz(cleared);
    assert r < |v|;
    assert cleared[r] && ZeroBefore(v, r);
    var j: nat :| j < r && !v[j];
    assert !cleared[r - 1];
    assert j < r - 1 ==> ZeroBefore(v, r - 1);
  }

  // ---------------------------------------------------------------- periods

  ghost predicate RepeatsAt(a: Bits, p: nat, i: int) {
    0 <= i < |a| && p <= |a| && a[i] == a[Wrap(|a|, i + p)]
  }

  ghost predicate Periodic(a: Bits, p: nat) {
    p <= |a| && forall i :: 0 <= i < |a| ==> RepeatsAt(a, p, i)
  }

  lemma RotatedPeriodic(v: Bits, r: nat, p: nat)
    requires r < |v| && p <= |v| && Rotate(v, if p < |v| then p else 0) == v
    ensures Periodic(Rotate(v, r), p)
  {
    hide Rotate;
    var n := Rotate(v, r);
    forall i | 0 <= i < |v| ensures RepeatsAt(n, p, i) {
      RotateAt(v, r, i);
      RotateAt(v, r, Wrap(|v|, i + p));
      RotateAt(v, if p < |v| then p else 0, Wrap(|v|, i + r));
    }
  }

  lemma {:induction false} PeriodSteps(a: Bits, p: nat, i: nat, k: nat)
    requires Periodic(a, p) && i + k * p < |a|
    ensures a[i + k * p] == a[i]
    decreases k
  {
    if k > 0 {
      assert k * p == (k - 1) * p + p;
      PeriodSteps(a, p, i, k - 1);
      assert RepeatsAt(a, p, i + (k - 1) * p);
    }
  }

  /** A run of ones at the bottom, a run of zeros at the top, and their joint length a period: it divides the width. */
  lemma PeriodDivides(n: Bits, ones: nat, zeroes: nat)
    requires |n| > 0 && n[0] && !n[|n| - 1] && ones == Ctz(Not(n)) && zeroes == Clz(n) && Periodic(n, ones + zeroes)
    ensures ones > 0 && zeroes > 0 && |n| % (ones + zeroes) == 0
  {
    hide Ctz, Clz, Not;
    var p := ones + zeroes;
    assert ones > 0 && zeroes > 0;
    var q, rem := |n| / p, |n| % p;
    assert |n| == q * p + rem;
    assert q >= 1 by { assert q <= 0 ==> q * p <= 0; }
    if rem > 0 {
      NoRemainder(n, ones, zeroes, q, rem);
    }
  }

  lemma NoRemainder(n: Bits, ones: nat, zeroes: nat, q: nat, rem: nat)
    requires |n| > 0 && !n[|n| - 1] && Periodic(n, ones + zeroes) && q >= 1
    requires |n| == q * (ones + zeroes) + rem && 0 < rem < ones + zeroes
    requires forall i :: 0 <= i < ones && i < |n| ==> n[i]
    requires forall i :: |n| - zeroes <= i < |n| && 0 <= i ==> !n[i]
    ensures ones == 0 || zeroes == 0
  {
    var p := ones + zeroes;
    assert (q - 1) * p + p == q * p && (q - 1) * p >= 0;
    PeriodSteps(n, p, 0, q);
    PeriodSteps(n, p, p - 1, q - 1);
    assert RepeatsAt(n, p, |n| - 1) && RepeatsAt(n, p, q * p - 1);
  }

  /** The value repeats every `size` bits, from an offset, `ones` ones followed by zeros. */
  ghost predicate Pattern(v: Bits, size: nat, ones: nat, offset: nat) {
    size > 0 && forall i :: 0 <= i < |v| ==> v[i] == ((i + offset) % size < ones)
  }

  lemma DropMultiple(x: int, k: int, size: int)
    requires size > 0
    ensures (x + k * size) % size == x % size
  {
    assert (x / size + k) * size == x / size * size + k * size;
    DivUnique(x + k * size, size, x / size + k, x % size);
  }

  lemma PeriodPattern(n: Bits, ones: nat, zeroes: nat)
    requires |n| > 0 && n[0] && !n[|n| - 1] && ones == Ctz(Not(n)) && zeroes == Clz(n) && Periodic(n, ones + zeroes)
    ensures Pattern(n, ones + zeroes, ones, 0)
  {
    hide Ctz, Clz, Not;
    PeriodDivides(n, ones, zeroes);
    var p := ones + zeroes;
    var k := |n| / p - 1;
    assert |n| == |n| / p * p && k * p == |n| / p * p - p;
    assert k >= 0 by { assert k < 0 ==> k * p <= -p; }
    assert forall i :: 0 <= i < ones ==> !Not(n)[i];
    forall i | 0 <= i < |n| ensures n[i] == ((i + 0) % p < ones) {
      AnyPeriod(n, ones, zeroes, k, i);
    }
  }

  lemma AnyPeriod(n: Bits, ones: nat, zeroes: nat, k: nat, i: nat)
    requires 0 < ones + zeroes && Periodic(n, ones + zeroes) && |n| == k * (ones + zeroes) + (ones + zeroes) && i < |n|
    requires forall i :: 0 <= i < ones ==> n[i]
    requires forall i :: |n| - zeroes <= i < |n| ==> !n[i]
    ensures n[i] == (i % (ones + zeroes) < ones)
  {
    hide Periodic;
    var p := ones + zeroes;
    assert i == i % p + i / p * p && i / p >= 0;
    PeriodSteps(n, p, i % p, i / p);
    FirstPeriod(n, ones, zeroes, k, i % p);
  }

  lemma FirstPeriod(n: Bits, ones: nat, zeroes: nat, k: nat, j: nat)
    requires Periodic(n, ones + zeroes) && |n| == k * (ones + zeroes) + (ones + zeroes) && j < ones + zeroes <= |n|
    requires forall i :: 0 <= i < ones ==> n[i]
    requires forall i :: |n| - zeroes <= i < |n| ==> !n[i]
    ensures n[j] == (j < ones)
  {
    PeriodSteps(n, ones + zeroes, j, k);
  }

  /** Rotating moves the offset. */
  lemma RotatedPattern(v: Bits, r: nat, size: nat, ones: nat, offset: nat)
    requires r < |v| && size > 0 && |v| % size == 0 && Pattern(v, size, ones, offset)
    ensures Pattern(Rotate(v, r), size, ones, offset + r)
  {
    var n := Rotate(v, r);
    forall i | 0 <= i < |v| ensures n[i] == ((i + (offset + r)) % size < ones) {
      RotateAt(v, r, i);
      if i + r >= |v| {
        assert |v| == |v| / size * size;
        DropMultiple(i + r - |v| + offset, |v| / size, size);
      }
    }
  }

  lemma SamePattern(v: Bits, w: Bits, size: nat, ones: nat, offset: nat, offset': nat)
    requires Pattern(v, size, ones, offset) && Pattern(w, size, ones, offset') && |v| == |w| && offset % size == offset' % size
    ensures v == w
  {
    forall i | 0 <= i < |v| ensures v[i] == w[i] {
      ShiftedMod(i, offset, offset', size);
    }
  }

  lemma ShiftedMod(i: int, a: int, b: int, size: int)
    requires size > 0 && a % size == b % size
    ensures (i + a) % size == (i + b) % size
  {
    DropMultiple(i + a % size, a / size, size);
    DropMultiple(i + b % size, b / size, size);
    assert a == a % size + a / size * size && b == b % size + b / size * size;
  }

  // ---------------------------------------------------------------- the fields

  lemma {:induction false} LowMask(len: nat, n: nat, i: nat)
    requires i < n
    ensures Low(Pow2(len) - 1, n)[i] == (i < len)
    decreases n
  {
    if len == 0 {
      ZeroBits(n, i);
    } else if i > 0 {
      assert (Pow2(len) - 1) / 2 == Pow2(len - 1) - 1;
      LowMask(len - 1, n - 1, i - 1);
    } else {
      assert (Pow2(len) - 1) % 2 == 1;
    }
  }

  lemma {:induction false} ZeroBits(n: nat, i: nat)
    requires i < n
    ensures !Low(0, n)[i]
  {
    if i > 0 {
      ZeroBits(n - 1, i - 1);
    }
  }

  lemma {:induction false} LowNegated(m: nat, n: nat, i: nat)
    requires i < n
    ensures Low(0 - Pow2(m), n)[i] == (i >= m)
    decreases n
  {
    if m > 0 {
      assert (0 - Pow2(m)) / 2 == 0 - Pow2(m - 1) && (0 - Pow2(m)) % 2 == 0;
      if i > 0 {
        LowNegated(m - 1, n - 1, i - 1);
      }
    } else if i > 0 {
      assert -1 / 2 == -1;
      LowNegated(0, n - 1, i - 1);
    }
  }

  lemma {:induction false} LowSmall(x: nat, len: nat, n: nat, i: nat)
    requires x < Pow2(len) && len <= i < n
    ensures !Low(x, n)[i]
    decreases n
  {
    if len > 0 {
      LowSmall(x / 2, len - 1, n - 1, i - 1);
    } else {
      ZeroBits(n, i);
    }
  }

  /** The encoded fields decode to the element size, the ones and the rotation they were made from. */
  lemma FieldsDecode(len: nat, rotation: int, zeroes: nat, ones: nat, width: nat)
    requires 1 <= len <= 6 && width > 6 && zeroes + ones == Pow2(len) && 0 < ones < Pow2(len)
    ensures Decode(Encode(width, rotation, zeroes, ones)) == DecodeElement(len, ones - 1, (-rotation) % Pow2(len))
  {
    var f := Encode(width, rotation, zeroes, ones);
    SizeField(len, rotation, zeroes, ones, width);
    RotationField(len, rotation, zeroes, ones, width);
    OnesField(len, rotation, zeroes, ones, width);
  }

  lemma SizeField(len: nat, rotation: int, zeroes: nat, ones: nat, width: nat)
    requires 1 <= len <= 6 && width > 6 && zeroes + ones == Pow2(len) && 0 < ones < Pow2(len)
    ensures HighestSetBit(Not(Encode(width, rotation, zeroes, ones).imms) + [Encode(width, rotation, zeroes, ones).n]) == len
  {
    hide Low, Clz;
    var f := Encode(width, rotation, zeroes, ones);
    var top := Not(f.imms) + [f.n];
    SizeBit(len);
    forall i: nat | len <= i < 6 ensures f.imms[i] == (i > len) {
      LowNegated(len + 1, width, i);
      LowSmall(ones - 1, len, width, i);
    }
    HighestAt(top, len);
  }

  lemma HighestAt(a: Bits, k: nat)
    requires k < |a| && a[k] && forall i :: k < i < |a| ==> !a[i]
    ensures HighestSetBit(a) == k
  {
  }

  lemma SizeBit(len: nat)
    requires 1 <= len <= 6
    ensures (Pow2(len) / 64 % 2 == 1) == (len == 6) && 2 * Pow2(len) == Pow2(len + 1)
  {
    PowersDivide(len);
    assert len == 1 || len == 2 || len == 3 || len == 4 || len == 5 || len == 6;
  }

  lemma RotationField(len: nat, rotation: int, zeroes: nat, ones: nat, width: nat)
    requires 1 <= len <= 6 && width > 6 && zeroes + ones == Pow2(len)
    ensures Value(Encode(width, rotation, zeroes, ones).immr[..len]) == (-rotation) % Pow2(len)
  {
    hide Low;
    var f := Encode(width, rotation, zeroes, ones);
    forall i: nat | i < len ensures f.immr[i] == Low(-rotation, width)[i] {
      LowMask(len, width, i);
    }
    assert f.immr[..len] == Low(-rotation, width)[..len];
    LowTake(-rotation, width, len);
    ValueOfLow(-rotation, len);
  }

  lemma OnesField(len: nat, rotation: int, zeroes: nat, ones: nat, width: nat)
    requires 1 <= len <= 6 && width > 6 && zeroes + ones == Pow2(len) && 0 < ones < Pow2(len)
    ensures Value(Encode(width, rotation, zeroes, ones).imms[..len]) == ones - 1
  {
    hide Low;
    var f := Encode(width, rotation, zeroes, ones);
    forall i: nat | i < len ensures f.imms[i] == Low(ones - 1, width)[i] {
      LowNegated(len + 1, width, i);
    }
    assert f.imms[..len] == Low(ones - 1, width)[..len];
    LowTake(ones - 1, width, len);
    ValueOfLow(ones - 1, len);
    DivUnique(ones - 1, Pow2(len), 0, ones - 1);
  }

  // ---------------------------------------------------------------- the decoded value

  lemma {:induction false} ReplicateAt(a: Bits, times: nat, i: nat)
    requires |a| > 0 && i < times * |a|
    ensures Replicate(a, times)[i] == a[i % |a|]
  {
    FirstCopy(a, times, i);
    if i >= |a| {
      ReplicateAt(a, times - 1, i - |a|);
      DropMultiple(i - |a|, 1, |a|);
    } else {
      DivUnique(i, |a|, 0, i);
    }
  }

  lemma FirstCopy(a: Bits, times: nat, i: nat)
    requires i < times * |a|
    ensures times > 0 && Replicate(a, times) == a + Replicate(a, times - 1) && (i >= |a| ==> i - |a| < (times - 1) * |a|)
  {
    assert times * |a| == |a| + (times - 1) * |a|;
  }

  lemma ElementAt(len: nat, ones: nat, rotation: nat, j: nat)
    requires 0 < ones < Pow2(len) && rotation < Pow2(len) && j < Pow2(len)
    ensures Element(len, ones, rotation)[j] == ((j + rotation) % Pow2(len) < ones)
  {
    hide Rotate;
    var size := Pow2(len);
    RotateAt(Ones(ones) + Zeros(size - ones), rotation, j);
    if j + rotation < size {
      DivUnique(j + rotation, size, 0, j + rotation);
    } else {
      DivUnique(j + rotation, size, 1, j + rotation - size);
    }
  }

  lemma DecodedPattern(len: nat, s: nat, r: nat)
    requires 1 <= len <= 6 && s + 1 < Pow2(len) && r < Pow2(len)
    ensures DecodeElement(len, s, r).Some? && |DecodeElement(len, s, r).value| == 64
    ensures Pattern(DecodeElement(len, s, r).value, Pow2(len), s + 1, r)
  {
    hide Element, Replicate;
    PowersDivide(len);
    var size, e := Pow2(len), Element(len, s + 1, r);
    var v := Replicate(e, Copies(64, len));
    forall i | 0 <= i < |v| ensures v[i] == ((i + r) % size < s + 1) {
      ReplicateAt(e, Copies(64, len), i);
      ElementAt(len, s + 1, r, i % size);
      DivUnique(i % size, size, 0, i % size);
      ShiftedMod(r, i % size, i, size);
    }
  }

  // ---------------------------------------------------------------- the fast test is exact

  function Log(size: nat): (len: nat) {
    if size <= 1 then 0 else 1 + Log(size / 2)
  }

  lemma DivisorsOf64(size: nat)
    requires 2 <= size <= 64 && 64 % size == 0
    ensures 1 <= Log(size) <= 6 && Pow2(Log(size)) == size
  {
    var q := 64 / size;
    assert size * q == 64;
    if q <= 8 {
      assert q == 0 || q == 1 || q == 2 || q == 3 || q == 4 || q == 5 || q == 6 || q == 7 || q == 8;
    } else {
      assert size < 8 by { assert size >= 8 ==> size * q >= 8 * 9; }
      assert size == 2 || size == 3 || size == 4 || size == 5 || size == 6 || size == 7;
    }
    assert size == 2 || size == 4 || size == 8 || size == 16 || size == 32 || size == 64;
  }

  /** What the test computes: the value rotated to a run, and the lengths of its first and last runs. */
  function Normalized(v: Bits): Bits
    requires |v| > 0
  {
    RotateRight(v, Rotation(v))
  }

  lemma NormalizedFacts(v: Bits)
    requires |v| == 64 && v != Zeros(|v|) && v != Ones(|v|)
    ensures Rotation(v) < |v| && Normalized(v) == Rotate(v, Rotation(v))
    ensures |Normalized(v)| == |v| && Normalized(v)[0] && !Normalized(v)[|v| - 1]
    ensures Clz(Normalized(v)) + Ctz(Not(Normalized(v))) <= |v|
  {
    hide Rotate, Rotation, RotateRight, Clz, Ctz;
    RotationFindsRun(v);
    RotateRightRotates(v, Rotation(v));
    DivUnique(Rotation(v), |v|, 0, Rotation(v));
    RunsFit(Normalized(v));
  }

  lemma RunsFit(n: Bits)
    requires |n| > 0 && n[0] && !n[|n| - 1]
    ensures Clz(n) + Ctz(Not(n)) <= |n|
  {
    hide Clz, Ctz;
    var zeroes, ones := Clz(n), Ctz(Not(n));
    assert forall i :: 0 <= i < ones ==> !Not(n)[i];
    assert !n[|n| - zeroes];
  }

  /** Whatever it accepts, the fields decode to the value. */
  lemma Sound(v: Bits)
    requires |v| == 64 && Recognise(v).Some?
    ensures |Recognise(v).value.immr| == |Recognise(v).value.imms| == 6 && Decode(Recognise(v).value) == Some(v)
  {
    hide Rotate, Rotation, RotateRight, Clz, Ctz, Encode, Decode, Pattern, Not, Periodic;
    NormalizedFacts(v);
    var n, r := Normalized(v), Rotation(v);
    SizePeriod(v, r, Clz(n) + Ctz(Not(n)));
    SoundFields(v, n, r, Clz(n), Ctz(Not(n)));
    EncodeSized(|v|, r, Clz(n), Ctz(Not(n)));
  }

  lemma EncodeSized(width: nat, rotation: int, zeroes: int, ones: int)
    requires width >= 6
    ensures |Encode(width, rotation, zeroes, ones).immr| == |Encode(width, rotation, zeroes, ones).imms| == 6
  {
  }

  lemma SoundFields(v: Bits, n: Bits, r: int, zeroes: nat, ones: nat)
    requires |v| == 64 && 0 <= r < |v| && n == Rotate(v, r) && n[0] && !n[|v| - 1]
    requires zeroes == Clz(n) && ones == Ctz(Not(n)) && Periodic(n, ones + zeroes)
    ensures Decode(Encode(|v|, r, zeroes, ones)) == Some(v)
  {
    hide Rotate, Clz, Ctz, Encode, Decode, Not, Pow2, Pattern;
    var size := ones + zeroes;
    PeriodPattern(n, ones, zeroes);
    PeriodDivides(n, ones, zeroes);
    DivisorsOf64(size);
    var len := Log(size);
    FieldsDecode(len, r, zeroes, ones, |v|);
    DecodedPattern(len, ones - 1, (-r) % size);
    SameValue(v, n, r, size, ones, DecodeElement(len, ones - 1, (-r) % size).value);
  }

  lemma SizePeriod(v: Bits, r: nat, size: nat)
    requires r < |v| && size <= |v| && RotateRight(v, size) == v
    ensures Periodic(Rotate(v, r), size)
  {
    hide Rotate, RotateRight;
    RotateRightRotates(v, size);
    if size < |v| {
      DivUnique(size, |v|, 0, size);
    } else {
      DivUnique(size, |v|, 1, 0);
    }
    RotatedPeriodic(v, r, size);
  }

  lemma SameValue(v: Bits, n: Bits, r: int, size: nat, ones: nat, w: Bits)
    requires 0 <= r < |v| && n == Rotate(v, r) && size > 0 && |v| % size == 0 && |w| == |v|
    requires Pattern(n, size, ones, 0) && Pattern(w, size, ones, (-r) % size)
    ensures v == w
  {
    hide Rotate;
    assert v == Rotate(n, if r == 0 then 0 else |v| - r) by { RotateBack(v, r); }
    assert |v| == |v| / size * size;
    RotatedPattern(n, if r == 0 then 0 else |v| - r, size, ones, 0);
    DropMultiple(-r, |v| / size, size);
    DivUnique((-r) % size, size, 0, (-r) % size);
    SamePattern(v, w, size, ones, if r == 0 then 0 else |v| - r, (-r) % size);
  }

  lemma RotateBack(v: Bits, r: nat)
    requires r < |v|
    ensures Rotate(Rotate(v, r), if r == 0 then 0 else |v| - r) == v
  {
  }

  /** Rotated to start with a run and end with a zero, a pattern starts at offset 0. */
  lemma OffsetZero(n: Bits, size: nat, ones: nat, offset: nat)
    requires Pattern(n, size, ones, offset) && |n| > 0 && |n| % size == 0 && n[0] && !n[|n| - 1]
    ensures offset % size == 0
  {
    hide Pattern;
    assert n[0] == ((0 + offset) % size < ones) && n[|n| - 1] == ((|n| - 1 + offset) % size < ones) by { PatternAt(n, size, ones, offset); }
    assert |n| == |n| / size * size;
    DropMultiple(offset - 1, |n| / size, size);
    if offset % size > 0 {
      DivUnique(offset - 1, size, offset / size, offset % size - 1);
    }
  }

  lemma PatternAt(n: Bits, size: nat, ones: nat, offset: nat)
    requires Pattern(n, size, ones, offset)
    ensures size > 0 && forall i :: 0 <= i < |n| ==> n[i] == ((i + offset) % size < ones)
  {
  }

  /** The first and last runs of a pattern that starts at offset 0. */
  lemma PatternRuns(n: Bits, size: nat, ones: nat, offset: nat)
    requires Pattern(n, size, ones, offset) && offset % size == 0 && |n| % size == 0 && 0 < ones < size <= |n|
    ensures Ctz(Not(n)) == ones && Clz(n) == size - ones
  {
    hide Ctz, Clz, Pattern;
    forall i | 0 <= i <= ones ensures Not(n)[i] == (i == ones) {
      RunAt(n, size, ones, offset, 0, i);
    }
    CtzAt(Not(n), ones);
    forall i | |n| - size + ones - 1 <= i < |n| ensures n[i] == (i == |n| - size + ones - 1) {
      RunAt(n, size, ones, offset, |n| / size - 1, i - (|n| - size));
    }
    ClzAt(n, |n| - size + ones - 1);
  }

  lemma RunAt(n: Bits, size: nat, ones: nat, offset: nat, q: int, j: nat)
    requires Pattern(n, size, ones, offset) && offset % size == 0 && j < size && 0 <= q * size + j < |n|
    ensures n[q * size + j] == (j < ones)
    ensures |n| % size == 0 && q == |n| / size - 1 ==> q * size == |n| - size
  {
    ShiftedMod(q * size + j, offset, 0, size);
    DivUnique(q * size + j, size, q, j);
    assert (|n| / size - 1) * size == |n| / size * size - size;
  }

  lemma CtzAt(a: Bits, k: nat)
    requires k < |a| && forall i :: 0 <= i <= k ==> a[i] == (i == k)
    ensures Ctz(a) == k
  {
    hide Ctz;
    var c := Ctz(a);
    assert a[k];
    assert c <= k;
    assert a[c];
  }

  lemma ClzAt(a: Bits, k: nat)
    requires k < |a| && forall i :: k <= i < |a| ==> a[i] == (i == k)
    ensures Clz(a) == |a| - 1 - k
  {
    hide Clz;
    var c := Clz(a);
    assert a[k];
    assert c <= |a| - 1 - k;
    assert a[|a| - 1 - c];
  }

  lemma PatternHit(v: Bits, size: nat, ones: nat, offset: nat, t: nat)
    requires Pattern(v, size, ones, offset) && t < size <= |v|
    ensures 0 <= (t - offset) % size < |v| && v[(t - offset) % size] == (t < ones)
  {
    var i := (t - offset) % size;
    DivUnique(i, size, 0, i);
    ShiftedMod(offset, i, t - offset, size);
    DivUnique(t, size, 0, t);
    assert v[i] == ((i + offset) % size < ones);
  }

  lemma PatternMixed(v: Bits, size: nat, ones: nat, offset: nat)
    requires Pattern(v, size, ones, offset) && 0 < ones < size <= |v|
    ensures v != Zeros(|v|) && v != Ones(|v|)
  {
    hide Pattern;
    PatternHit(v, size, ones, offset, 0);
    PatternHit(v, size, ones, offset, ones);
  }

  /** Whatever some fields decode to is accepted. */
  lemma Complete(f: Fields)
    requires |f.immr| == |f.imms| == 6 && Decode(f).Some?
    ensures |Decode(f).value| == 64 && Recognise(Decode(f).value).Some?
  {
    hide Rotate, Rotation, RotateRight, Clz, Ctz, Encode, Pattern, Recognise, Replicate, Element, Value;
    var len := HighestSetBit(Not(f.imms) + [f.n]);
    var s, r := Value(f.imms[..len]), Value(f.immr[..len]);
    DecodedPattern(len, s, r);
    PowersDivide(len);
    PatternAccepted(Decode(f).value, Pow2(len), s + 1, r);
  }

  lemma PatternAccepted(v: Bits, size: nat, ones: nat, offset: nat)
    requires |v| == 64 && Pattern(v, size, ones, offset) && 0 < ones < size <= 64 && 64 % size == 0
    ensures Recognise(v).Some? && Recognise(v).value.n == (size == 64)
  {
    hide Rotate, Rotation, RotateRight, Clz, Ctz, Encode, Pattern, Not;
    PatternMixed(v, size, ones, offset);
    NormalizedFacts(v);
    var n := Normalized(v);
    RotatedPattern(v, Rotation(v), size, ones, offset);
    OffsetZero(n, size, ones, offset + Rotation(v));
    PatternRuns(n, size, ones, offset + Rotation(v));
    PatternRepeats(v, size, ones, offset);
    EncodedN(|v|, Rotation(v), Clz(n), Ctz(Not(n)));
  }

  lemma EncodedN(width: nat, rotation: int, zeroes: int, ones: int)
    requires width >= 6 && 0 <= zeroes + ones <= 64
    ensures Encode(width, rotation, zeroes, ones).n == (zeroes + ones == 64)
  {
  }

  lemma PatternRepeats(v: Bits, size: nat, ones: nat, offset: nat)
    requires Pattern(v, size, ones, offset) && 0 < size <= |v| && |v| % size == 0
    ensures RotateRight(v, size) == v
  {
    hide Rotate, RotateRight, Pattern;
    RotateRightRotates(v, size);
    if size < |v| {
      DivUnique(size, |v|, 0, size);
      RotatedPattern(v, size, size, ones, offset);
      DropMultiple(offset, 1, size);
      SamePattern(v, Rotate(v, size), size, ones, offset, offset + size);
    } else {
      DivUnique(size, |v|, 1, 0);
      assert Rotate(v, 0) == v by { RotateBack(v, 0); RotateNone(v); }
    }
  }

  lemma RotateNone(v: Bits)
    ensures Rotate(v, 0) == v
  {
  }

  /** The fast test accepts exactly the values some encoding stands for. */
  lemma RecognisesExactly(v: Bits)
    requires |v| == 64
    ensures Recognise(v).Some? <==> exists f: Fields :: |f.immr| == |f.imms| == 6 && Decode(f) == Some(v)
  {
    hide Recognise, Decode;
    if Recognise(v).Some? {
      Sound(v);
    }
    if exists f: Fields :: |f.immr| == |f.imms| == 6 && Decode(f) == Some(v) {
      var f: Fields :| |f.immr| == |f.imms| == 6 && Decode(f) == Some(v);
      Complete(f);
    }
  }

  lemma {:induction false} ReplicateTwice(a: Bits, times: nat)
    ensures Replicate(a, times + times) == Replicate(a, times) + Replicate(a, times)
    decreases times
  {
    ReplicateSplits(a, times, times);
  }

  lemma {:induction false} ReplicateSplits(a: Bits, m: nat, n: nat)
    ensures Replicate(a, m + n) == Replicate(a, m) + Replicate(a, n)
    decreases m
  {
    hide Replicate;
    if m > 0 {
      ReplicateSplits(a, m - 1, n);
      OneMore(a, m + n);
      OneMore(a, m);
      Regroup(a, Replicate(a, m - 1), Replicate(a, n));
    } else {
      NoCopies(a);
    }
  }

  lemma NoCopies(a: Bits)
    ensures Replicate(a, 0) == []
  {
  }

  lemma OneMore(a: Bits, times: nat)
    requires times > 0
    ensures Replicate(a, times) == a + Replicate(a, times - 1)
  {
  }

  lemma Regroup(a: Bits, b: Bits, c: Bits)
    ensures a + (b + c) == a + b + c
  {
  }

  /** A value accepted for 32 bits decodes to itself in 32 bits. */
  lemma Sound32(v: Bits)
    requires |v| == 32 && Recognise32(v).Some?
    ensures |Recognise32(v).value.immr| == |Recognise32(v).value.imms| == 6 && Decode32(Recognise32(v).value) == Some(v)
  {
    hide Recognise, Element, Replicate, Value, HighestSetBit;
    Sound(v + v);
    var f := Recognise(v + v).value;
    var len := HighestSetBit(Not(f.imms) + [f.n]);
    ShortElement(f);
    var e := Element(len, Value(f.imms[..len]) + 1, Value(f.immr[..len]));
    PowersDivide(len);
    HalfWidth(len);
    ReplicateTwice(e, Copies(32, len));
    SameHalves(v, Replicate(e, Copies(32, len)));
  }

  lemma ShortElement(f: Fields)
    requires |f.immr| == |f.imms| == 6 && !f.n
    ensures HighestSetBit(Not(f.imms) + [f.n]) <= 5
  {
    var top := Not(f.imms) + [f.n];
    assert !top[6];
  }

  lemma HalfWidth(len: nat)
    requires 1 <= len <= 5
    ensures Copies(64, len) == Copies(32, len) + Copies(32, len) && Copies(32, len) * Pow2(len) == 32
  {
    PowersDivide(len);
    assert len == 1 || len == 2 || len == 3 || len == 4 || len == 5;
  }

  lemma SameHalves(v: Bits, w: Bits)
    requires |v| == |w| && v + v == w + w
    ensures v == w
  {
    assert (v + v)[..|v|] == v && (w + w)[..|v|] == w;
  }

  /** Whatever some fields decode to in 32 bits is accepted for 32 bits. */
  lemma Complete32(f: Fields)
    requires |f.immr| == |f.imms| == 6 && Decode32(f).Some?
    ensures |Decode32(f).value| == 32 && Recognise32(Decode32(f).value).Some?
  {
    hide Recognise, Element, Replicate, Value, HighestSetBit, Pattern;
    var len := HighestSetBit(Not(f.imms) + [f.n]);
    ShortElement(f);
    HalfWidth(len);
    var s, r, v := Value(f.imms[..len]), Value(f.immr[..len]), Decode32(f).value;
    var e := Element(len, s + 1, r);
    ReplicateTwice(e, Copies(32, len));
    DecodedPattern(len, s, r);
    PowersDivide(len);
    PatternAccepted(v + v, Pow2(len), s + 1, r);
    PatternMixed(v + v, Pow2(len), s + 1, r);
    assert Zeros(32) + Zeros(32) == Zeros(64) && Ones(32) + Ones(32) == Ones(64);
    SmallPower(len);
  }

  lemma SmallPower(len: nat)
    requires 1 <= len <= 5
    ensures Pow2(len) <= 32
  {
    PowersDivide(len);
    assert len == 1 || len == 2 || len == 3 || len == 4 || len == 5;
  }

  /** The test for 32 bits accepts exactly the values some encoding without N stands for. */
  lemma Recognises32Exactly(v: Bits)
    requires |v| == 32
    ensures Recognise32(v).Some? <==> exists f: Fields :: |f.immr| == |f.imms| == 6 && Decode32(f) == Some(v)
  {
    hide Recognise32, Decode32;
    if Recognise32(v).Some? {
      Sound32(v);
    }
    if exists f: Fields :: |f.immr| == |f.imms| == 6 && Decode32(f) == Some(v) {
      var f: Fields :| |f.immr| == |f.imms| == 6 && Decode32(f) == Some(v);
      Complete32(f);
    }
  }
}
