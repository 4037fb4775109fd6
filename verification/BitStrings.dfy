/** Machine words as sequences of bits, least significant first, and the integers they stand for. */
module BitStrings {
  type Bits = seq<bool>

  function Pow2(n: nat): (p: nat)
    ensures p > 0
  {
    if n == 0 then 1 else 2 * Pow2(n - 1)
  }

  /** The low `n` bits of an integer in two's complement. */
  function Low(v: int, n: nat): (b: Bits)
    ensures |b| == n
    decreases n
  {
    if n == 0 then [] else [v % 2 == 1] + Low(v / 2, n - 1)
  }

  function Value(b: Bits): nat {
    if b == [] then 0 else (if b[0] then 1 else 0) + 2 * Value(b[1..])
  }

  lemma {:induction false} LowOfValue(b: Bits)
    ensures Low(Value(b), |b|) == b
  {
    if b != [] {
      LowOfValue(b[1..]);
      assert Value(b) / 2 == Value(b[1..]);
    }
  }

  lemma DivUnique(x: int, d: int, q: int, r: int)
    requires d > 0 && x == q * d + r && 0 <= r < d
    ensures x / d == q && x % d == r
  {
    var k := x / d - q;
    assert x == x / d * d + x % d;
    assert (x / d) * d == (q + k) * d == q * d + k * d;
    assert k * d == r - x % d;
    assert k >= 1 ==> (k - 1) * d >= 0;
    assert k <= -1 ==> (-k - 1) * d >= 0;
  }

  lemma HalfMod(v: int, p: int)
    requires p > 0
    ensures v % (2 * p) == v % 2 + 2 * ((v / 2) % p) && v / (2 * p) == v / 2 / p
  {
    var h := v / 2;
    assert v == 2 * h + v % 2 && h == h / p * p + h % p;
    assert v == h / p * (2 * p) + (v % 2 + 2 * (h % p)) by {
      assert 2 * (h / p * p) == h / p * (2 * p);
    }
    DivUnique(v, 2 * p, h / p, v % 2 + 2 * (h % p));
  }

  /** The low bits stand for the integer modulo a power of two. */
  lemma {:induction false} ValueOfLow(v: int, n: nat)
    ensures Value(Low(v, n)) == v % Pow2(n)
    decreases n
  {
    if n > 0 {
      ValueOfLow(v / 2, n - 1);
      HalfMod(v, Pow2(n - 1));
      assert Low(v, n)[1..] == Low(v / 2, n - 1);
    }
  }

  lemma LowAgrees(v: int, w: int, n: nat)
    ensures Low(v, n) == Low(w, n) <==> v % Pow2(n) == w % Pow2(n)
  {
    ValueOfLow(v, n);
    ValueOfLow(w, n);
    LowOfValue(Low(v, n));
    LowOfValue(Low(w, n));
  }

  lemma {:induction false} LowTake(v: int, n: nat, k: nat)
    requires k <= n
    ensures Low(v, n)[..k] == Low(v, k)
    decreases n
  {
    if k > 0 {
      LowTake(v / 2, n - 1, k - 1);
      assert Low(v, n)[..k] == [v % 2 == 1] + Low(v / 2, n - 1)[..k - 1];
    }
  }

  lemma {:induction false} LowDrop(v: int, n: nat, k: nat)
    requires k <= n
    ensures Low(v, n)[k..] == Low(v / Pow2(k), n - k)
    decreases n
  {
    if k > 0 {
      LowDrop(v / 2, n - 1, k - 1);
      HalfMod(v, Pow2(k - 1));
      assert Low(v, n)[k..] == Low(v / 2, n - 1)[k - 1..];
    }
  }

  // ---------------------------------------------------------------- operations

  function Zeros(n: nat): (b: Bits)
    ensures |b| == n && forall i :: 0 <= i < n ==> !b[i]
  {
    seq(n, _ => false)
  }

  function Ones(n: nat): (b: Bits)
    ensures |b| == n && forall i :: 0 <= i < n ==> b[i]
  {
    seq(n, _ => true)
  }

  function And(a: Bits, b: Bits): (c: Bits)
    requires |a| == |b|
    ensures |c| == |a| && forall i :: 0 <= i < |a| ==> c[i] == (a[i] && b[i])
  {
    seq(|a|, i requires 0 <= i < |a| => a[i] && b[i])
  }

  function Or(a: Bits, b: Bits): (c: Bits)
    requires |a| == |b|
    ensures |c| == |a| && forall i :: 0 <= i < |a| ==> c[i] == (a[i] || b[i])
  {
    seq(|a|, i requires 0 <= i < |a| => a[i] || b[i])
  }

  function Not(a: Bits): (c: Bits)
    ensures |c| == |a| && forall i :: 0 <= i < |a| ==> c[i] == !a[i]
  {
    seq(|a|, i requires 0 <= i < |a| => !a[i])
  }

  function ShiftRight(a: Bits, k: nat): (c: Bits)
    requires k <= |a|
  {
    a[k..] + Zeros(k)
  }

  function ShiftLeft(a: Bits, k: nat): (c: Bits)
    requires k <= |a|
  {
    Zeros(k) + a[..|a| - k]
  }

  /** The number of zeros below the lowest one. */
  function Ctz(a: Bits): (n: nat)
    ensures n <= |a| && (forall i :: 0 <= i < n ==> !a[i]) && (n < |a| ==> a[n])
  {
    if a == [] || a[0] then 0 else 1 + Ctz(a[1..])
  }

  /** The number of zeros above the highest one. */
  function Clz(a: Bits): (n: nat)
    ensures n <= |a| && (forall i :: |a| - n <= i < |a| ==> !a[i]) && (n < |a| ==> a[|a| - 1 - n])
  {
    if a == [] || a[|a| - 1] then 0 else 1 + Clz(a[..|a| - 1])
  }

  function PlusOne(a: Bits): Bits {
    Low(Value(a) + 1, |a|)
  }

  lemma {:induction false} PlusOneStep(a: Bits)
    requires a != []
    ensures PlusOne(a) == if a[0] then [false] + PlusOne(a[1..]) else [true] + a[1..]
  {
    assert Value(a) == (if a[0] then 1 else 0) + 2 * Value(a[1..]);
    LowOfValue(a[1..]);
    assert (Value(a) + 1) / 2 == if a[0] then Value(a[1..]) + 1 else Value(a[1..]);
  }

  ghost predicate ZeroBefore(a: Bits, i: nat)
    requires i < |a|
  {
    exists j: nat :: j < i && !a[j]
  }

  /** x & (x + 1) clears the trailing ones. */
  lemma {:induction false} ClearsTrailingOnes(a: Bits, i: nat)
    requires i < |a|
    ensures |PlusOne(a)| == |a| && And(a, PlusOne(a))[i] == (a[i] && ZeroBefore(a, i))
  {
    PlusOneStep(a);
    if i > 0 {
      var tail := a[1..];
      if a[0] {
        ClearsTrailingOnes(tail, i - 1);
        if ZeroBefore(tail, i - 1) {
          var j: nat :| j < i - 1 && !tail[j];
          assert !a[j + 1];
        }
        if ZeroBefore(a, i) {
          var j: nat :| j < i && !a[j];
          assert !tail[j - 1];
        }
        assert And(a, PlusOne(a))[i] == And(tail, PlusOne(tail))[i - 1];
      }
    }
  }
}
