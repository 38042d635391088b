/** Bytes, one-bit masks, little-endian words and slice assignment on byte buffers. */
module Bytes {

  type byte = x: int | 0 <= x < 256

  datatype Option<+T> = None | Some(value: T)

  datatype Result<+T, +E> = Ok(value: T) | Err(error: E)

  function Pow2(k: nat): (r: nat)
    ensures r >= 1
  {
    if k == 0 then 1 else 2 * Pow2(k - 1)
  }

  /** `b & (1 << k)` is nonzero. */
  predicate TestBit(b: nat, k: nat)
    decreases k
  {
    if k == 0 then b % 2 == 1 else TestBit(b / 2, k - 1)
  }

  /** `b & ~(1 << k)`. */
  function ClearBit(b: nat, k: nat): (r: nat)
    ensures r <= b
    decreases k
  {
    if k == 0 then b - b % 2 else 2 * ClearBit(b / 2, k - 1) + b % 2
  }

  /** `b | (1 << k)`. */
  function SetBit(b: nat, k: nat): (r: nat)
    ensures forall n | k < n && b < Pow2(n) :: r < Pow2(n)
    decreases k
  {
    if k == 0 then
      assert forall n | 0 < n :: Pow2(n) == 2 * Pow2(n - 1);
      b - b % 2 + 1
    else
      assert forall n | k < n && b < Pow2(n) :: Pow2(n) == 2 * Pow2(n - 1) && b / 2 < Pow2(n - 1);
      2 * SetBit(b / 2, k - 1) + b % 2
  }

  lemma {:induction false} BitsOfClear(b: nat, k: nat, j: nat)
    ensures TestBit(ClearBit(b, k), j) <==> j != k && TestBit(b, j)
    decreases k
  {
    if k > 0 && j > 0 { BitsOfClear(b / 2, k - 1, j - 1); }
  }

  lemma {:induction false} BitsOfSet(b: nat, k: nat, j: nat)
    ensures TestBit(SetBit(b, k), j) <==> j == k || TestBit(b, j)
    decreases k
  {
    if k > 0 && j > 0 { BitsOfSet(b / 2, k - 1, j - 1); }
  }

  /** The values of the eight bits of a byte. */
  const BIT_VALUES: seq<nat> := [1, 2, 4, 8, 16, 32, 64, 128]

  /** Testing, clearing and setting bit k of a byte in plain arithmetic: bit k is worth 2^k. */
  lemma BitsAreWorth(b: nat, k: nat)
    requires k < 8
    ensures TestBit(b, k) <==> b / BIT_VALUES[k] % 2 == 1
    ensures ClearBit(b, k) == if b / BIT_VALUES[k] % 2 == 1 then b - BIT_VALUES[k] else b
    ensures SetBit(b, k) == if b / BIT_VALUES[k] % 2 == 1 then b else b + BIT_VALUES[k]
    decreases k
  {
    if k > 0 {
      var d := BIT_VALUES[k - 1];
      BitsAreWorth(b / 2, k - 1);
      HalfTwice(b, d);
      assert BIT_VALUES[k] == 2 * d;
      hide BIT_VALUES;
    }
  }

  lemma HalfTwice(b: nat, d: nat)
    requires d > 0
    ensures b / 2 / d == b / (2 * d)
  {
    var q, r := b / 2 / d, b / 2 % d;
    assert b / 2 == d * q + r;
    assert b == 2 * d * q + (2 * r + b % 2) && 2 * r + b % 2 < 2 * d;
    Quotient(b, 2 * d, q, 2 * r + b % 2);
  }

  lemma Quotient(n: nat, d: nat, q: nat, r: nat)
    requires n == d * q + r && r < d
    ensures n / d == q
  {
    var x, y := n / d, n % d;
    assert n == d * x + y;
    MultipleIsFar(d, x - q);
    assert d * (x - q) == r - y;
  }

  lemma MultipleIsFar(d: int, k: int)
    requires d >= 0
    ensures k >= 1 ==> d * k >= d
    ensures k <= -1 ==> d * k <= -d
  {
    if k >= 1 { assert d * k == d + d * (k - 1) && d * (k - 1) >= 0; }
    if k <= -1 { assert d * k == -d + d * (k + 1) && d * (k + 1) <= 0; }
  }

  function Word(s: seq<byte>, i: nat): (w: nat)
    requires i + 2 <= |s|
    ensures w < 0x10000
  {
    s[i] as int + 256 * s[i + 1] as int
  }

  /** The word at i is v, low byte first. */
  predicate WordIs(s: seq<byte>, i: nat, v: int) {
    i + 2 <= |s| && (s[i] as int) + 256 * (s[i + 1] as int) == v
  }

  function Le16(v: nat): (s: seq<byte>)
    requires v < 0x10000
    ensures |s| == 2 && Word(s, 0) == v
  {
    [v % 256, v / 256]
  }

  predicate AllBelow(s: seq<nat>, n: nat) {
    forall i | 0 <= i < |s| :: s[i] < n
  }

  /** Little-endian words, one after another. */
  function Words(values: seq<nat>): (s: seq<byte>)
    requires AllBelow(values, 0x10000)
    ensures |s| == 2 * |values|
    ensures forall i | 0 <= i < |values| :: Word(s, 2 * i) == values[i]
  {
    if values == [] then [] else
      Words(values[..|values| - 1]) + Le16(values[|values| - 1])
  }

  /** `sum(data)`. */
  function Sum(s: seq<byte>): nat {
    if s == [] then 0 else Sum(s[..|s| - 1]) + s[|s| - 1]
  }

  /** The three laws that fix the sum: nothing sums to zero, a byte to itself, and a concatenation
      to the two sums added. */
  lemma {:induction false} SumLaws(a: seq<byte>, b: seq<byte>, x: byte)
    ensures Sum([]) == 0 && Sum([x]) == x && Sum(a + b) == Sum(a) + Sum(b)
    decreases |b|
  {
    assert [x][..0] == [];
    if b == [] {
      assert a + b == a;
    } else {
      SumLaws(a, b[..|b| - 1], x);
      assert (a + b)[..|a + b| - 1] == a + b[..|b| - 1];
    }
  }

  /** `not any(data)`. */
  predicate AllZero(s: seq<byte>) { forall i | 0 <= i < |s| :: s[i] == 0 }

  function Zeros(n: nat): (s: seq<byte>)
    ensures |s| == n && forall i | 0 <= i < n :: s[i] == 0
  {
    seq(n, _ => 0)
  }

  /** `buffer[at:at+len(data)] = data`. */
  function Splice<T>(s: seq<T>, at: nat, data: seq<T>): (r: seq<T>)
    requires at + |data| <= |s|
    ensures |r| == |s|
    ensures forall i | 0 <= i < |s| :: r[i] == if at <= i < at + |data| then data[i - at] else s[i]
  {
    s[..at] + data + s[at + |data|..]
  }

  method Store(buffer: array<byte>, at: nat, data: seq<byte>)
    requires at + |data| <= buffer.Length
    modifies buffer
    ensures buffer[..] == Splice(old(buffer[..]), at, data)
  {
    for i := 0 to |data|
      invariant forall j | 0 <= j < buffer.Length ::
          buffer[j] == if at <= j < at + i then data[j - at] else old(buffer[j])
    {
      buffer[at + i] := data[i];
    }
  }
}
