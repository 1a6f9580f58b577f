/** Byte strings and the little-endian fields that `struct` packs into them. */
module Bytes {

  type Byte = b: int | 0 <= b < 256

  const U16_LIMIT := 0x1_0000
  const U32_LIMIT := 0x1_0000_0000

  function Le16(v: nat): (b: seq<Byte>)
    requires v < U16_LIMIT
    ensures |b| == 2
  {
    [v % 256, v / 256]
  }

  function Le32(v: nat): (b: seq<Byte>)
    requires v < U32_LIMIT
    ensures |b| == 4
  {
    Le16(v % U16_LIMIT) + Le16(v / U16_LIMIT)
  }

  function U16At(b: seq<Byte>, off: nat): (v: nat)
    requires off + 2 <= |b|
    ensures v < U16_LIMIT
  {
    var low: int, high: int := b[off], b[off + 1];
    low + 256 * high
  }

  function U32At(b: seq<Byte>, off: nat): (v: nat)
    requires off + 4 <= |b|
    ensures v < U32_LIMIT
  {
    U16At(b, off) + U16_LIMIT * U16At(b, off + 2)
  }

  /** The lowest byte comes first. */
  lemma LittleEndian(b: seq<Byte>, off: nat)
    requires off + 4 <= |b|
    ensures var b0: int, b1: int, b2: int, b3: int := b[off], b[off + 1], b[off + 2], b[off + 3];
            U16At(b, off) == b0 + 0x100 * b1 && U32At(b, off) == b0 + 0x100 * b1 + 0x1_0000 * b2 + 0x100_0000 * b3
  {
    var b2: int, b3: int := b[off + 2], b[off + 3];
    assert U16At(b, off + 2) == b2 + 0x100 * b3;
  }

  /** `part` stands at offset `off` of `b`. */
  predicate At(b: seq<Byte>, off: nat, part: seq<Byte>)
  {
    off + |part| <= |b| && b[off..off + |part|] == part
  }

  lemma Le16At(b: seq<Byte>, off: nat, v: nat)
    requires v < U16_LIMIT && At(b, off, Le16(v))
    ensures U16At(b, off) == v
  {
    assert b[off] == b[off..off + 2][0] && b[off + 1] == b[off..off + 2][1];
  }

  lemma Le32At(b: seq<Byte>, off: nat, v: nat)
    requires v < U32_LIMIT && At(b, off, Le32(v))
    ensures U32At(b, off) == v
  {
    var w := b[off..off + 4];
    assert b[off] == w[0] && b[off + 1] == w[1] && b[off + 2] == w[2] && b[off + 3] == w[3];
  }

  /** Both halves of a concatenation stand where they should. */
  lemma AtParts(b: seq<Byte>, off: nat, first: seq<Byte>, second: seq<Byte>)
    ensures At(b, off, first + second) <==> At(b, off, first) && At(b, off + |first|, second)
  {
    if off + |first| + |second| <= |b| {
      var w := b[off..off + |first| + |second|];
      assert w[..|first|] == b[off..off + |first|];
      assert w[|first|..] == b[off + |first|..off + |first| + |second|];
      assert w == w[..|first|] + w[|first|..];
      assert (first + second)[..|first|] == first && (first + second)[|first|..] == second;
    }
  }

  /** `b` with `part` written over it at `off`, as `pack_into` and a slice assignment of equal length do. */
  function Splice(b: seq<Byte>, off: nat, part: seq<Byte>): (r: seq<Byte>)
    requires off + |part| <= |b|
    ensures |r| == |b|
    ensures At(r, off, part)
    ensures forall k :: 0 <= k < |b| && !(off <= k < off + |part|) ==> r[k] == b[k]
  {
    b[..off] + part + b[off + |part|..]
  }

  lemma SpliceKeeps(b: seq<Byte>, off: nat, part: seq<Byte>, other: nat, kept: seq<Byte>)
    requires off + |part| <= |b|
    requires At(b, other, kept)
    requires other + |kept| <= off || off + |part| <= other
    ensures At(Splice(b, off, part), other, kept)
  {
    var r := Splice(b, off, part);
    assert forall k :: other <= k < other + |kept| ==> r[k] == b[k];
    assert r[other..other + |kept|] == b[other..other + |kept|];
  }

  /** The bytes of an array with `part` written over them at `off`. */
  method PackInto(out: array<Byte>, off: nat, part: seq<Byte>)
    requires off + |part| <= out.Length
    modifies out
    ensures out[..] == Splice(old(out[..]), off, part)
  {
    forall k | 0 <= k < |part| {
      out[off + k] := part[k];
    }
    assert forall k :: 0 <= k < out.Length && !(off <= k < off + |part|) ==> out[..][k] == old(out[..])[k];
  }

  function Zeros(n: nat): (b: seq<Byte>)
    ensures |b| == n
    ensures forall k :: 0 <= k < n ==> b[k] == 0
  {
    seq(n, _ => 0)
  }

  /** The smallest multiple of `boundary` that is at least `value`. */
  function Align(value: nat, boundary: nat): (r: nat)
    requires boundary > 0
    ensures value <= r < value + boundary
    ensures r % boundary == 0
  {
    AlignIsMultiple(value, boundary);
    (value + boundary - 1) / boundary * boundary
  }

  lemma AlignIsMultiple(value: nat, boundary: nat)
    requires boundary > 0
    ensures var r := (value + boundary - 1) / boundary * boundary;
            value <= r < value + boundary && r % boundary == 0
  {
    var q, m := (value + boundary - 1) / boundary, (value + boundary - 1) % boundary;
    assert value + boundary - 1 == q * boundary + m;
    MultipleMod(q, boundary);
  }

  lemma MultipleMod(q: nat, d: nat)
    requires d > 0
    ensures q * d % d == 0
  {
    var k, m := q * d / d, q * d % d;
    assert (q - k) * d == m;
    if q > k {
      MultiplyMonotone(1, q - k, d);
    } else if q < k {
      MultiplyMonotone(1, k - q, d);
    }
  }

  lemma MultiplyMonotone(a: nat, b: nat, d: nat)
    requires a <= b
    ensures a * d <= b * d
  {
    assert (b - a) * d >= 0;
  }

  /**
   * Zero bytes to add to reach a multiple of 4; written as repeated subtraction, `PadCountIsMod` says it is the mask.
   */
  function PadCount(n: nat): (k: nat)
    ensures k < 4
  {
    if n >= 4 then PadCount(n - 4) else if n == 0 then 0 else 4 - n
  }

  predicate Aligned(n: nat)
  {
    n == 0 || (n >= 4 && Aligned(n - 4))
  }

  lemma {:induction false} PadCountIsMod(n: nat)
    ensures PadCount(n) == (4 - n % 4) % 4
    ensures Aligned(n) <==> n % 4 == 0
  {
    if n >= 4 { PadCountIsMod(n - 4); }
  }

  lemma {:induction false} PadShift(a: nat, n: nat)
    requires Aligned(a)
    ensures PadCount(a + n) == PadCount(n)
    ensures Aligned(a + n) <==> Aligned(n)
  {
    if a > 0 {
      PadShift(a - 4, n);
    }
  }

  lemma {:induction false} PadReaches(n: nat)
    ensures Aligned(n + PadCount(n))
  {
    if n >= 4 {
      PadReaches(n - 4);
    } else {
      assert n > 0 ==> Aligned(n + PadCount(n) - 4);
    }
  }

  lemma {:induction false} AlignedMultiple(n: nat)
    ensures Aligned(4 * n)
  {
    if n > 0 { AlignedMultiple(n - 1); }
  }

  /** `Align(v, 4)`, in the form that goes with `Aligned`. */
  function Align4(v: nat): nat
  {
    v + PadCount(v)
  }

  lemma Align4IsAlign(v: nat)
    ensures Align4(v) == Align(v, 4) && Aligned(Align4(v))
  {
    PadCountIsMod(v);
    PadReaches(v);
  }

  /** `struct.error`: a value does not fit its field. */
  datatype PackError = FieldOverflow

  /** US English, the language of every resource. */
  const LANG_EN_US: nat := 0x0409

  lemma ConcatAssociates<T>(a: seq<T>, b: seq<T>, c: seq<T>)
    ensures a + b + c == a + (b + c)
  {
  }

  lemma SliceShift(prefix: seq<Byte>, body: seq<Byte>, lo: nat, hi: nat)
    requires lo <= hi <= |body|
    ensures (prefix + body)[|prefix| + lo..|prefix| + hi] == body[lo..hi]
  {
  }
}
