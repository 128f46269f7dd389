/** Bytes, the fixed-width integers of the C code, and big-endian fields.

    Buffers are sequences (when only read) or arrays (when written). Every writer in the
    project has the same contract shape: what lies before the write position is kept, the
    bytes it promises follow, and anything after them may have been used as scratch space. */
module Bytes {
  type byte = b: int | 0 <= b < 0x100
  type uint8 = n: int | 0 <= n < 0x100
  type uint16 = n: int | 0 <= n < 0x1_0000
  type uint32 = n: int | 0 <= n < 0x1_0000_0000
  type uint64 = n: int | 0 <= n < 0x1_0000_0000_0000_0000
  type int64 = n: int | -0x8000_0000_0000_0000 <= n < 0x8000_0000_0000_0000

  const INT_MAX: int := 0x7FFF_FFFF
  const UINT64_MAX: int := 0xFFFF_FFFF_FFFF_FFFF
  const INT64_MAX: int := 0x7FFF_FFFF_FFFF_FFFF
  const INT64_MIN: int := -0x8000_0000_0000_0000

  datatype Option<+T> = None | Some(value: T)

  function Min(a: int, b: int): (m: int)
    ensures m <= a && m <= b && (m == a || m == b)
  {
    if a < b then a else b
  }

  function Pow256(n: nat): (p: nat)
    ensures p > 0
  {
    if n == 0 then 1 else 256 * Pow256(n - 1)
  }

  /** The low `n` bytes of `v`, most significant first. */
  function ToBigEndian(v: nat, n: nat): (s: seq<byte>)
    ensures |s| == n
  {
    if n == 0 then [] else ToBigEndian(v / 256, n - 1) + [v % 256]
  }

  function FromBigEndian(s: seq<byte>): nat
  {
    if s == [] then 0 else FromBigEndian(s[..|s| - 1]) * 256 + s[|s| - 1]
  }

  lemma {:induction false} BigEndianRoundTrip(v: nat, n: nat)
    requires v < Pow256(n)
    ensures FromBigEndian(ToBigEndian(v, n)) == v
  {
    if n > 0 {
      BigEndianRoundTrip(v / 256, n - 1);
      assert ToBigEndian(v, n)[..n - 1] == ToBigEndian(v / 256, n - 1);
    }
  }

  lemma {:induction false} FromBigEndianBound(s: seq<byte>)
    ensures FromBigEndian(s) < Pow256(|s|)
  {
    if s != [] {
      FromBigEndianBound(s[..|s| - 1]);
    }
  }

  /** The two's complement reading of an unsigned field of `n` bytes. */
  function Signed(u: nat, n: nat): int
  {
    if 2 * u < Pow256(n) then u else u - Pow256(n)
  }

  /** Does `i` fit a signed field of `n` bytes? */
  predicate FitsSigned(i: int, n: nat) {
    0 <= 2 * i + Pow256(n) && 2 * i < Pow256(n)
  }

  /** The field of `n` bytes that holds `i` in two's complement. */
  function TwosComplement(i: int, n: nat): (u: nat)
    requires FitsSigned(i, n)
    ensures u < Pow256(n)
    ensures Signed(u, n) == i
  {
    if i >= 0 then i else i + Pow256(n)
  }

  lemma {:induction false} ConcatAssociative<T>(a: seq<T>, b: seq<T>, c: seq<T>)
    ensures (a + b) + c == a + (b + c)
  {
  }

  /** Does the buffer hold these bytes at this place? */
  predicate Holds(buffer: seq<byte>, at: nat, part: seq<byte>) {
    at + |part| <= |buffer| && buffer[at..at + |part|] == part
  }

  lemma {:induction false} HoldsParts(buffer: seq<byte>, at: nat, x: seq<byte>, y: seq<byte>)
    requires Holds(buffer, at, x + y)
    ensures Holds(buffer, at, x) && Holds(buffer, at + |x|, y)
  {
    assert buffer[at..at + |x|] == buffer[at..at + |x + y|][..|x|];
    assert buffer[at + |x|..at + |x| + |y|] == buffer[at..at + |x + y|][|x|..];
  }

  /** What a part leaves of the buffer. */
  lemma {:induction false} HoldsRest(buffer: seq<byte>, at: nat, part: seq<byte>)
    requires Holds(buffer, at, part)
    ensures at + |part| <= |buffer| && buffer[at..] == part + buffer[at + |part|..]
  {
  }

  lemma {:induction false} HoldsWithin(buffer: seq<byte>, start: nat, at: nat, part: seq<byte>)
    requires start <= |buffer|
    ensures Holds(buffer, start + at, part) <==> Holds(buffer[start..], at, part)
  {
    if start + at + |part| <= |buffer| {
      assert buffer[start..][at..at + |part|] == buffer[start + at..start + at + |part|];
    }
  }

  lemma {:induction false} SmallMod(a: nat, m: nat)
    requires a < m
    ensures a % m == a
  {
  }

  /** `bytes` were written at `at`: everything before is kept, what follows is unspecified. */
  ghost predicate Wrote(before: seq<byte>, after: seq<byte>, at: nat, bytes: seq<byte>) {
    && |after| == |before|
    && at + |bytes| <= |after|
    && after[..at + |bytes|] == before[..at] + bytes
  }

  lemma {:induction false} WroteMore(s0: seq<byte>, s1: seq<byte>, s2: seq<byte>, at: nat, x: seq<byte>, y: seq<byte>)
    requires Wrote(s0, s1, at, x) && Wrote(s1, s2, at + |x|, y)
    ensures Wrote(s0, s2, at, x + y)
  {
    assert s0[..at] + (x + y) == (s0[..at] + x) + y;
  }

  /** `memcpy` into a buffer. */
  method CopyBytes(buffer: array<byte>, at: nat, source: seq<byte>)
    requires at + |source| <= buffer.Length
    modifies buffer
    ensures Wrote(old(buffer[..]), buffer[..], at, source)
    ensures buffer[at + |source|..] == old(buffer[at + |source|..])
  {
    forall i | 0 <= i < |source| {
      buffer[at + i] := source[i];
    }
  }
}
