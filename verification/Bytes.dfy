/**
 Byte strings, zero padding, splicing and big-endian integers.

 Every block-device statement in this project is phrased over these few
 functions: a device is a byte string, a read is a slice of it and a write
 splices into it.
 */
module Bytes {

  type Byte = b: int | 0 <= b < 256
  type Bytes = seq<Byte>

  datatype Option<+T> = None | Some(value: T)

  /** `Panic` is an index out of bounds or a negative allocation: it ends the whole program. */
  datatype Error = NotFound | OutOfRange | Io | Panic

  datatype Result<+T> = Ok(value: T) | Err(error: Error)

  function Min(a: int, b: int): int {
    if a < b then a else b
  }

  function Max(a: int, b: int): int {
    if a > b then a else b
  }

  /** A non-empty set has a member. */
  lemma Member<T>(s: set<T>) returns (x: T)
    requires s != {}
    ensures x in s
  {
    x :| x in s;
  }

  /** Whether the next file, store or repository operation fails: anything may, unless it is reliable. */
  method OperationFails(reliable: bool) returns (fails: bool)
    ensures reliable ==> !fails
  {
    fails := *;
    fails := fails && !reliable;
  }

  function Zeros(n: nat): (z: Bytes)
    ensures |z| == n
    ensures forall i :: 0 <= i < n ==> z[i] == 0
  {
    seq(n, _ => 0)
  }

  /** Overwrites `v` with `data` from position `at` on. */
  function Splice(v: Bytes, at: nat, data: Bytes): (r: Bytes)
    requires at + |data| <= |v|
    ensures |r| == |v|
    ensures forall p :: 0 <= p < |v| ==> r[p] == if at <= p < at + |data| then data[p - at] else v[p]
  {
    v[..at] + data + v[at + |data|..]
  }

  /** What a positioned read into a zeroed buffer of `length` bytes yields: the slice, zero-padded past the end. */
  function PaddedSlice(s: Bytes, offset: nat, length: nat): (r: Bytes)
    ensures |r| == length
    ensures forall i :: 0 <= i < length ==> r[i] == if offset + i < |s| then s[offset + i] else 0
  {
    seq(length, i requires 0 <= i < length => if offset + i < |s| then s[offset + i] else 0)
  }

  lemma PaddedSliceInside(s: Bytes, offset: nat, length: nat)
    requires offset + length <= |s|
    ensures PaddedSlice(s, offset, length) == s[offset..offset + length]
  {
  }

  /** `after` is `before` with some front part of `data` spliced in at `at`. */
  ghost predicate PrefixApplied(before: Bytes, at: int, data: Bytes, after: Bytes) {
    && 0 <= at && at + |data| <= |before|
    && exists n :: 0 <= n <= |data| && after == Splice(before, at, data[..n])
  }

  lemma SpliceNothing(v: Bytes, at: nat, data: Bytes)
    requires at <= |v|
    ensures Splice(v, at, data[..0]) == v
  {
  }

  /** Splicing two adjacent pieces in order is one splice of their concatenation. */
  lemma SpliceAdjacent(v: Bytes, at: nat, a: Bytes, b: Bytes)
    requires at + |a| + |b| <= |v|
    ensures Splice(Splice(v, at, a), at + |a|, b) == Splice(v, at, a + b)
  {
  }

  /** A slice of a slice is a slice. */
  lemma SliceOfSlice(v: Bytes, at: nat, size: nat, from: nat, to: nat)
    requires at + size <= |v| && from <= to <= size
    ensures v[at..at + size][from..to] == v[at + from..at + to]
  {
    var a, b := v[at..at + size][from..to], v[at + from..at + to];
    assert forall i :: 0 <= i < to - from ==> a[i] == v[at + (from + i)] && b[i] == v[(at + from) + i];
  }

  // ----- Big-endian unsigned integers -----

  function Pow256(n: nat): (p: nat)
    ensures p >= 1
  {
    if n == 0 then 1 else 256 * Pow256(n - 1)
  }

  /** The `n`-byte big-endian form of `x`. */
  function PutUint(n: nat, x: nat): (b: Bytes)
    ensures |b| == n
  {
    if n == 0 then [] else PutUint(n - 1, x / 256) + [x % 256]
  }

  function Uint(b: Bytes): (x: nat)
    ensures x < Pow256(|b|)
  {
    if b == [] then 0 else Uint(b[..|b| - 1]) * 256 + b[|b| - 1]
  }

  lemma {:induction false} UintOfPutUint(n: nat, x: nat)
    requires x < Pow256(n)
    ensures Uint(PutUint(n, x)) == x
  {
    if n != 0 {
      UintOfPutUint(n - 1, x / 256);
      assert PutUint(n, x)[..n - 1] == PutUint(n - 1, x / 256);
    }
  }

  /** Two byte strings of one length with one value are equal. */
  lemma {:induction false} UintInjective(a: Bytes, b: Bytes)
    requires |a| == |b| && Uint(a) == Uint(b)
    ensures a == b
  {
    if a != [] {
      var n := |a| - 1;
      UintInjective(a[..n], b[..n]);
      assert a == a[..n] + [a[n]] && b == b[..n] + [b[n]];
    }
  }

  /** So the big-endian form of a value that was read is what it was read from. */
  lemma PutUintOfUint(b: Bytes)
    ensures PutUint(|b|, Uint(b)) == b
  {
    UintOfPutUint(|b|, Uint(b));
    UintInjective(PutUint(|b|, Uint(b)), b);
  }

  // The most significant byte comes first: the values written out.

  lemma Uint2(b: Bytes)
    requires |b| == 2
    ensures
      var x: seq<int> := b;
      Uint(b) == 0x100 * x[0] + x[1]
  {
    assert b[..1][..0] == [];
    assert Uint(b[..1]) == b[0];
  }

  lemma Uint4(b: Bytes)
    requires |b| == 4
    ensures
      var x: seq<int> := b;
      Uint(b) == 0x100_0000 * x[0] + 0x1_0000 * x[1] + 0x100 * x[2] + x[3]
  {
    Uint2(b[..2]);
    assert b[..3][..2] == b[..2];
    assert Uint(b[..3]) == Uint(b[..2]) * 0x100 + b[2];
  }

  lemma Uint8(b: Bytes)
    requires |b| == 8
    ensures
      var x: seq<int> := b;
      Uint(b) == 0x100_0000_0000_0000 * x[0] + 0x1_0000_0000_0000 * x[1] + 0x100_0000_0000 * x[2]
                 + 0x1_0000_0000 * x[3] + 0x100_0000 * x[4] + 0x1_0000 * x[5] + 0x100 * x[6] + x[7]
  {
    Uint4(b[..4]);
    assert b[..5][..4] == b[..4] && b[..6][..5] == b[..5] && b[..7][..6] == b[..6];
    assert Uint(b[..5]) == Uint(b[..4]) * 0x100 + b[4];
    assert Uint(b[..6]) == Uint(b[..5]) * 0x100 + b[5];
    assert Uint(b[..7]) == Uint(b[..6]) * 0x100 + b[6];
  }

  /** The bytes of a value below 2^16, 2^32 or 2^64 are the ones with that value. */
  lemma PutUintIs(b: Bytes, x: nat)
    requires Uint(b) == x
    ensures PutUint(|b|, x) == b
  {
    PutUintOfUint(b);
  }

  lemma Pow256Values()
    ensures Pow256(2) == 0x1_0000
    ensures Pow256(4) == 0x1_0000_0000
    ensures Pow256(8) == 0x1_0000_0000_0000_0000
  {
    assert Pow256(1) == 256;
    assert Pow256(3) == 256 * Pow256(2);
    assert Pow256(5) == 256 * Pow256(4);
    assert Pow256(6) == 256 * Pow256(5);
    assert Pow256(7) == 256 * Pow256(6);
  }
}
