/** Bytes, and numbers as little-endian bytes. */
module Bytes {
  import opened Arith

  type Byte = x: int | 0 <= x < 256

  datatype Result<T> = Ok(value: T) | Err(errno: Errno)

  /** The refusals of the codecs and the wire. */
  datatype Errno = EBADMSG | EFAULT | EINVAL | EOVERFLOW | ENOSPC

  const U32: nat := 0x1_0000_0000

  function Zeros(n: nat): (s: seq<Byte>)
    ensures |s| == n
    ensures forall k :: 0 <= k < n ==> s[k] == 0
  {
    seq(n, _ => 0)
  }

  /** A 32-bit number, its low byte first. */
  function Le4(x: nat): (s: seq<Byte>)
    ensures |s| == 4
  {
    [x % 256, x / 256 % 256, x / 256 / 256 % 256, x / 256 / 256 / 256 % 256]
  }

  function Load4(p: seq<Byte>, off: nat): (x: nat)
    requires off + 4 <= |p|
    ensures x < U32
  {
    var (a: int, b: int, c: int, d: int) := (p[off], p[off + 1], p[off + 2], p[off + 3]);
    a + 256 * (b + 256 * (c + 256 * d))
  }

  /** What is stored is what is loaded. */
  lemma LoadStored(p: seq<Byte>, off: nat, x: nat)
    requires off + 4 <= |p| && x < U32 && p[off..off + 4] == Le4(x)
    ensures Load4(p, off) == x
  {
    var s := p[off..off + 4];
    assert p[off] == s[0] && p[off + 1] == s[1] && p[off + 2] == s[2] && p[off + 3] == s[3];
  }

  /** The least multiple of `unit` at or past `n`. */
  function RoundUp(n: nat, unit: nat): (m: nat)
    requires unit > 0
    ensures n <= m < n + unit && m % unit == 0
  {
    var m := (n + unit - 1) / unit * unit;
    assert m % unit == 0 by { DivUnique(m, (n + unit - 1) / unit, 0, unit); }
    m
  }
}
