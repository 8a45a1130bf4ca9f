/** Bytes, fixed-width integers in both byte orders, and a file cursor. */
module Bytes {

  type byte = b: int | 0 <= b < 256

  type bytes = seq<byte>

  datatype Endian = Little | Big

  function Decode16(e: Endian, b: bytes): (x: nat)
    requires |b| == 2
    ensures x < 0x1_0000
  {
    var first: int, second: int := b[0], b[1];
    if e == Little then first + 256 * second else second + 256 * first
  }

  function Decode32(e: Endian, b: bytes): (x: nat)
    requires |b| == 4
    ensures x < 0x1_0000_0000
  {
    if e == Little then Decode16(e, b[..2]) + 0x1_0000 * Decode16(e, b[2..])
    else Decode16(e, b[2..]) + 0x1_0000 * Decode16(e, b[..2])
  }

  function Encode16(e: Endian, x: nat): (b: bytes)
    requires x < 0x1_0000
    ensures |b| == 2 && Decode16(e, b) == x
  {
    if e == Little then [x % 256, x / 256] else [x / 256, x % 256]
  }

  function Encode32(e: Endian, x: nat): (b: bytes)
    requires x < 0x1_0000_0000
    ensures |b| == 4 && Decode32(e, b) == x
  {
    var lo, hi := Encode16(e, x % 0x1_0000), Encode16(e, x / 0x1_0000);
    assert (lo + hi)[..2] == lo && (lo + hi)[2..] == hi;
    assert (hi + lo)[..2] == hi && (hi + lo)[2..] == lo;
    if e == Little then lo + hi else hi + lo
  }

  lemma Encode16Digits(e: Endian, a: byte, b: byte, x: nat)
    requires x == a * 256 + b
    ensures Encode16(e, x) == if e == Little then [b, a] else [a, b]
  {
    assert x % 256 == b && x / 256 == a;
  }

  /** The encoding of a number given by its four base-256 digits. */
  lemma Encode32Digits(e: Endian, a: byte, b: byte, c: byte, d: byte, x: nat)
    requires x == (a * 256 + b) * 0x1_0000 + (c * 256 + d)
    ensures Encode32(e, x) == if e == Little then [d, c, b, a] else [a, b, c, d]
  {
    hide Encode16, Decode16, Decode32;
    var hi: nat, lo: nat := a * 256 + b, c * 256 + d;
    assert x % 0x1_0000 == lo && x / 0x1_0000 == hi;
    Encode16Digits(e, a, b, hi);
    Encode16Digits(e, c, d, lo);
  }

  lemma Decode32Digits(e: Endian, a: byte, b: byte, c: byte, d: byte)
    ensures Decode32(e, [a, b, c, d])
      == if e == Little then (d * 256 + c) * 0x1_0000 + (b * 256 + a) else (a * 256 + b) * 0x1_0000 + (c * 256 + d)
  {
    var m := [a, b, c, d];
    assert m[..2] == [a, b] && m[2..] == [c, d];
  }

  /** Reading `n` bytes, or as many as are left; skipping `n` bytes, possibly past the end. */
  function Take(b: bytes, n: nat): bytes {
    if n <= |b| then b[..n] else b
  }

  function Drop(b: bytes, n: nat): bytes {
    if n <= |b| then b[n..] else []
  }

  lemma DropDrop(b: bytes, m: nat, n: nat)
    ensures Drop(Drop(b, m), n) == Drop(b, m + n)
  {
  }

  lemma DropWithin(b: bytes, n: nat)
    requires n <= |b|
    ensures Drop(b, n) == b[n..]
  {
  }

  lemma TakeJoin(a: bytes, b: bytes, n: nat)
    requires |a| <= n
    ensures Take(a + b, n) == a + Take(b, n - |a|)
  {
  }

  lemma TakeLength(b: bytes, n: nat)
    ensures |Take(b, n)| == if n < |b| then n else |b|
  {
  }

  lemma DropLength(b: bytes, n: nat)
    ensures |Drop(b, n)| == if n <= |b| then |b| - n else 0
  {
  }

  /** A binary file opened for reading. Seeking past the end is allowed; reading there yields nothing. */
  class ByteFile {
    const data: bytes
    var pos: nat

    constructor (data: bytes)
      ensures this.data == data && pos == 0
    {
      this.data := data;
      pos := 0;
    }

    function Rest(): bytes
      reads this
    {
      Drop(data, pos)
    }

    method Read(n: nat) returns (b: bytes)
      modifies this
      ensures b == Take(old(Rest()), n)
      ensures Rest() == Drop(old(Rest()), n)
    {
      b := Take(Rest(), n);
      pos := pos + |b|;
    }

    method Skip(n: nat)
      modifies this
      ensures Rest() == Drop(old(Rest()), n)
    {
      DropDrop(data, pos, n);
      pos := pos + n;
    }

    method SeekTo(n: nat)
      modifies this
      ensures Rest() == Drop(data, n)
    {
      pos := n;
    }
  }
}
