/** Bytes, and the fixed-width numbers container formats are written in. */
module Bytes {
  newtype Byte = b: int | 0 <= b < 256

  function U16BE(hi: Byte, lo: Byte): (n: nat)
    ensures n < 0x1_0000
  {
    hi as nat * 256 + lo as nat
  }

  lemma U16Apart(a: Byte, b: Byte, c: Byte, d: Byte)
    ensures U16BE(a, b) == U16BE(c, d) <==> a == c && b == d
  {}

  function U32BE(a: Byte, b: Byte, c: Byte, d: Byte): (n: nat) {
    ((a as nat * 256 + b as nat) * 256 + c as nat) * 256 + d as nat
  }

  lemma U32Apart(a: Byte, b: Byte, c: Byte, d: Byte, w: Byte, x: Byte, y: Byte, z: Byte)
    ensures U32BE(a, b, c, d) == U32BE(w, x, y, z) <==> a == w && b == x && c == y && d == z
  {
    U16Apart(a, b, w, x);
    U16Apart(c, d, y, z);
    assert U32BE(a, b, c, d) == U16BE(a, b) * 0x1_0000 + U16BE(c, d);
    assert U32BE(w, x, y, z) == U16BE(w, x) * 0x1_0000 + U16BE(y, z);
  }

  function U32LE(a: Byte, b: Byte, c: Byte, d: Byte): (n: nat) {
    U32BE(d, c, b, a)
  }

  /** Four bytes, least significant first. */
  function LE4(n: nat): (s: seq<Byte>)
    ensures |s| == 4
  {
    [(n % 256) as Byte, (n / 256 % 256) as Byte, (n / 65536 % 256) as Byte, (n / 16777216 % 256) as Byte]
  }

  lemma LE4RoundTrip(n: nat)
    requires n < 0x1_0000_0000
    ensures var s := LE4(n); U32LE(s[0], s[1], s[2], s[3]) == n
  {
    assert n == 256 * (n / 256) + n % 256;
    assert n / 256 == 256 * (n / 65536) + n / 256 % 256;
    assert n / 65536 == 256 * (n / 16777216) + n / 65536 % 256;
  }

  function Min(a: nat, b: nat): nat {
    if a <= b then a else b
  }

  /** A buffer slice with its end clamped to the buffer. */
  function Sub(s: seq<Byte>, from: nat, to: nat): seq<Byte> {
    if from <= Min(to, |s|) then s[from..Min(to, |s|)] else []
  }

  /** What is left of a buffer from an index that may have run past its end. */
  function Rest(s: seq<Byte>, from: nat): seq<Byte> {
    if from <= |s| then s[from..] else []
  }

  /** Cutting a buffer at an index, and cutting what is left of it. */
  lemma SubRest(s: seq<Byte>, i: nat, n: nat)
    requires i <= |s|
    ensures Rest(s, i)[..Min(n, |s| - i)] == Sub(s, i, i + n)
    ensures Rest(s, i)[Min(n, |s| - i)..] == Rest(s, i + n)
  {}

  /** A four-letter tag. */
  datatype Tag = Tag(a: Byte, b: Byte, c: Byte, d: Byte)

  function Letters(s: seq<Byte>, i: nat): Tag
    requires i + 4 <= |s|
  {
    Tag(s[i], s[i + 1], s[i + 2], s[i + 3])
  }
}
