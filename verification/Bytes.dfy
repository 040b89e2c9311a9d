/** Bytes, little-endian 32-bit words and the 4-byte alignment used by RecordIO. */
module Bytes {

  newtype byte = b: int | 0 <= b < 256

  const TWO_TO_THE_32: nat := 0x1_0000_0000

  /** The 32-bit word stored little-endian at offset i. */
  function Word(s: seq<byte>, i: nat): (w: nat)
    requires i + 4 <= |s|
    ensures w < TWO_TO_THE_32
  {
    s[i] as int + 0x100 * s[i + 1] as int + 0x1_0000 * s[i + 2] as int + 0x100_0000 * s[i + 3] as int
  }

  /** The four bytes of a 32-bit word, least significant first. */
  function WordBytes(w: nat): (b: seq<byte>)
    requires w < TWO_TO_THE_32
    ensures |b| == 4
  {
    [(w % 0x100) as byte, (w / 0x100 % 0x100) as byte, (w / 0x1_0000 % 0x100) as byte, (w / 0x100_0000) as byte]
  }

  lemma WordOfBytes(w: nat, rest: seq<byte>)
    requires w < TWO_TO_THE_32
    ensures Word(WordBytes(w) + rest, 0) == w
  {
    assert w / 0x1_0000 == w / 0x100 / 0x100;
    assert w / 0x100_0000 == w / 0x1_0000 / 0x100;
  }

  lemma BytesOfWord(s: seq<byte>, i: nat)
    requires i + 4 <= |s|
    ensures WordBytes(Word(s, i)) == s[i..i + 4]
  {
    var w := Word(s, i);
    assert w / 0x100 == s[i + 1] as int + 0x100 * s[i + 2] as int + 0x1_0000 * s[i + 3] as int;
    assert w / 0x1_0000 == s[i + 2] as int + 0x100 * s[i + 3] as int;
    assert w / 0x100_0000 == s[i + 3] as int;
  }

  /** The smallest multiple of 4 that is at least n: ((n + 3) >> 2) << 2. */
  function UpperAlign(n: nat): (u: nat)
    ensures n <= u < n + 4 && u % 4 == 0
    ensures n % 4 == 0 ==> u == n
  {
    (n + 3) / 4 * 4
  }

  /** The largest multiple of 4 that is at most n: (n >> 2) << 2. */
  function LowerAlign(n: nat): (u: nat)
    ensures u <= n < u + 4 && u % 4 == 0
  {
    n / 4 * 4
  }

  function Zeros(n: nat): (z: seq<byte>)
    ensures |z| == n && forall i :: 0 <= i < n ==> z[i] == 0
  {
    seq(n, i => 0)
  }

  function Min(a: int, b: int): int {
    if a <= b then a else b
  }
}
