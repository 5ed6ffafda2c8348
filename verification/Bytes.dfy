// Bytes, big-endian integers and byte search: the parts of encoding/binary and
// package bytes that the wire protocols use.
module Bytes {

  type byte = b: int | 0 <= b < 0x100

  const TWO_TO_THE_16 := 0x1_0000
  const TWO_TO_THE_31 := 0x8000_0000
  const TWO_TO_THE_32 := 0x1_0000_0000

  // The four bytes of uint32(n): Go truncates modulo 2^32, for negative n too.
  function Be32(n: int): (r: seq<byte>)
    ensures |r| == 4
  {
    var m := n % TWO_TO_THE_32;
    [m / 0x100_0000, m / 0x1_0000 % 0x100, m / 0x100 % 0x100, m % 0x100]
  }

  // The two bytes of uint16(n).
  function Be16(n: int): (r: seq<byte>)
    ensures |r| == 2
  {
    var m := n % TWO_TO_THE_16;
    [m / 0x100, m % 0x100]
  }

  function FromBe32(b: seq<byte>): (n: nat)
    requires |b| >= 4
    ensures n < TWO_TO_THE_32
  {
    b[0] as int * 0x100_0000 + b[1] as int * 0x1_0000 + b[2] as int * 0x100 + b[3]
  }

  function FromBe16(b: seq<byte>): (n: nat)
    requires |b| >= 2
    ensures n < TWO_TO_THE_16
  {
    b[0] as int * 0x100 + b[1]
  }

  // int32(u) of an unsigned 32-bit value.
  function Signed32(u: nat): int
    requires u < TWO_TO_THE_32
  {
    if u < TWO_TO_THE_31 then u else u - TWO_TO_THE_32
  }

  // Position of the first occurrence of c, or -1 (bytes.IndexByte).
  function IndexByte(b: seq<byte>, c: byte): (i: int)
    ensures -1 <= i < |b|
    ensures i >= 0 ==> b[i] == c && c !in b[..i]
    ensures i == -1 <==> c !in b
  {
    if c !in b then -1
    else
      FirstExists(b, c);
      var i :| 0 <= i < |b| && b[i] == c && c !in b[..i];
      i
  }

  lemma {:induction false} FirstExists(b: seq<byte>, c: byte)
    requires c in b
    ensures exists i :: 0 <= i < |b| && b[i] == c && c !in b[..i]
  {
    var n := |b| - 1;
    if c in b[..n] {
      FirstExists(b[..n], c);
      var i :| 0 <= i < n && b[..n][i] == c && c !in b[..n][..i];
      assert b[..n][..i] == b[..i];
    } else {
      assert b[n] == c;
    }
  }

  // The bytes of an ASCII string literal.
  function Ascii(s: string): (b: seq<byte>)
    ensures |b| == |s|
    ensures forall i :: 0 <= i < |s| && s[i] as int < 0x80 ==> b[i] == s[i] as int
  {
    seq(|s|, i requires 0 <= i < |s| => s[i] as int % 0x80)
  }

  lemma IndexByteIsFirst(b: seq<byte>, c: byte, i: nat)
    requires i < |b| && b[i] == c && c !in b[..i]
    ensures IndexByte(b, c) == i
  {
  }

  // Reading back a written 32-bit value gives it modulo 2^32, and as a signed
  // value exactly when it fits in 32 bits.
  lemma Be32RoundTrip(n: int, tail: seq<byte>)
    ensures FromBe32(Be32(n) + tail) == n % TWO_TO_THE_32
    ensures Signed32(FromBe32(Be32(n) + tail)) == n <==> -TWO_TO_THE_31 <= n < TWO_TO_THE_31
  {
    var m := n % TWO_TO_THE_32;
    var b := Be32(n) + tail;
    assert b[0] == m / 0x100_0000 && b[1] == m / 0x1_0000 % 0x100;
    assert b[2] == m / 0x100 % 0x100 && b[3] == m % 0x100;
    FourBytes(m);
  }

  lemma FourBytes(m: nat)
    ensures m / 0x100_0000 * 0x100_0000 + m / 0x1_0000 % 0x100 * 0x1_0000 + m / 0x100 % 0x100 * 0x100 + m % 0x100 == m
  {
    LastByte(m);
    LastByte(m / 0x100);
    LastByte(m / 0x1_0000);
    assert m / 0x100 / 0x100 == m / 0x1_0000 && m / 0x1_0000 / 0x100 == m / 0x100_0000;
  }

  lemma LastByte(m: nat)
    ensures m / 0x100 * 0x100 + m % 0x100 == m
  {
  }

  lemma Be16RoundTrip(n: int, tail: seq<byte>)
    ensures FromBe16(Be16(n) + tail) == n % TWO_TO_THE_16
    ensures FromBe16(Be16(n) + tail) == n <==> 0 <= n < TWO_TO_THE_16
  {
    var m := n % TWO_TO_THE_16;
    var b := Be16(n) + tail;
    assert b[0] == m / 0x100 && b[1] == m % 0x100;
    assert FromBe16(b) == m;
  }

  // The value of four bytes, the most significant first.
  function Value32(a: byte, b: byte, c: byte, d: byte): (n: nat)
    ensures n < TWO_TO_THE_32
  {
    16777216 * (a as int) + 65536 * (b as int) + 256 * (c as int) + d
  }

  // Written and read, the most significant byte comes first.
  lemma BigEndian(a: byte, b: byte, c: byte, d: byte, tail: seq<byte>)
    ensures Be32(Value32(a, b, c, d)) == [a, b, c, d]
    ensures FromBe32([a, b, c, d] + tail) == Value32(a, b, c, d)
  {
    var n := Value32(a, b, c, d);
    TopBytes(n, a, b, c, d);
    BytesOf(n);
    FirstFour([a, b, c, d], tail);
  }

  lemma BytesOf(n: nat)
    requires n < TWO_TO_THE_32
    ensures Be32(n) == [n / 0x100_0000, n / 0x1_0000 % 0x100, n / 0x100 % 0x100, n % 0x100]
  {
    assert n % TWO_TO_THE_32 == n;
  }

  lemma FirstFour(x: seq<byte>, tail: seq<byte>)
    requires |x| == 4
    ensures FromBe32(x + tail) == Value32(x[0], x[1], x[2], x[3])
  {
  }

  lemma TopBytes(n: nat, a: byte, b: byte, c: byte, d: byte)
    requires n == Value32(a, b, c, d)
    ensures n / 0x100_0000 == a as int && n / 0x1_0000 % 0x100 == b as int
    ensures n / 0x100 % 0x100 == c as int && n % 0x100 == d as int
  {
    var ab: nat := 256 * (a as int) + b;
    var abc: nat := 256 * ab + c;
    assert n == 256 * abc + d == 0x1_0000 * ab + (256 * (c as int) + d)
        == 0x100_0000 * (a as int) + (0x1_0000 * (b as int) + 256 * (c as int) + d);
    LowByte(abc, d);
    LowByte(ab, c);
    LowByte(a, b);
    assert n / 0x1_0000 == ab && n / 0x100_0000 == a as int;
  }

  lemma BigEndian16(a: byte, b: byte, tail: seq<byte>)
    ensures Be16(256 * (a as int) + b) == [a, b]
    ensures FromBe16([a, b] + tail) == 256 * (a as int) + b
  {
    LowByte(a, b);
    TwoBytesOf(256 * (a as int) + b);
    FirstTwo([a, b], tail);
  }

  lemma TwoBytesOf(n: nat)
    requires n < TWO_TO_THE_16
    ensures Be16(n) == [n / 0x100, n % 0x100]
  {
    assert n % TWO_TO_THE_16 == n;
  }

  lemma FirstTwo(x: seq<byte>, tail: seq<byte>)
    requires |x| == 2
    ensures FromBe16(x + tail) == 256 * (x[0] as int) + x[1]
  {
  }

  lemma LowByte(high: nat, low: byte)
    ensures (256 * high + low) / 256 == high && (256 * high + low) % 256 == low
  {
  }
}
