/** Bytes, zero-padded C strings and the byte order of 32-bit words.  The host is little-endian, so
    going to and from network order reverses the bytes of a word. */
module Octets {

  type byte = b: int | 0 <= b < 256

  // ----- C strings -----

  predicate IsCString(s: seq<byte>) {
    forall i :: 0 <= i < |s| ==> s[i] != 0
  }

  /** The content of a C string. */
  type Name = s: seq<byte> | IsCString(s)

  function Zeros(n: nat): (z: seq<byte>)
    ensures |z| == n && forall i :: 0 <= i < n ==> z[i] == 0
  {
    seq(n, _ => 0)
  }

  predicate AllZero(s: seq<byte>) {
    forall i :: 0 <= i < |s| ==> s[i] == 0
  }

  /** strlen: the position of the first zero byte, or the length of s when there is none. */
  function StrLen(s: seq<byte>): (n: nat)
    ensures n <= |s| && (n < |s| ==> s[n] == 0)
    ensures forall i :: 0 <= i < n ==> s[i] != 0
  {
    if s == [] || s[0] == 0 then 0 else 1 + StrLen(s[1..])
  }

  lemma StrLenIs(s: seq<byte>, n: nat)
    requires n < |s| && s[n] == 0 && forall i :: 0 <= i < n ==> s[i] != 0
    ensures StrLen(s) == n
  {}

  /** The size of n bytes and a terminator, padded to a multiple of four: always at least one zero. */
  function PaddedSize(n: nat): (r: nat)
    ensures n < r <= n + 4 && r % 4 == 0
  {
    4 * (n / 4 + 1)
  }

  function Padded(s: seq<byte>): (r: seq<byte>)
    ensures |r| == PaddedSize(|s|)
  {
    s + Zeros(PaddedSize(|s|) - |s|)
  }

  lemma PaddedIs(r: seq<byte>, s: seq<byte>)
    requires s <= r && |r| == PaddedSize(|s|) && AllZero(r[|s|..])
    ensures r == Padded(s)
  {
    assert r == s + r[|s|..];
  }

  lemma PaddedLength(s: seq<byte>, rest: seq<byte>)
    requires IsCString(s)
    ensures StrLen(Padded(s) + rest) == |s|
  {
    StrLenIs(Padded(s) + rest, |s|);
  }

  // ----- Words -----

  function Reverse(s: seq<byte>): (r: seq<byte>)
    ensures |r| == |s| && forall i :: 0 <= i < |s| ==> r[i] == s[|s| - 1 - i]
  {
    seq(|s|, i requires 0 <= i < |s| => s[|s| - 1 - i])
  }

  lemma ReverseTwice(s: seq<byte>)
    ensures Reverse(Reverse(s)) == s
  {}

  const TWO8 := 0x100
  const TWO16 := 0x1_0000
  const TWO24 := 0x100_0000
  const TWO32 := 0x1_0000_0000

  /** What fits 32 bits is not changed by 32-bit arithmetic. */
  lemma SmallStays(n: nat)
    requires n < TWO32
    ensures n % TWO32 == n
  {}

  /** The value of a 32-bit word in host order. */
  function HostValue(w: seq<byte>): (n: nat)
    requires |w| == 4
    ensures n < TWO32
  {
    w[0] + TWO8 * w[1] + TWO16 * w[2] + TWO24 * w[3]
  }

  function HostWord(n: nat): (w: seq<byte>)
    requires n < TWO32
    ensures |w| == 4
  {
    [n % TWO8, n / TWO8 % TWO8, n / TWO16 % TWO8, n / TWO24]
  }

  /** The value and the bytes of a 32-bit word in network order, most significant byte first. */
  function NetValue(w: seq<byte>): (n: nat)
    requires |w| == 4
    ensures n < TWO32
  {
    TWO24 * w[0] + TWO16 * w[1] + TWO8 * w[2] + w[3]
  }

  function NetWord(n: nat): (w: seq<byte>)
    requires n < TWO32
    ensures |w| == 4
  {
    [n / TWO24, n / TWO16 % TWO8, n / TWO8 % TWO8, n % TWO8]
  }

  /** Reversing the bytes of a word takes host order to network order and back. */
  lemma WordOrder(n: nat)
    requires n < TWO32
    ensures Reverse(HostWord(n)) == NetWord(n) && Reverse(NetWord(n)) == HostWord(n)
  {}

  lemma WordValue(n: nat)
    requires n < TWO32
    ensures HostValue(HostWord(n)) == n && NetValue(NetWord(n)) == n
  {
    var q := n / TWO8;
    assert q / TWO8 == n / TWO16 && q / TWO16 == n / TWO24;
    assert n == n % TWO8 + TWO8 * q;
    assert q == q % TWO8 + TWO8 * (q / TWO8);
    assert q / TWO8 == q / TWO8 % TWO8 + TWO8 * (q / TWO16);
  }

  lemma ValueWord(w: seq<byte>)
    requires |w| == 4
    ensures HostWord(HostValue(w)) == w && NetWord(NetValue(w)) == w
  {
    ByteSplit(w[0], w[1], w[2], w[3]);
    ByteSplit(w[3], w[2], w[1], w[0]);
  }

  lemma ByteSplit(a: byte, b: byte, c: byte, d: byte)
    ensures var n := a + TWO8 * b + TWO16 * c + TWO24 * d;
      n % TWO8 == a && n / TWO8 % TWO8 == b && n / TWO16 % TWO8 == c && n / TWO24 == d
  {
    var n := a + TWO8 * b + TWO16 * c + TWO24 * d;
    assert n / TWO8 == b + TWO8 * c + TWO16 * d;
    assert n / TWO16 == c + TWO8 * d;
  }
}
