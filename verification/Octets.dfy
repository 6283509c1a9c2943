/** Byte strings as the wire formats use them: numbers below 256 in sequence.

The address scheme works on single bits and uses bit vectors (module Bits); the
handshake and the debug protocol only move whole bytes and big-endian numbers,
for which integers are the better model. */
module Octets {
  newtype Octet = x: int | 0 <= x < 256

  type Octets = seq<Octet>
  type U16 = x: int | 0 <= x < 0x1_0000
  type U32 = x: int | 0 <= x < 0x1_0000_0000

  function PutU16(x: U16): (b: Octets)
    ensures |b| == 2 && GetU16(b) == x
  {
    [(x / 256) as Octet, (x % 256) as Octet]
  }

  function GetU16(b: Octets): U16
    requires |b| == 2
  {
    b[0] as int * 256 + b[1] as int
  }

  function PutU32(x: U32): (b: Octets)
    ensures |b| == 4 && GetU32(b) == x
  {
    var hi, lo := PutU16(x / 0x1_0000), PutU16(x % 0x1_0000);
    assert (hi + lo)[..2] == hi && (hi + lo)[2..] == lo;
    hi + lo
  }

  function GetU32(b: Octets): U32
    requires |b| == 4
  {
    GetU16(b[..2]) * 0x1_0000 + GetU16(b[2..])
  }

  lemma PutGetU16(b: Octets)
    requires |b| == 2
    ensures PutU16(GetU16(b)) == b
  {
  }

  /** bytes.Compare(a, b) > 0. */
  predicate Greater(a: Octets, b: Octets) {
    if a == [] then false
    else if b == [] then true
    else if a[0] != b[0] then a[0] > b[0]
    else Greater(a[1..], b[1..])
  }

  /** Exactly one of two different strings is the greater. */
  lemma {:induction false} GreaterExactlyOne(a: Octets, b: Octets)
    ensures a != b ==> Greater(a, b) == !Greater(b, a)
    ensures a == b ==> !Greater(a, b)
  {
    if a != [] && b != [] && a[0] == b[0] {
      GreaterExactlyOne(a[1..], b[1..]);
      assert a == [a[0]] + a[1..] && b == [b[0]] + b[1..];
    }
  }
}
