/** Bytes as bit vectors.

Bits are numbered from the most significant bit of the first byte, the order
in which the address scheme and the key generators walk through a key. */
module Bits {

  type Bytes = seq<bv8>

  /** Bit i of one byte, 0 being the most significant. */
  predicate Bit(b: bv8, i: nat)
    requires i < 8
  {
    b & ((0x80 as bv8) >> i) != 0
  }

  /** Bit i of a byte string. */
  predicate BitAt(s: Bytes, i: nat)
    requires i < 8 * |s|
  {
    Bit(s[i / 8], i % 8)
  }

  // ----- one byte

  lemma ByteExtensional(a: bv8, b: bv8)
    requires forall i: nat | i < 8 :: Bit(a, i) == Bit(b, i)
    ensures a == b
  {
    assert Bit(a, 0) == Bit(b, 0) && Bit(a, 1) == Bit(b, 1) && Bit(a, 2) == Bit(b, 2) && Bit(a, 3) == Bit(b, 3);
    assert Bit(a, 4) == Bit(b, 4) && Bit(a, 5) == Bit(b, 5) && Bit(a, 6) == Bit(b, 6) && Bit(a, 7) == Bit(b, 7);
  }

  /** The first differing bit of two bytes decides their order. */
  lemma FirstBitDecides(a: bv8, b: bv8, i: nat)
    requires i < 8 && (forall j: nat | j < i :: Bit(a, j) == Bit(b, j)) && !Bit(a, i) && Bit(b, i)
    ensures a < b
  {
    assert i > 0 ==> Bit(a, 0) == Bit(b, 0);
    assert i > 1 ==> Bit(a, 1) == Bit(b, 1);
    assert i > 2 ==> Bit(a, 2) == Bit(b, 2);
    assert i > 3 ==> Bit(a, 3) == Bit(b, 3);
    assert i > 4 ==> Bit(a, 4) == Bit(b, 4);
    assert i > 5 ==> Bit(a, 5) == Bit(b, 5);
    assert i > 6 ==> Bit(a, 6) == Bit(b, 6);
  }

  lemma ComplementBit(b: bv8, i: nat)
    requires i < 8
    ensures Bit(!b, i) == !Bit(b, i)
  {
  }

  /** Masking bit i and shifting it down leaves that bit. */
  lemma ExtractBit(b: bv8, i: nat)
    requires i < 8
    ensures (b & ((0x80 as bv8) >> i)) >> (7 - i) == if Bit(b, i) then 1 else 0
  {
    if i == 0 {} else if i == 1 {} else if i == 2 {} else if i == 3 {} else if i == 4 {} else if i == 5 {} else if i == 6 {} else {}
  }

  /** Shifting a new bit in at the bottom moves every other bit up by one. */
  lemma PushBit(b: bv8, bit: bv8, i: nat)
    requires i < 8 && (bit == 0 || bit == 1)
    ensures Bit((b << 1) | bit, i) == if i == 7 then bit == 1 else Bit(b, i + 1)
  {
    if i == 0 {} else if i == 1 {} else if i == 2 {} else if i == 3 {} else if i == 4 {} else if i == 5 {} else if i == 6 {} else {}
  }

  /** Masking bit i, then shifting it to the top and down to place j. */
  lemma MoveBit(b: bv8, i: nat, j: nat, k: nat)
    requires i < 8 && j < 8 && k < 8
    ensures Bit(((b & ((0x80 as bv8) >> i)) << i) >> j, k) == (k == j && Bit(b, i))
  {
  }

  lemma OrBit(a: bv8, b: bv8, i: nat)
    requires i < 8
    ensures Bit(a | b, i) == (Bit(a, i) || Bit(b, i))
  {
  }

  lemma MaskBit(i: nat, j: nat)
    requires i < 8 && j < 8
    ensures Bit((0x80 as bv8) >> i, j) == (i == j)
  {
  }

  lemma ZeroBit(i: nat)
    requires i < 8
    ensures !Bit(0, i)
  {
  }

  lemma ByteOfInt(b: bv8)
    ensures (b as int) as bv8 == b
  {
  }

  lemma IntOrder(a: bv8, b: bv8)
    ensures a < b <==> a as int < b as int
  {
  }

  lemma IntInjective(a: bv8, b: bv8)
    requires a as int == b as int
    ensures a == b
  {
    ByteOfInt(a);
    ByteOfInt(b);
  }

  lemma IncrementInt(b: bv8)
    ensures (b + 1) as int == if b == 255 then 0 else b as int + 1
  {
  }

  // ----- byte strings

  /** A byte whose bits are given by f from offset o. */
  function ByteFrom(f: nat -> bool, o: nat): (b: bv8) {
    (if f(o) then 0x80 as bv8 else 0) | (if f(o + 1) then 0x40 else 0) | (if f(o + 2) then 0x20 else 0) | (if f(o + 3) then 0x10 else 0)
    | (if f(o + 4) then 0x08 else 0) | (if f(o + 5) then 0x04 else 0) | (if f(o + 6) then 0x02 else 0) | (if f(o + 7) then 0x01 else 0)
  }

  lemma ByteFromBit(f: nat -> bool, o: nat, i: nat)
    requires i < 8
    ensures Bit(ByteFrom(f, o), i) == f(o + i)
  {
    if i == 0 {} else if i == 1 {} else if i == 2 {} else if i == 3 {} else if i == 4 {} else if i == 5 {} else if i == 6 {} else {}
  }

  /** The n-byte string whose bit i is f(i). */
  function FromBits(n: nat, f: nat -> bool): (s: Bytes)
    ensures |s| == n
    ensures forall i: nat | i < 8 * n :: BitAt(s, i) == f(i)
  {
    var s := seq(n, i requires 0 <= i < n => ByteFrom(f, 8 * i));
    assert forall i: nat | i < 8 * n :: BitAt(s, i) == f(i) by {
      forall i: nat | i < 8 * n ensures BitAt(s, i) == f(i) {
        ByteFromBit(f, 8 * (i / 8), i % 8);
      }
    }
    s
  }

  lemma BitAtSplit(s: Bytes, q: nat, r: nat)
    requires q < |s| && r < 8
    ensures BitAt(s, 8 * q + r) == Bit(s[q], r)
  {
    assert (8 * q + r) / 8 == q && (8 * q + r) % 8 == r;
  }

  /** Byte strings of one length are equal exactly when all their bits are. */
  lemma BitsExtensional(s: Bytes, t: Bytes)
    requires |s| == |t|
    requires forall i: nat | i < 8 * |s| :: BitAt(s, i) == BitAt(t, i)
    ensures s == t
  {
    forall q: nat | q < |s| ensures s[q] == t[q] {
      forall r: nat | r < 8 ensures Bit(s[q], r) == Bit(t[q], r) {
        BitAtSplit(s, q, r);
        BitAtSplit(t, q, r);
        assert BitAt(s, 8 * q + r) == BitAt(t, 8 * q + r);
      }
      ByteExtensional(s[q], t[q]);
    }
  }

  // ----- lexicographic order of byte strings, as memcmp and bytes.Compare order them

  /** s and t first differ at byte i, and s is smaller there. */
  predicate LessAt(s: Bytes, t: Bytes, i: nat) {
    i < |s| && i < |t| && (forall k: nat | k < i :: s[k] == t[k]) && s[i] < t[i]
  }

  ghost predicate Less(s: Bytes, t: Bytes)
    requires |s| == |t|
  {
    exists i: nat :: LessAt(s, t, i)
  }

  /** Equal up to byte i. */
  lemma FirstDifference(s: Bytes, t: Bytes) returns (i: nat)
    requires |s| == |t| && s != t
    ensures i < |s| && (forall k: nat | k < i :: s[k] == t[k]) && s[i] != t[i]
  {
    i := 0;
    while i < |s| && s[i] == t[i]
      invariant i <= |s| && forall k: nat | k < i :: s[k] == t[k]
    {
      i := i + 1;
    }
  }

  lemma LessTotal(s: Bytes, t: Bytes)
    requires |s| == |t|
    ensures Less(s, t) || Less(t, s) || s == t
  {
    if s != t {
      var i := FirstDifference(s, t);
      assert LessAt(s, t, i) || LessAt(t, s, i);
    }
  }

  lemma LessAsymmetric(s: Bytes, t: Bytes)
    requires |s| == |t| && Less(s, t)
    ensures !Less(t, s) && s != t
  {
    var i: nat :| LessAt(s, t, i);
    assert forall j: nat :: !LessAt(t, s, j);
  }

  lemma LessTransitive(s: Bytes, t: Bytes, u: Bytes)
    requires |s| == |t| == |u| && Less(s, t) && Less(t, u)
    ensures Less(s, u)
  {
    var i: nat :| LessAt(s, t, i);
    var j: nat :| LessAt(t, u, j);
    var m := if i < j then i else j;
    assert LessAt(s, u, m);
  }

  /** The first differing bit decides the order of two byte strings. */
  lemma FirstBitDecidesString(s: Bytes, t: Bytes, i: nat)
    requires |s| == |t| && i < 8 * |s|
    requires forall j: nat | j < i :: BitAt(s, j) == BitAt(t, j)
    requires !BitAt(s, i) && BitAt(t, i)
    ensures Less(s, t)
  {
    var q, r := i / 8, i % 8;
    assert 8 * q + r == i;
    forall k: nat | k < q ensures s[k] == t[k] {
      forall j: nat | j < 8 ensures Bit(s[k], j) == Bit(t[k], j) {
        BitAtSplit(s, k, j);
        BitAtSplit(t, k, j);
        assert BitAt(s, 8 * k + j) == BitAt(t, 8 * k + j);
      }
      ByteExtensional(s[k], t[k]);
    }
    forall j: nat | j < r ensures Bit(s[q], j) == Bit(t[q], j) {
      BitAtSplit(s, q, j);
      BitAtSplit(t, q, j);
      assert BitAt(s, 8 * q + j) == BitAt(t, 8 * q + j);
    }
    FirstBitDecides(s[q], t[q], r);
    assert LessAt(s, t, q);
  }

  /** Two different strings have a first differing bit. */
  lemma FirstDifferentBit(s: Bytes, t: Bytes) returns (i: nat)
    requires |s| == |t| && s != t
    ensures i < 8 * |s| && BitAt(s, i) != BitAt(t, i)
    ensures forall j: nat | j < i :: BitAt(s, j) == BitAt(t, j)
  {
    i := 0;
    while i < 8 * |s| && BitAt(s, i) == BitAt(t, i)
      invariant i <= 8 * |s|
      invariant forall j: nat | j < i :: BitAt(s, j) == BitAt(t, j)
    {
      i := i + 1;
    }
    if i == 8 * |s| {
      BitsExtensional(s, t);
    }
  }
}
