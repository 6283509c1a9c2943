/** What the address scheme keeps of a key, and what it promises about lookups and order. */
module AddressLaws {
  import opened Constants
  import opened Bits
  import opened Address

  /** How many leading bits of a key its address determines. */
  function EncodedBits(n: nat): nat {
    n + 1 + PayloadBits(n)
  }

  // ----- recovering a key from its address

  /** The key recovered from an address is the original on every encoded bit and all ones after. */
  lemma RecoveredKey(k: Bytes, i: nat)
    requires |k| == KEY_SIZE && LeadingZeros(k) < KEY_BITS && i < KEY_BITS
    ensures BitAt(PartialKey(AddressOf(k)), i) == if i < EncodedBits(LeadingZeros(k)) then BitAt(k, i) else true
  {
    hide Bit, BitAt, Tail, AddressOf, PartialKey, LeadingZeros, CountByte;
    var a, n := AddressOf(k), LeadingZeros(k);
    CountByteValue(n);
    assert BitAt(PartialKey(a), i) == !RecoveredInverseBit(a, i);
    if i > n && i - n - 1 < 112 {
      assert Tail(a, i - n - 1) == PayloadBit(k, i - n - 1);
    }
  }

  /** The first one bit is where the run of zeros ends. */
  lemma LeadingZerosUnique(k: Bytes, n: nat)
    requires n < 8 * |k| && BitAt(k, n) && forall j: nat | j < n :: !BitAt(k, j)
    ensures LeadingZeros(k) == n
  {
    hide Bit, BitAt;
    var m := LeadingZeros(k);
    assert m >= n;
  }

  lemma PartialKeyZeros(a: Bytes)
    requires |a| == ADDRESS_SIZE
    ensures LeadingZeros(PartialKey(a)) == a[1] as int
  {
    hide Bit, BitAt, PartialKey, LeadingZeros;
    var k, ones := PartialKey(a), a[1] as int;
    forall i: nat | i <= ones ensures BitAt(k, i) == (i == ones) {
      assert BitAt(k, i) == !RecoveredInverseBit(a, i);
    }
    LeadingZerosUnique(k, ones);
  }

  /** Addresses whose unencodable tail is clear. Every address with a count of at most 143 is one. */
  predicate TailClear(a: Bytes)
    requires |a| == ADDRESS_SIZE
  {
    forall j: nat | PayloadBits(a[1] as int) <= j < 112 :: !Tail(a, j)
  }

  lemma ReencodedBit(a: Bytes, j: nat)
    requires |a| == ADDRESS_SIZE && j < 112
    ensures Tail(AddressOf(PartialKey(a)), j) == (j < PayloadBits(a[1] as int) && Tail(a, j))
  {
    hide Bit, BitAt, PartialKey, AddressOf, LeadingZeros;
    var k, ones := PartialKey(a), a[1] as int;
    PartialKeyZeros(a);
    assert Tail(AddressOf(k), j) == PayloadBit(k, j);
    if j < PayloadBits(ones) {
      assert BitAt(k, ones + 1 + j) == !RecoveredInverseBit(a, ones + 1 + j);
    }
  }

  lemma AddressHead(a: Bytes)
    requires |a| == ADDRESS_SIZE
    ensures AddressOf(PartialKey(a))[1] == a[1]
  {
    hide Bit, BitAt, PartialKey, AddressOf, LeadingZeros, CountByte;
    PartialKeyZeros(a);
    CountByteValue(a[1] as int);
    IntInjective(CountByte(a[1] as int), a[1]);
  }

  /** Two addresses with the same two head bytes and payload bits are the same. */
  lemma SameAddress(a: Bytes, b: Bytes)
    requires |a| == |b| == ADDRESS_SIZE && a[0] == b[0] && a[1] == b[1]
    requires forall j: nat | j < 112 :: Tail(a, j) == Tail(b, j)
    ensures a == b
  {
    hide Bit, BitAt;
    forall q: nat | q < ADDRESS_SIZE ensures a[q] == b[q] {
      if q >= 2 {
        forall r: nat | r < 8 ensures Bit(a[q], r) == Bit(b[q], r) {
          BitAtSplit(a, q, r);
          BitAtSplit(b, q, r);
          var j := 8 * (q - 2) + r;
          assert Tail(a, j) == Tail(b, j);
        }
        ByteExtensional(a[q], b[q]);
      }
    }
  }

  /** Encoding the key recovered from an address gives the address back exactly
      when its prefix is right and its tail is clear. */
  lemma AddressRoundTrip(a: Bytes)
    requires |a| == ADDRESS_SIZE
    ensures AddressOf(PartialKey(a)) == a <==> IsValidAddress(a) && TailClear(a)
  {
    hide Bit, BitAt, PartialKey, AddressOf;
    var b := AddressOf(PartialKey(a));
    AddressHead(a);
    forall j: nat | j < 112 ensures Tail(b, j) == (j < PayloadBits(a[1] as int) && Tail(a, j)) {
      ReencodedBit(a, j);
    }
    if IsValidAddress(a) && TailClear(a) {
      SameAddress(a, b);
    }
  }

  lemma ShortCountsAreClear(a: Bytes)
    requires |a| == ADDRESS_SIZE && a[1] as int <= 143
    ensures TailClear(a)
  {
  }

  lemma AddressTailClear(k: Bytes)
    requires |k| == KEY_SIZE
    ensures TailClear(AddressOf(k))
  {
    hide Bit, BitAt, AddressOf, LeadingZeros, CountByte;
    var a := AddressOf(k);
    CountByteValue(LeadingZeros(k));
    forall j: nat | PayloadBits(a[1] as int) <= j < 112 ensures !Tail(a, j) {
      assert Tail(a, j) == PayloadBit(k, j);
    }
  }

  /** For every key, zeros included, re-encoding the key recovered from its address changes nothing. */
  lemma AddressStable(k: Bytes)
    requires |k| == KEY_SIZE
    ensures AddressOf(PartialKey(AddressOf(k))) == AddressOf(k)
  {
    AddressTailClear(k);
    AddressRoundTrip(AddressOf(k));
  }

  // ----- the Bloom-filter key transform of core.New

  function Xform(k: Bytes): (x: Bytes)
    requires |k| == KEY_SIZE
    ensures |x| == KEY_SIZE
  {
    PartialKeyOfSubnet(SubnetOf(k))
  }

  /** The prefix byte plays no part in what an address recovers. */
  lemma PrefixIgnored(a: Bytes, b: Bytes)
    requires |a| == |b| == ADDRESS_SIZE && a[1..] == b[1..]
    ensures PartialKey(a) == PartialKey(b)
  {
    hide Bit, BitAt, PartialKey;
    assert a[1] == a[1..][0] && b[1] == b[1..][0];
    BitsExtensional(PartialKey(a), PartialKey(b)) by {
      forall i: nat | i < KEY_BITS ensures BitAt(PartialKey(a), i) == BitAt(PartialKey(b), i) {
        SameTailBits(a, b, i - a[1] as int - 1);
        assert BitAt(PartialKey(a), i) == !RecoveredInverseBit(a, i);
        assert BitAt(PartialKey(b), i) == !RecoveredInverseBit(b, i);
      }
    }
  }

  lemma SameTailBits(a: Bytes, b: Bytes, j: int)
    requires |a| == |b| == ADDRESS_SIZE && a[1..] == b[1..]
    ensures 0 <= j < 112 ==> Tail(a, j) == Tail(b, j)
  {
    if 0 <= j < 112 {
      var q := (16 + j) / 8;
      assert a[1..][q - 1] == b[1..][q - 1];
    }
  }

  /** The transform keeps the subnet of every key. */
  lemma XformKeepsSubnet(k: Bytes)
    requires |k| == KEY_SIZE
    ensures SubnetOf(Xform(k)) == SubnetOf(k)
  {
    hide Bit, BitAt, AddressOf, PartialKey, CountByte, LeadingZeros;
    var a, s := AddressOf(k), SubnetOf(k);
    var w := Widen(s);
    var v := [PREFIX] + w[1..];
    PrefixIgnored(w, v);
    SubnetTailClear(a, v) by {
      AddressTailClear(k);
      assert w[1] == s[1] == s[1..][0] && v[1] == w[1];
      forall q: nat | 1 <= q < 8 ensures v[q] == a[q] {
        assert w[q] == s[q] == s[1..][q - 1];
      }
    }
    AddressRoundTrip(v);
    assert v[1..8] == w[1..8] == s[1..8] == s[1..];
  }

  lemma SubnetTailClear(a: Bytes, v: Bytes)
    requires |a| == |v| == ADDRESS_SIZE && TailClear(a)
    requires forall q: nat | 1 <= q < 8 :: v[q] == a[q]
    requires forall q: nat | 8 <= q < 16 :: v[q] == 0
    ensures TailClear(v)
  {
    hide Bit;
    forall j: nat | PayloadBits(v[1] as int) <= j < 112 ensures !Tail(v, j) {
      if j < 48 {
        assert Tail(v, j) == Tail(a, j);
      } else {
        ZeroBit((16 + j) % 8);
      }
    }
  }

  /** A lookup for the partial key of an address or of a subnet, or for the full
      key, falls on one Bloom entry; the transform is idempotent; and two keys
      share an entry exactly when they share a subnet. */
  lemma LookupTransform(k: Bytes, other: Bytes)
    requires |k| == |other| == KEY_SIZE
    ensures Xform(Xform(k)) == Xform(k)
    ensures Xform(PartialKey(AddressOf(k))) == Xform(k)
    ensures Xform(PartialKeyOfSubnet(SubnetOf(k))) == Xform(k)
    ensures Xform(k) == Xform(other) <==> SubnetOf(k) == SubnetOf(other)
  {
    hide Bit, BitAt, AddressOf, PartialKey, CountByte, LeadingZeros;
    XformKeepsSubnet(k);
    XformKeepsSubnet(other);
    AddressStable(k);
    assert SubnetOf(PartialKey(AddressOf(k))) == SubnetOf(k);
  }
}
