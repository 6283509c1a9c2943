/** Node addresses and /64 subnets, and the partial keys recovered from them (src/address/address.go).

The bit-level definitions come first: what each bit of an address or of a
partial key is. The methods below them are the source's loops, proved to
compute exactly those bits. */
module Address {
  import opened Constants
  import opened Bits
  import opened Results

  const KEY_BITS: nat := 256
  const ADDRESS_SIZE: nat := 16
  const SUBNET_SIZE: nat := 8
  const PREFIX: bv8 := 2

  // ----- what the bits are

  /** The length of the run of zero bits that starts at bit i. */
  function ZerosFrom(k: Bytes, i: nat): (n: nat)
    requires i <= 8 * |k|
    ensures i + n <= 8 * |k|
    ensures forall j: nat | i <= j < i + n :: !BitAt(k, j)
    ensures i + n < 8 * |k| ==> BitAt(k, i + n)
    decreases 8 * |k| - i
  {
    if i == 8 * |k| || BitAt(k, i) then 0 else 1 + ZerosFrom(k, i + 1)
  }

  /** Leading zero bits of a key, which are the leading one bits of its inverse. */
  function LeadingZeros(k: Bytes): (n: nat)
    ensures n <= 8 * |k|
    ensures forall j: nat | j < n :: !BitAt(k, j)
    ensures n < 8 * |k| ==> BitAt(k, n)
  {
    ZerosFrom(k, 0)
  }

  /** How many payload bits the encoder emits for a key with n leading zeros:
      whole bytes only, and never more than the 14 bytes that are left. */
  function PayloadBits(n: nat): (m: nat)
    ensures m <= 112 && m % 8 == 0
    ensures n < KEY_BITS ==> n + 1 + m <= KEY_BITS
  {
    if n >= KEY_BITS then 0
    else if 8 * ((255 - n) / 8) < 112 then 8 * ((255 - n) / 8)
    else 112
  }

  /** Bit j of the payload: the key's bit, inverted, after the run of zeros and the one that ends it. */
  predicate PayloadBit(k: Bytes, j: nat)
    requires |k| == KEY_SIZE
  {
    var n := LeadingZeros(k);
    j < PayloadBits(n) && !BitAt(k, n + 1 + j)
  }

  /** A byte counted up n times. */
  function CountByte(n: nat): bv8 {
    if n == 0 then 0 else CountByte(n - 1) + 1
  }

  /** The count byte of a key is its leading zeros, but a key of 256 zeros counts round to 0. */
  lemma {:induction false} CountByteValue(n: nat)
    requires n <= KEY_BITS
    ensures CountByte(n) as int == if n == KEY_BITS then 0 else n
  {
    if n > 0 {
      CountByteValue(n - 1);
      IncrementInt(CountByte(n - 1));
    }
  }

  /** Bit j of the 14 bytes that follow an address's prefix and count. */
  predicate Tail(a: Bytes, j: nat)
    requires |a| == ADDRESS_SIZE && j < 112
  {
    BitAt(a, 16 + j)
  }

  /** The prefix, a count byte and 112 given bits. */
  function Assemble(count: bv8, f: nat -> bool): (a: Bytes)
    ensures |a| == ADDRESS_SIZE && a[0] == PREFIX && a[1] == count
    ensures forall j: nat | j < 112 :: Tail(a, j) == f(j)
  {
    var payload := FromBits(14, f);
    var a := [PREFIX, count] + payload;
    assert forall j: nat | j < 112 :: Tail(a, j) == f(j) by {
      forall j: nat | j < 112 ensures Tail(a, j) == f(j) {
        assert (16 + j) / 8 == 2 + j / 8 && (16 + j) % 8 == j % 8;
        assert BitAt(payload, j) == f(j);
      }
    }
    a
  }

  function AddressOf(k: Bytes): (a: Bytes)
    requires |k| == KEY_SIZE
    ensures |a| == ADDRESS_SIZE && a[0] == PREFIX && a[1] == CountByte(LeadingZeros(k))
    ensures forall j: nat | j < 112 :: Tail(a, j) == PayloadBit(k, j)
  {
    Assemble(CountByte(LeadingZeros(k)), (j: nat) => PayloadBit(k, j))
  }

  /** The subnet is the first half of the address with the last prefix bit set. */
  function SubnetOf(k: Bytes): (s: Bytes)
    requires |k| == KEY_SIZE
    ensures |s| == SUBNET_SIZE && s[0] == PREFIX | 1 && s[1..] == AddressOf(k)[1..8]
  {
    [PREFIX | 1] + AddressOf(k)[1..8]
  }

  /** Bit i of the inverse of the partial key that an address determines. */
  predicate RecoveredInverseBit(a: Bytes, i: nat)
    requires |a| == ADDRESS_SIZE
  {
    var ones := a[1] as int;
    if i <= ones then i < ones else i - ones - 1 < 112 && Tail(a, i - ones - 1)
  }

  function PartialKey(a: Bytes): (k: Bytes)
    requires |a| == ADDRESS_SIZE
    ensures |k| == KEY_SIZE
    ensures forall i: nat | i < KEY_BITS :: BitAt(k, i) == !RecoveredInverseBit(a, i)
  {
    FromBits(KEY_SIZE, (i: nat) => !RecoveredInverseBit(a, i))
  }

  /** A subnet recovers a key as the address that continues it with zeros. */
  function Widen(s: Bytes): (a: Bytes)
    requires |s| == SUBNET_SIZE
    ensures |a| == ADDRESS_SIZE && a[..8] == s
  {
    s + [0, 0, 0, 0, 0, 0, 0, 0]
  }

  function PartialKeyOfSubnet(s: Bytes): (k: Bytes)
    requires |s| == SUBNET_SIZE
    ensures |k| == KEY_SIZE
  {
    PartialKey(Widen(s))
  }

  predicate IsValidAddress(a: Bytes)
    requires |a| == ADDRESS_SIZE
  {
    a[0] == PREFIX
  }

  predicate IsValidSubnet(s: Bytes)
    requires |s| == SUBNET_SIZE
  {
    s[0] == PREFIX | 1
  }

  // ----- the source's loops

  lemma AppendByteBits(temp: Bytes, b: bv8, j: nat)
    requires j < 8 * |temp| + 8
    ensures BitAt(temp + [b], j) == if j < 8 * |temp| then BitAt(temp, j) else Bit(b, j - 8 * |temp|)
  {
    if j >= 8 * |temp| {
      assert j / 8 == |temp| && j % 8 == j - 8 * |temp|;
    }
  }

  /** Inverts every byte of a key, in place. */
  method Invert(buf: array<bv8>)
    modifies buf
    ensures forall i: nat | i < 8 * buf.Length :: BitAt(buf[..], i) == !old(BitAt(buf[..], i))
  {
    var idx := 0;
    while idx < buf.Length
      invariant 0 <= idx <= buf.Length
      invariant forall q: nat | q < idx :: buf[q] == !old(buf[q])
      invariant forall q: nat | idx <= q < buf.Length :: buf[q] == old(buf[q])
    {
      buf[idx] := !buf[idx];
      idx := idx + 1;
    }
    forall i: nat | i < 8 * buf.Length ensures BitAt(buf[..], i) == !old(BitAt(buf[..], i)) {
      ComplementBit(old(buf[i / 8]), i % 8);
    }
  }

  /** Bit idx of a byte string, masked out and shifted down as the encoder does. */
  method ReadBit(s: Bytes, idx: nat) returns (bit: bv8)
    requires idx < 8 * |s|
    ensures bit == if BitAt(s, idx) then 1 else 0
  {
    bit := (s[idx / 8] & ((0x80 as bv8) >> (idx % 8))) >> (7 - idx % 8);
    ExtractBit(s[idx / 8], idx % 8);
  }

  /** Shifts a new bit in below the pending ones. */
  method PushOne(bits: bv8, bit: bv8) returns (r: bv8)
    requires bit == 0 || bit == 1
    ensures Bit(r, 7) == (bit == 1)
    ensures forall p: nat | p < 7 :: Bit(r, p) == Bit(bits, p + 1)
  {
    r := (bits << 1) | bit;
    PushBit(bits, bit, 7);
    forall p: nat | p < 7 ensures Bit(r, p) == Bit(bits, p + 1) {
      PushBit(bits, bit, p);
    }
  }

  /** The first m inverted key bits from place o on are packed: whole bytes in
      temp, and the nBits left over at the bottom of bits. */
  ghost predicate Packed(k: Bytes, o: nat, temp: Bytes, bits: bv8, nBits: nat) {
    && nBits < 8 && o + 8 * |temp| + nBits <= 8 * |k|
    && (forall j: nat | j < 8 * |temp| :: BitAt(temp, j) == !BitAt(k, o + j))
    && forall p: nat | 8 - nBits <= p < 8 :: Bit(bits, p) == !BitAt(k, o + 8 * |temp| + p - (8 - nBits))
  }

  /** Packs one more bit. */
  method PackOne(temp: Bytes, bits: bv8, nBits: nat, bit: bv8, ghost k: Bytes, ghost o: nat)
    returns (temp': Bytes, bits': bv8, nBits': nat)
    requires Packed(k, o, temp, bits, nBits) && o + 8 * |temp| + nBits < 8 * |k|
    requires bit == if BitAt(k, o + 8 * |temp| + nBits) then 0 else 1
    ensures Packed(k, o, temp', bits', nBits')
    ensures 8 * |temp'| + nBits' == 8 * |temp| + nBits + 1
  {
    hide Bit, BitAt;
    bits' := PushOne(bits, bit);
    nBits' := nBits + 1;
    temp' := temp;
    if nBits' == 8 {
      nBits' := 0;
      forall j: nat | j < 8 * |temp| + 8 ensures BitAt(temp + [bits'], j) == !BitAt(k, o + j) {
        AppendByteBits(temp, bits', j);
      }
      temp' := temp + [bits'];
    }
  }

  /** The encoder's main loop over an inverted key: counts its leading ones,
      drops the zero that ends them, and packs what follows into whole bytes. */
  method CountAndPack(inverse: Bytes, ghost k: Bytes) returns (ones: bv8, temp: Bytes)
    requires |k| == |inverse| == KEY_SIZE
    requires forall i: nat | i < KEY_BITS :: BitAt(inverse, i) == !BitAt(k, i)
    ensures ones == CountByte(LeadingZeros(k))
    ensures |temp| == if LeadingZeros(k) < KEY_BITS then (255 - LeadingZeros(k)) / 8 else 0
    ensures forall j: nat | j < 8 * |temp| :: BitAt(temp, j) == !BitAt(k, LeadingZeros(k) + 1 + j)
  {
    hide Bit, BitAt, LeadingZeros;
    ghost var n := LeadingZeros(k);
    temp := [];
    ones := 0;
    var done, bits, nBits := false, 0 as bv8, 0;
    var idx := 0;
    while idx < KEY_BITS
      invariant 0 <= idx <= KEY_BITS
      invariant done <==> idx > n
      invariant ones == CountByte(if done then n else idx)
      invariant !done ==> temp == [] && nBits == 0
      invariant done ==> Packed(k, n + 1, temp, bits, nBits) && 8 * |temp| + nBits == idx - n - 1
    {
      var bit := ReadBit(inverse, idx);
      if !done && bit != 0 {
        ones := ones + 1;
      } else if !done {
        done := true;
      } else {
        temp, bits, nBits := PackOne(temp, bits, nBits, bit, k, n + 1);
      }
      idx := idx + 1;
    }
  }

  /** A prefix, the count and as much of the packed bytes as fits is the address, bit for bit. */
  lemma EncodedBitsMatch(k: Bytes, addr: Bytes, temp: Bytes)
    requires |k| == KEY_SIZE && |addr| == ADDRESS_SIZE
    requires |temp| == if LeadingZeros(k) < KEY_BITS then (255 - LeadingZeros(k)) / 8 else 0
    requires forall j: nat | j < 8 * |temp| :: BitAt(temp, j) == !BitAt(k, LeadingZeros(k) + 1 + j)
    requires addr[0] == PREFIX && addr[1] == CountByte(LeadingZeros(k))
    requires forall q: nat | 2 <= q < ADDRESS_SIZE :: addr[q] == if q - 2 < |temp| then temp[q - 2] else 0
    ensures addr == AddressOf(k)
  {
    hide Bit, BitAt, CountByte, AddressOf, LeadingZeros, ZerosFrom;
    var a := AddressOf(k);
    forall q: nat | 2 <= q < ADDRESS_SIZE ensures addr[q] == a[q] {
      forall r: nat | r < 8 ensures Bit(addr[q], r) == Bit(a[q], r) {
        var j := 8 * (q - 2) + r;
        BitAtSplit(a, q, r);
        assert Tail(a, j) == PayloadBit(k, j);
        if q - 2 < |temp| {
          BitAtSplit(temp, q - 2, r);
        } else {
          ZeroBit(r);
        }
      }
      ByteExtensional(addr[q], a[q]);
    }
  }

  /** The address of a key; nothing for a key of the wrong length. */
  method AddrForKey(publicKey: Bytes) returns (r: Option<Bytes>)
    ensures |publicKey| != KEY_SIZE ==> r == None
    ensures |publicKey| == KEY_SIZE ==> r == Some(AddressOf(publicKey))
  {
    hide Bit, BitAt, Tail, AddressOf, LeadingZeros, CountByte;
    if |publicKey| != KEY_SIZE {
      return None;
    }
    var buf := new bv8[KEY_SIZE](i requires 0 <= i < KEY_SIZE => publicKey[i]);
    assert buf[..] == publicKey;
    Invert(buf);
    var ones, temp := CountAndPack(buf[..], publicKey);

    var addr := new bv8[ADDRESS_SIZE](i => 0);
    addr[0] := PREFIX;
    addr[1] := ones;
    var i := 0;
    while i < |temp| && i < 14
      invariant 0 <= i <= |temp| && i <= 14
      invariant addr[0] == PREFIX && addr[1] == ones
      invariant forall q: nat | 2 <= q < 2 + i :: addr[q] == temp[q - 2]
      invariant forall q: nat | 2 + i <= q < ADDRESS_SIZE :: addr[q] == 0
    {
      addr[2 + i] := temp[i];
      i := i + 1;
    }
    EncodedBitsMatch(publicKey, addr[..], temp);
    return Some(addr[..]);
  }

  method SubnetForKey(publicKey: Bytes) returns (r: Option<Bytes>)
    ensures |publicKey| != KEY_SIZE ==> r == None
    ensures |publicKey| == KEY_SIZE ==> r == Some(SubnetOf(publicKey))
  {
    hide Bit, BitAt, Tail, AddressOf, LeadingZeros, CountByte;
    var addr := AddrForKey(publicKey);
    if addr == None {
      return None;
    }
    var snet := new bv8[SUBNET_SIZE](i requires 0 <= i < SUBNET_SIZE && |addr.value| == ADDRESS_SIZE => addr.value[i]);
    snet[0] := snet[0] | 1;
    assert snet[..] == [PREFIX | 1] + addr.value[1..8];
    return Some(snet[..]);
  }

  /** Ors a byte that holds at most the bit for place p into a key, in place. */
  method OrInto(key: array<bv8>, p: nat, m: bv8, ghost v: bool)
    requires p < 8 * key.Length
    requires forall t: nat | t < 8 :: Bit(m, t) == (t == p % 8 && v)
    modifies key
    ensures forall i: nat | i < 8 * key.Length :: BitAt(key[..], i) == (old(BitAt(key[..], i)) || (i == p && v))
  {
    hide Bit;
    key[p / 8] := key[p / 8] | m;
    forall i: nat | i < 8 * key.Length
      ensures BitAt(key[..], i) == (old(BitAt(key[..], i)) || (i == p && v))
    {
      OrBit(old(key[p / 8]), m, i % 8);
    }
  }

  /** The bit at place i of an address byte, moved to place j of a key byte. */
  method MoveOne(b: bv8, i: nat, j: nat) returns (r: bv8)
    requires i < 8 && j < 8
    ensures forall t: nat | t < 8 :: Bit(r, t) == (t == j && Bit(b, i))
  {
    r := b & ((0x80 as bv8) >> i);
    r := r << i;
    r := r >> j;
    forall t: nat | t < 8 ensures Bit(r, t) == (t == j && Bit(b, i)) {
      MoveBit(b, i, j, t);
    }
  }

  method Mask(i: nat) returns (r: bv8)
    requires i < 8
    ensures forall t: nat | t < 8 :: Bit(r, t) == (t == i)
  {
    r := (0x80 as bv8) >> i;
    forall t: nat | t < 8 ensures Bit(r, t) == (t == i) {
      MaskBit(i, t);
    }
  }

  /** The decoder: as many ones as the count byte says, a zero, then the payload bits, all inverted. */
  method GetKey(a: Bytes) returns (k: Bytes)
    requires |a| == ADDRESS_SIZE
    ensures k == PartialKey(a)
  {
    hide Bit;
    var key := new bv8[KEY_SIZE](i => 0);
    forall i: nat | i < KEY_BITS ensures !BitAt(key[..], i) { ZeroBit(i % 8); }
    var ones := a[1] as int;
    var idx := 0;
    while idx < ones
      invariant 0 <= idx <= ones
      invariant forall i: nat | i < KEY_BITS :: BitAt(key[..], i) == (i < idx)
    {
      var m := Mask(idx % 8);
      OrInto(key, idx, m, true);
      idx := idx + 1;
    }
    CopyPayload(a, key);
    Invert(key);
    k := key[..];
    BitsExtensional(k, PartialKey(a));
  }

  /** The decoder's second loop: every payload bit that still fits goes below the count's ones and the zero. */
  method CopyPayload(a: Bytes, key: array<bv8>)
    requires |a| == ADDRESS_SIZE && key.Length == KEY_SIZE
    requires forall i: nat | i < KEY_BITS :: BitAt(key[..], i) == (i < a[1] as int)
    modifies key
    ensures forall i: nat | i < KEY_BITS :: BitAt(key[..], i) == RecoveredInverseBit(a, i)
  {
    hide Bit;
    var keyOffset, addrOffset := a[1] as int + 1, 16;
    var idx := addrOffset;
    while idx < 8 * ADDRESS_SIZE
      invariant addrOffset <= idx <= 128
      invariant forall i: nat | i < KEY_BITS ::
                  BitAt(key[..], i) == (RecoveredInverseBit(a, i) && i < keyOffset + (idx - addrOffset))
    {
      var keyIdx := keyOffset + (idx - addrOffset);
      var bits := MoveOne(a[idx / 8], idx % 8, keyIdx % 8);
      if keyIdx / 8 >= KEY_SIZE {
        break;
      }
      OrInto(key, keyIdx, bits, BitAt(a, idx));
      idx := idx + 1;
    }
  }

  method SubnetGetKey(s: Bytes) returns (k: Bytes)
    requires |s| == SUBNET_SIZE
    ensures k == PartialKeyOfSubnet(s)
  {
    var addr := new bv8[ADDRESS_SIZE](i => 0);
    var i := 0;
    while i < SUBNET_SIZE
      invariant 0 <= i <= SUBNET_SIZE
      invariant forall q: nat | q < i :: addr[q] == s[q]
      invariant forall q: nat | i <= q < ADDRESS_SIZE :: addr[q] == 0
    {
      addr[i] := s[i];
      i := i + 1;
    }
    assert addr[..] == Widen(s);
    k := GetKey(addr[..]);
  }
}
