/** The order in which the key generator prefers keys (cmd/genkeys/main.go), and
what it means for addresses: a smaller key never has a smaller address. */
module KeyOrder {
  import opened Constants
  import opened Bits
  import opened Address
  import opened AddressLaws

  /** Whether a new key beats the old one. The loop runs over the old key. */
  method IsBetter(oldPub: Bytes, newPub: Bytes) returns (better: bool)
    requires |oldPub| <= |newPub|
    ensures better <==> Less(newPub[..|oldPub|], oldPub)
  {
    var idx := 0;
    while idx < |oldPub|
      invariant 0 <= idx <= |oldPub|
      invariant forall k: nat | k < idx :: newPub[k] == oldPub[k]
    {
      if newPub[idx] < oldPub[idx] {
        assert LessAt(newPub[..|oldPub|], oldPub, idx);
        return true;
      }
      if newPub[idx] > oldPub[idx] {
        break;
      }
      idx := idx + 1;
    }
    return false;
  }

  /** Both keys put the same bits into their addresses. */
  ghost predicate SameEncodedBits(k: Bytes, l: Bytes)
    requires |k| == |l| == KEY_SIZE
  {
    && LeadingZeros(k) == LeadingZeros(l)
    && forall i: nat | i < EncodedBits(LeadingZeros(k)) && i < KEY_BITS :: BitAt(k, i) == BitAt(l, i)
  }

  /** Keys with the same encoded bits have the same address. */
  lemma SameBitsSameAddress(k: Bytes, l: Bytes)
    requires |k| == |l| == KEY_SIZE && SameEncodedBits(k, l)
    ensures AddressOf(k) == AddressOf(l)
  {
    hide Bit, BitAt, Tail, AddressOf, LeadingZeros, CountByte;
    var a, b := AddressOf(k), AddressOf(l);
    forall j: nat | j < 112 ensures Tail(a, j) == Tail(b, j) {
      assert Tail(a, j) == PayloadBit(k, j) && Tail(b, j) == PayloadBit(l, j);
    }
    SameAddress(a, b);
  }

  lemma CountByteOrder(m: nat, n: nat)
    requires m < n < KEY_BITS
    ensures CountByte(m) < CountByte(n)
  {
    hide CountByte;
    CountByteValue(m);
    CountByteValue(n);
    IntOrder(CountByte(m), CountByte(n));
  }

  /** The first byte of two byte strings that differs decides. */
  lemma SecondByteDecides(a: Bytes, b: Bytes)
    requires |a| == |b| >= 2 && a[0] == b[0] && a[1] < b[1]
    ensures Less(a, b)
  {
    assert LessAt(a, b, 1);
  }

  lemma FirstTailBitDecides(a: Bytes, b: Bytes, j: nat)
    requires |a| == |b| == ADDRESS_SIZE && a[0] == b[0] && a[1] == b[1] && j < 112
    requires (forall t: nat | t < j :: Tail(a, t) == Tail(b, t)) && !Tail(a, j) && Tail(b, j)
    ensures Less(a, b)
  {
    hide Bit;
    forall t: nat | t < 16 + j ensures BitAt(a, t) == BitAt(b, t) {
      if t >= 16 {
        assert Tail(a, t - 16) == Tail(b, t - 16);
      }
    }
    FirstBitDecidesString(a, b, 16 + j);
  }

  /** The first bit where two keys part decides the order of their addresses, if the address holds it. */
  lemma FirstKeyBitDecides(newPub: Bytes, oldPub: Bytes, i: nat)
    requires |newPub| == |oldPub| == KEY_SIZE && i < KEY_BITS && LeadingZeros(newPub) < KEY_BITS
    requires (forall j: nat | j < i :: BitAt(newPub, j) == BitAt(oldPub, j)) && !BitAt(newPub, i) && BitAt(oldPub, i)
    ensures LeadingZeros(oldPub) < LeadingZeros(newPub) || i > LeadingZeros(newPub) == LeadingZeros(oldPub)
    ensures LeadingZeros(oldPub) < LeadingZeros(newPub) || i < EncodedBits(LeadingZeros(newPub))
            ==> Less(AddressOf(oldPub), AddressOf(newPub))
  {
    hide Bit, BitAt, Tail, AddressOf, LeadingZeros, CountByte, PayloadBits;
    var n, o := LeadingZeros(newPub), LeadingZeros(oldPub);
    var a, b := AddressOf(newPub), AddressOf(oldPub);
    if n < i {
      assert BitAt(oldPub, n);
      LeadingZerosUnique(oldPub, n);
      if i < EncodedBits(n) {
        var j := i - n - 1;
        forall t: nat | t <= j ensures Tail(a, t) == PayloadBit(newPub, t) && Tail(b, t) == PayloadBit(oldPub, t) {
        }
        FirstTailBitDecides(b, a, j);
      }
    } else {
      LeadingZerosUnique(oldPub, i);
      CountByteOrder(o, n);
      SecondByteDecides(b, a);
    }
  }

  /** A key that beats another has an address at least as high, and the same
      address exactly when the two agree on every bit an address holds. */
  lemma BetterKeyHigherAddress(oldPub: Bytes, newPub: Bytes)
    requires |newPub| == |oldPub| == KEY_SIZE && Less(newPub, oldPub) && LeadingZeros(newPub) < KEY_BITS
    ensures AddressOf(newPub) == AddressOf(oldPub) <==> SameEncodedBits(newPub, oldPub)
    ensures AddressOf(newPub) == AddressOf(oldPub) || Less(AddressOf(oldPub), AddressOf(newPub))
  {
    hide Bit, BitAt, Tail, AddressOf, LeadingZeros, CountByte, PayloadBits;
    LessAsymmetric(newPub, oldPub);
    var i := FirstDifferentBit(newPub, oldPub);
    if BitAt(newPub, i) {
      FirstBitDecidesString(oldPub, newPub, i);
    } else {
      FirstKeyBitDecides(newPub, oldPub, i);
      if SameEncodedBits(newPub, oldPub) {
        SameBitsSameAddress(newPub, oldPub);
      } else {
        LessAsymmetric(AddressOf(oldPub), AddressOf(newPub));
      }
    }
  }

  /** The one key the law leaves out: 256 zeros beat every key but count round
      to the lowest address of all. */
  lemma ZeroKeyLowestAddress(zero: Bytes, oldPub: Bytes)
    requires |zero| == |oldPub| == KEY_SIZE && LeadingZeros(zero) == KEY_BITS && zero != oldPub
    ensures Less(zero, oldPub)
    ensures AddressOf(zero) == AddressOf(oldPub) || Less(AddressOf(zero), AddressOf(oldPub))
    ensures AddressOf(zero) == AddressOf(oldPub) <==> oldPub[0] >= 0x80 && forall j: nat | j < 112 :: !PayloadBit(oldPub, j)
  {
    hide Bit, BitAt, Tail, AddressOf, LeadingZeros;
    var i := FirstDifferentBit(zero, oldPub);
    FirstBitDecidesString(zero, oldPub, i);
    LeadingZerosUnique(oldPub, i);
    var a, b := AddressOf(zero), AddressOf(oldPub);
    CountByteValue(KEY_BITS);
    CountByteValue(i);
    IntInjective(CountByte(KEY_BITS), 0);
    forall j: nat | j < 112 ensures !Tail(a, j) && Tail(b, j) == PayloadBit(oldPub, j) {
      assert Tail(a, j) == PayloadBit(zero, j);
    }
    TopBit(oldPub);
    if i > 0 {
      CountByteOrder(0, i);
      SecondByteDecides(a, b);
      LessAsymmetric(a, b);
    } else if forall j: nat | j < 112 :: !PayloadBit(oldPub, j) {
      SameAddress(a, b);
    } else {
      var j := FirstPayloadBit(oldPub);
      FirstTailBitDecides(a, b, j);
      LessAsymmetric(a, b);
    }
  }

  /** So a key that beats another has an address at least as high exactly if it
      is not all zeros, or the other's address is the lowest too. */
  lemma OrderKeptExactly(oldPub: Bytes, newPub: Bytes)
    requires |newPub| == |oldPub| == KEY_SIZE && Less(newPub, oldPub)
    ensures !Less(AddressOf(newPub), AddressOf(oldPub)) <==>
            || LeadingZeros(newPub) < KEY_BITS
            || (oldPub[0] >= 0x80 && forall j: nat | j < 112 :: !PayloadBit(oldPub, j))
  {
    hide AddressOf, LeadingZeros, PayloadBit, Less;
    LessAsymmetric(newPub, oldPub);
    var a, b := AddressOf(newPub), AddressOf(oldPub);
    if LeadingZeros(newPub) < KEY_BITS {
      BetterKeyHigherAddress(oldPub, newPub);
    } else {
      ZeroKeyLowestAddress(newPub, oldPub);
    }
    if Less(a, b) {
      LessAsymmetric(a, b);
    }
    if Less(b, a) {
      LessAsymmetric(b, a);
    }
  }

  lemma TopBit(k: Bytes)
    requires |k| > 0
    ensures BitAt(k, 0) <==> k[0] >= 0x80
  {
  }

  lemma FirstPayloadBit(k: Bytes) returns (j: nat)
    requires |k| == KEY_SIZE && exists i: nat :: i < 112 && PayloadBit(k, i)
    ensures j < 112 && PayloadBit(k, j) && forall t: nat | t < j :: !PayloadBit(k, t)
  {
    hide PayloadBit;
    j := 0;
    while j < 112 && !PayloadBit(k, j)
      invariant j <= 112 && forall t: nat | t < j :: !PayloadBit(k, t)
    {
      j := j + 1;
    }
  }

  /** The generator's main loop over the keys its workers send: it ends on the
      smallest key seen, so, unless that is all zeros, no key seen has a higher address. */
  method TrackBest(keys: seq<Bytes>) returns (best: Bytes)
    requires forall k | k in keys :: |k| == KEY_SIZE
    ensures keys == [] ==> best == []
    ensures keys != [] ==> best in keys
    ensures forall k | k in keys :: k == best || Less(best, k)
    ensures forall k | k in keys && LeadingZeros(best) < KEY_BITS :: AddressOf(k) == AddressOf(best) || Less(AddressOf(k), AddressOf(best))
  {
    hide Bit, BitAt, Tail, AddressOf, LeadingZeros, CountByte, PayloadBits, Less;
    best := [];
    for i := 0 to |keys|
      invariant i == 0 ==> best == []
      invariant i > 0 ==> best in keys[..i]
      invariant forall k | k in keys[..i] :: |k| == |best| == KEY_SIZE && (k == best || Less(best, k))
    {
      var better := IsBetter(best, keys[i]);
      assert keys[..i + 1] == keys[..i] + [keys[i]];
      assert |best| == KEY_SIZE ==> keys[i][..|best|] == keys[i];
      if better || |best| == 0 {
        forall k | k in keys[..i] && |best| > 0 ensures Less(keys[i], k) {
          if k != best {
            LessTransitive(keys[i], best, k);
          }
        }
        best := keys[i];
      } else {
        LessTotal(best, keys[i]);
      }
    }
    assert keys[..|keys|] == keys;
    forall k | k in keys && LeadingZeros(best) < KEY_BITS ensures AddressOf(k) == AddressOf(best) || Less(AddressOf(k), AddressOf(best)) {
      if k != best {
        BetterKeyHigherAddress(k, best);
      }
    }
  }
}
