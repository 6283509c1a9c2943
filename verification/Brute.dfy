/** The brute-force key search in C (contrib/uqda-brute-simple/util.c): the
byte-shift form of the address encoding, and the bounded list of best keys. */
module Brute {
  import opened Constants
  import opened Bits
  import opened Address
  import opened AddressLaws

  const HASH_SIZE: nat := 64
  const NUMKEYS: nat := 10

  // ----- make_addr

  /** The length of the run of one bits that starts at bit i. */
  function OnesFrom(h: Bytes, i: nat): (n: nat)
    requires i <= 8 * |h|
    ensures i + n <= 8 * |h|
    ensures forall j: nat | i <= j < i + n :: BitAt(h, j)
    ensures i + n < 8 * |h| ==> !BitAt(h, i + n)
    decreases 8 * |h| - i
  {
    if i == 8 * |h| || !BitAt(h, i) then 0 else 1 + OnesFrom(h, i + 1)
  }

  /** Extending a known run of ones from the front leaves the same total. */
  lemma {:induction false} OnesFromAdvance(h: Bytes, i: nat)
    requires i <= 8 * |h| && forall j: nat | j < i :: BitAt(h, j)
    ensures OnesFrom(h, 0) == i + OnesFrom(h, i)
  {
    hide Bit, BitAt;
    if i > 0 {
      OnesFromAdvance(h, i - 1);
      assert BitAt(h, i - 1);
    }
  }

  /** The nested bit scan. */
  method CountOnes(hash: Bytes) returns (ones: nat)
    requires |hash| == HASH_SIZE
    ensures ones == OnesFrom(hash, 0)
  {
    hide Bit, OnesFrom;
    ones := 0;
    var br := false;
    var i := 0;
    while i < HASH_SIZE && !br
      invariant 0 <= i <= HASH_SIZE
      invariant !br ==> ones == 8 * i && forall j: nat | j < ones :: BitAt(hash, j)
      invariant br ==> ones == OnesFrom(hash, 0)
    {
      ghost var t := 0;
      var mask, c := 128 as bv8, hash[i];
      while mask != 0
        invariant 0 <= t <= 8 && mask == (0x80 as bv8) >> t
        invariant !br && ones == 8 * i + t && forall j: nat | j < ones :: BitAt(hash, j)
        decreases 8 - t
      {
        MaskStep(c, t);
        assert BitAt(hash, ones) == Bit(c, t);
        if c & mask != 0 {
          ones := ones + 1;
        } else {
          br := true;
          OnesFromAdvance(hash, ones);
          NoOnesHere(hash, ones);
          break;
        }
        mask := mask >> 1;
        t := t + 1;
      }
      if !br {
        MaskEnd(t);
      }
      i := i + 1;
    }
    if !br {
      OnesFromAdvance(hash, ones);
      NoOnesHere(hash, ones);
    }
  }

  lemma MaskStep(c: bv8, t: nat)
    requires t <= 8 && (0x80 as bv8) >> t != 0
    ensures t < 8
    ensures c & ((0x80 as bv8) >> t) != 0 <==> Bit(c, t)
    ensures ((0x80 as bv8) >> t) >> 1 == (0x80 as bv8) >> (t + 1)
  {
    if t == 0 {} else if t == 1 {} else if t == 2 {} else if t == 3 {} else if t == 4 {} else if t == 5 {} else if t == 6 {} else if t == 7 {} else {}
  }

  lemma MaskEnd(t: nat)
    requires t <= 8 && (0x80 as bv8) >> t == 0
    ensures t == 8
  {
    if t == 0 {} else if t == 1 {} else if t == 2 {} else if t == 3 {} else if t == 4 {} else if t == 5 {} else if t == 6 {} else if t == 7 {} else {}
  }

  lemma NoOnesHere(h: Bytes, i: nat)
    requires i == 8 * |h| || (i < 8 * |h| && !BitAt(h, i))
    ensures OnesFrom(h, i) == 0
  {
  }

  /** Every byte the 14 copies read lies inside the hash. */
  predicate ReadsInBounds(ones: nat) {
    forall i: nat | i < 14 :: CopySource(ones, i) + 1 < HASH_SIZE
  }

  /** The first of the two bytes that copy i joins. */
  function CopySource(ones: nat, i: nat): nat {
    (ones + 1 + 8 * i) / 8
  }

  /** The scan itself allows up to 512 ones, but the copies stay inside the hash only up to 398. */
  lemma ReadsInBoundsExactly(ones: nat)
    ensures ReadsInBounds(ones) <==> ones <= 398
  {
    if ones > 398 {
      assert CopySource(ones, 13) + 1 >= HASH_SIZE;
    }
  }

  /** Bit j after the ones and the zero that ends them. */
  predicate BitAfter(hash: Bytes, ones: nat, j: nat) {
    ones + 1 + j < 8 * |hash| && BitAt(hash, ones + 1 + j)
  }

  /** What make_addr leaves in the first 16 bytes: the prefix, the count as a
      byte, and the 112 bits after the zero that ends the ones. */
  function BruteAddress(hash: Bytes): (a: Bytes)
    requires |hash| == HASH_SIZE
    ensures |a| == ADDRESS_SIZE && a[0] == PREFIX && a[1] == CountByte(OnesFrom(hash, 0) % 256)
    ensures forall j: nat | j < 112 :: Tail(a, j) == BitAfter(hash, OnesFrom(hash, 0), j)
  {
    var n := OnesFrom(hash, 0);
    Assemble(CountByte(n % 256), (j: nat) => BitAfter(hash, n, j))
  }

  lemma ShiftLeftBit(x: bv8, r: nat, t: nat)
    requires r < 8 && t < 8
    ensures Bit(x << r, t) == (t + r < 8 && Bit(x, t + r))
  {
    if r == 0 {} else if r == 1 {} else if r == 2 {} else if r == 3 {} else if r == 4 {} else if r == 5 {} else if r == 6 {} else {}
  }

  /** Shifting by a whole byte gives 0, as it does after promotion in C. */
  lemma ShiftRightBit(y: bv8, r: nat, t: nat)
    requires r < 8 && t < 8
    ensures Bit(y >> (8 - r), t) == (t + r >= 8 && Bit(y, t + r - 8))
  {
    if r == 0 {} else if r == 1 {} else if r == 2 {} else if r == 3 {} else if r == 4 {} else if r == 5 {} else if r == 6 {} else {}
  }

  /** The eight hash bits from an offset, joined from two bytes. */
  method JoinAt(hash: Bytes, offset: nat) returns (c: bv8)
    requires offset / 8 + 1 < |hash|
    ensures forall t: nat | t < 8 :: Bit(c, t) == BitAt(hash, offset + t)
  {
    hide Bit;
    c := hash[offset / 8] << (offset % 8);
    c := c | (hash[offset / 8 + 1] >> (8 - offset % 8));
    forall t: nat | t < 8 ensures Bit(c, t) == BitAt(hash, offset + t) {
      var x, y, r := hash[offset / 8], hash[offset / 8 + 1], offset % 8;
      ShiftLeftBit(x, r, t);
      ShiftRightBit(y, r, t);
      OrBit(x << r, y >> (8 - r), t);
    }
  }

  /** An int stored into an unsigned char keeps its value modulo 256. */
  lemma TruncatedByte(n: nat)
    ensures (n % 256) as bv8 == CountByte(n % 256)
  {
    CountByteValue(n % 256);
    ByteOfInt(CountByte(n % 256));
  }

  /** Rewrites the first 16 bytes of the caller's buffer and nothing after them. */
  method MakeAddr(addr: array<bv8>, hash: Bytes)
    requires addr.Length >= ADDRESS_SIZE && |hash| == HASH_SIZE && OnesFrom(hash, 0) <= 398
    modifies addr
    ensures addr[..ADDRESS_SIZE] == BruteAddress(hash)
    ensures addr[ADDRESS_SIZE..] == old(addr[ADDRESS_SIZE..])
  {
    hide Bit, BitAt, Tail, CountByte, OnesFrom, BruteAddress;
    var ones := CountOnes(hash);
    addr[0] := 2;
    addr[1] := (ones % 256) as bv8;
    TruncatedByte(ones);
    ghost var want := BruteAddress(hash);
    var offset := ones + 1;
    for i := 0 to 14
      invariant offset == ones + 1 + 8 * i
      invariant forall q: nat | q < i + 2 :: addr[q] == want[q]
      invariant addr[ADDRESS_SIZE..] == old(addr[ADDRESS_SIZE..])
    {
      var c := JoinAt(hash, offset);
      forall t: nat | t < 8 ensures Bit(c, t) == Bit(want[i + 2], t) {
        TailByte(want, i, t);
        assert Tail(want, 8 * i + t) == BitAfter(hash, ones, 8 * i + t);
      }
      ByteExtensional(c, want[i + 2]);
      addr[i + 2] := c;
      offset := offset + 8;
    }
  }

  lemma TailByte(a: Bytes, i: nat, t: nat)
    requires |a| == ADDRESS_SIZE && i < 14 && t < 8
    ensures Tail(a, 8 * i + t) == Bit(a[i + 2], t)
  {
    BitAtSplit(a, i + 2, t);
  }

  /** On a buffer that starts with an inverted key, the byte-shift form agrees
      with the bit-serial one exactly when the bits past the key's last whole
      payload byte are clear; with at most 143 leading zeros there are none. */
  lemma ShiftFormRefinesSerial(k: Bytes, hash: Bytes)
    requires |k| == KEY_SIZE && |hash| == HASH_SIZE && LeadingZeros(k) < KEY_BITS
    requires forall i: nat | i < KEY_BITS :: BitAt(hash, i) == !BitAt(k, i)
    ensures OnesFrom(hash, 0) == LeadingZeros(k)
    ensures var n := LeadingZeros(k);
            BruteAddress(hash) == AddressOf(k) <==>
            forall j: nat | PayloadBits(n) <= j < 112 :: !BitAfter(hash, n, j)
    ensures LeadingZeros(k) <= 143 ==> BruteAddress(hash) == AddressOf(k)
  {
    hide Bit, BitAt, Tail, CountByte, OnesFrom, BruteAddress, AddressOf, LeadingZeros;
    var n := LeadingZeros(k);
    OnesFromAdvance(hash, n);
    NoOnesHere(hash, n);
    var a, b := BruteAddress(hash), AddressOf(k);
    forall j: nat | j < 112 ensures Tail(a, j) == BitAfter(hash, n, j) && Tail(b, j) == PayloadBit(k, j) {
    }
    if forall j: nat | PayloadBits(n) <= j < 112 :: !BitAfter(hash, n, j) {
      SameAddress(a, b);
    }
  }

  // ----- the list of best keys

  /** A secret key, its public key and the hash they are ranked by: one row of the three parallel lists. */
  datatype Candidate = Candidate(sk: Bytes, pk: Bytes, hash: Bytes)

  ghost predicate Hashed(l: seq<Candidate>) {
    forall c | c in l :: |c.hash| == HASH_SIZE
  }

  ghost predicate AtMost(c: Candidate, d: Candidate)
    requires |c.hash| == |d.hash| == HASH_SIZE
  {
    c.hash == d.hash || Less(c.hash, d.hash)
  }

  lemma AtMostTransitive(c: Candidate, d: Candidate, e: Candidate)
    requires |c.hash| == |d.hash| == |e.hash| == HASH_SIZE && AtMost(c, d) && AtMost(d, e)
    ensures AtMost(c, e)
  {
    hide Less;
    if c.hash != d.hash && d.hash != e.hash {
      LessTransitive(c.hash, d.hash, e.hash);
    }
  }

  ghost predicate Ascending(l: seq<Candidate>)
    requires Hashed(l)
  {
    forall i, j | 0 <= i < j < |l| :: AtMost(l[i], l[j])
  }

  /** memcmp(a, b, 64) > 0. */
  method MemcmpPositive(a: Bytes, b: Bytes) returns (r: bool)
    requires |a| == |b|
    ensures r <==> Less(b, a)
  {
    var j := 0;
    while j < |a|
      invariant 0 <= j <= |a| && forall k: nat | k < j :: a[k] == b[k]
    {
      if a[j] != b[j] {
        assert b[j] < a[j] ==> LessAt(b, a, j);
        return b[j] < a[j];
      }
      j := j + 1;
    }
    return false;
  }

  /** The last row of the leading run of smaller hashes, or -1. */
  ghost predicate IsWhere(hash: Bytes, l: seq<Candidate>, where: int)
    requires |hash| == HASH_SIZE && Hashed(l)
  {
    && -1 <= where < |l|
    && (forall j | 0 <= j <= where :: Less(l[j].hash, hash))
    && (where + 1 < |l| ==> !Less(l[where + 1].hash, hash))
  }

  method FindWhere(hash: Bytes, besthashlist: array<Bytes>, ghost l: seq<Candidate>) returns (where: int)
    requires |hash| == HASH_SIZE && Hashed(l) && |l| == besthashlist.Length
    requires forall j | 0 <= j < |l| :: besthashlist[j] == l[j].hash
    ensures IsWhere(hash, l, where)
  {
    hide Less;
    where := -1;
    var j := 0;
    while j < besthashlist.Length
      invariant 0 <= j <= besthashlist.Length && where == j - 1
      invariant forall i | 0 <= i < j :: Less(l[i].hash, hash)
    {
      assert l[j] in l;
      var greater := MemcmpPositive(hash, besthashlist[j]);
      if !greater {
        break;
      }
      where := where + 1;
      j := j + 1;
    }
  }

  /** The smallest row falls out and the new one goes in at its place. */
  function Inserted<T>(l: seq<T>, x: T, where: nat): (m: seq<T>)
    requires where < |l|
    ensures |m| == |l|
    ensures forall j | 0 <= j < |l| :: m[j] == if j < where then l[j + 1] else if j == where then x else l[j]
  {
    l[1..where + 1] + [x] + l[where + 1..]
  }

  /** insert_32 and insert_64: rows up to the place move down by one, in place. */
  method Insert<T>(itemlist: array<T>, item: T, where: nat)
    requires where < itemlist.Length
    modifies itemlist
    ensures itemlist[..] == Inserted(old(itemlist[..]), item, where)
  {
    var j := 0;
    while j < where
      invariant 0 <= j <= where
      invariant forall i | 0 <= i < j :: itemlist[i] == old(itemlist[i + 1])
      invariant forall i | j <= i < itemlist.Length :: itemlist[i] == old(itemlist[i])
    {
      itemlist[j] := itemlist[j + 1];
      j := j + 1;
    }
    itemlist[where] := item;
  }

  lemma InsertedIsPermutation<T>(l: seq<T>, x: T, where: nat)
    requires where < |l|
    ensures multiset(Inserted(l, x, where)) + multiset{l[0]} == multiset(l) + multiset{x}
  {
    assert l == [l[0]] + l[1..where + 1] + l[where + 1..];
  }

  /** l holds the best |l| of all: it is part of it, and nothing left out outranks anything kept. */
  ghost predicate BestOf(l: seq<Candidate>, all: multiset<Candidate>) {
    && Hashed(l) && (forall c | c in all :: |c.hash| == HASH_SIZE)
    && multiset(l) <= all
    && forall c, d | c in all - multiset(l) && d in l :: AtMost(c, d)
  }

  lemma InsertedAscending(l: seq<Candidate>, c: Candidate, where: nat)
    requires |c.hash| == HASH_SIZE && Hashed(l) && Ascending(l) && IsWhere(c.hash, l, where)
    ensures Hashed(Inserted(l, c, where)) && Ascending(Inserted(l, c, where))
    ensures forall d | d in Inserted(l, c, where) :: AtMost(l[0], d)
  {
    hide Less, Inserted;
    var m := Inserted(l, c, where);
    assert forall j | 0 <= j < |l| :: l[j] in l;
    if where + 1 < |l| {
      LessTotal(l[where + 1].hash, c.hash);
    }
    forall j | where < j < |l| ensures AtMost(c, l[j]) {
      if j > where + 1 {
        AtMostTransitive(c, l[where + 1], l[j]);
      }
    }
    forall i | 0 <= i < |m| ensures |m[i].hash| == HASH_SIZE && AtMost(l[0], m[i]) {
      assert m[i] == if i < where then l[i + 1] else if i == where then c else l[i];
    }
    forall i, j | 0 <= i < j < |m| ensures AtMost(m[i], m[j]) {
      assert m[i] == if i < where then l[i + 1] else if i == where then c else l[i];
      assert m[j] == if j < where then l[j + 1] else if j == where then c else l[j];
    }
  }

  /** Trading one element of a chosen part for a new one trades what is left out the same way. */
  lemma LeftOutAfterTrade<T>(all: multiset<T>, kept: multiset<T>, kept': multiset<T>, out: T, x: T)
    requires kept <= all && kept' + multiset{out} == kept + multiset{x}
    ensures kept' <= all + multiset{x}
    ensures (all + multiset{x}) - kept' == (all - kept) + multiset{out}
  {
    forall e ensures kept'[e] + multiset{out}[e] == kept[e] + multiset{x}[e] && kept[e] <= all[e] {
      assert (kept' + multiset{out})[e] == (kept + multiset{x})[e];
    }
  }

  /** One candidate keeps the list the sorted best of everything offered. */
  lemma ConsiderKeepsBest(l: seq<Candidate>, all: multiset<Candidate>, c: Candidate, where: int)
    requires |l| > 0 && |c.hash| == HASH_SIZE && BestOf(l, all) && Ascending(l) && IsWhere(c.hash, l, where)
    ensures var m := if where >= 0 then Inserted(l, c, where) else l;
            BestOf(m, all + multiset{c}) && Ascending(m)
  {
    hide Less, Inserted;
    assert l[0] in l;
    var m := if where >= 0 then Inserted(l, c, where) else l;
    var out := if where >= 0 then l[0] else c;
    if where >= 0 {
      InsertedAscending(l, c, where);
      InsertedIsPermutation(l, c, where);
    } else {
      LessTotal(l[0].hash, c.hash);
    }
    LeftOutAfterTrade(all, multiset(l), multiset(m), out, c);
    forall x, d | x in (all + multiset{c}) - multiset(m) && d in m ensures AtMost(x, d) {
      assert AtMost(x, l[0]);
      assert AtMost(l[0], d) by {
        if where < 0 {
          var j :| 0 <= j < |l| && l[j] == d;
        }
      }
      AtMostTransitive(x, l[0], d);
    }
  }

  const ZERO_ROW := Candidate(seq(32, i => 0), seq(32, i => 0), seq(64, i => 0))

  ghost predicate Aligned(sks: seq<Bytes>, pks: seq<Bytes>, hashes: seq<Bytes>, l: seq<Candidate>) {
    && |sks| == |pks| == |hashes| == |l|
    && forall j | 0 <= j < |l| :: l[j] == Candidate(sks[j], pks[j], hashes[j])
  }

  lemma ZerosAreBest(l: seq<Candidate>)
    requires forall c | c in l :: c == ZERO_ROW
    ensures Hashed(l) && Ascending(l) && BestOf(l, multiset(l) + multiset([]))
  {
    assert (multiset(l) + multiset([])) - multiset(l) == multiset{};
  }

  lemma InsertedAligned(sks: seq<Bytes>, pks: seq<Bytes>, hashes: seq<Bytes>, l: seq<Candidate>, c: Candidate, where: nat)
    requires Aligned(sks, pks, hashes, l) && where < |l|
    ensures Aligned(Inserted(sks, c.sk, where), Inserted(pks, c.pk, where), Inserted(hashes, c.hash, where), Inserted(l, c, where))
  {
  }

  /** One pass of the search: a better candidate goes into all three lists at one place. */
  method Consider(sks: array<Bytes>, pks: array<Bytes>, hashes: array<Bytes>, c: Candidate,
                  ghost best: seq<Candidate>, ghost all: multiset<Candidate>)
    returns (ghost best': seq<Candidate>)
    requires sks != pks && pks != hashes && sks != hashes && best != []
    requires |c.hash| == HASH_SIZE && Hashed(best) && Aligned(sks[..], pks[..], hashes[..], best)
    requires Ascending(best) && BestOf(best, all)
    modifies sks, pks, hashes
    ensures Hashed(best') && Aligned(sks[..], pks[..], hashes[..], best')
    ensures Ascending(best') && BestOf(best', all + multiset{c})
  {
    hide Less, BestOf, Ascending;
    assert forall j | 0 <= j < |best| :: hashes[..][j] == best[j].hash;
    var where := FindWhere(c.hash, hashes, best);
    ConsiderKeepsBest(best, all, c, where);
    best' := best;
    if where >= 0 {
      InsertedAligned(sks[..], pks[..], hashes[..], best, c, where);
      Insert(sks, c.sk, where);
      Insert(pks, c.pk, where);
      Insert(hashes, c.hash, where);
      best' := Inserted(best, c, where);
    }
  }

  /** The search over any run of candidates, from three lists of zeros. What
      remains is sorted, row-aligned, and the ten best of the ten zero rows and
      everything tried. */
  method Search(candidates: seq<Candidate>)
    returns (sks: seq<Bytes>, pks: seq<Bytes>, hashes: seq<Bytes>, ghost best: seq<Candidate>)
    requires Hashed(candidates)
    ensures Aligned(sks, pks, hashes, best) && |hashes| == NUMKEYS
    ensures Hashed(best) && Ascending(best)
    ensures BestOf(best, multiset(seq(NUMKEYS, i => ZERO_ROW)) + multiset(candidates))
  {
    hide Less, BestOf, Ascending;
    var bestsklist := new Bytes[NUMKEYS](i => ZERO_ROW.sk);
    var bestpklist := new Bytes[NUMKEYS](i => ZERO_ROW.pk);
    var besthashlist := new Bytes[NUMKEYS](i => ZERO_ROW.hash);
    best := seq(NUMKEYS, i => ZERO_ROW);
    ghost var zeros := multiset(best);
    ZerosAreBest(best);
    for i := 0 to |candidates|
      invariant Aligned(bestsklist[..], bestpklist[..], besthashlist[..], best) && |best| == NUMKEYS
      invariant Hashed(best) && Ascending(best)
      invariant BestOf(best, zeros + multiset(candidates[..i]))
    {
      assert candidates[i] in candidates && candidates[..i + 1] == candidates[..i] + [candidates[i]];
      assert zeros + multiset(candidates[..i + 1]) == (zeros + multiset(candidates[..i])) + multiset{candidates[i]};
      best := Consider(bestsklist, bestpklist, besthashlist, candidates[i], best, zeros + multiset(candidates[..i]));
    }
    assert candidates[..|candidates|] == candidates;
    sks, pks, hashes := bestsklist[..], bestpklist[..], besthashlist[..];
  }
}
