/** Lists of keys in debug replies (src/core/proto.go): as many as fit a
message, and what the asking node makes of them. */
module Packing {
  import opened Constants
  import opened Octets
  import opened Results

  const SESSION_PROTO: Octet := 2
  const PROTO_DEBUG: Octet := 255
  const LARGEST: nat := 65535

  /** Core.MTU: one byte less than the connection carries, in 64 bits, and capped. */
  function CoreMTU(mtu: nat): nat
    requires mtu < TWO64
  {
    var m := (mtu - 1) % TWO64;
    if m > LARGEST then LARGEST else m
  }

  /** What _sendDebug puts on the wire. */
  function Message(kind: Octet, payload: Octets): Octets {
    [SESSION_PROTO, PROTO_DEBUG, kind] + payload
  }

  function Flatten(keys: seq<Octets>): Octets {
    if keys == [] then [] else Flatten(keys[..|keys| - 1]) + keys[|keys| - 1]
  }

  /** A key is 32 bytes, or none for a peer that has not connected. */
  predicate KeysOrNone(keys: seq<Octets>) {
    forall i | 0 <= i < |keys| :: |keys[i]| == KEY_SIZE || keys[i] == []
  }

  function Present(keys: seq<Octets>): seq<Octets> {
    if keys == [] then []
    else
      var rest, k := Present(keys[..|keys| - 1]), keys[|keys| - 1];
      if k == [] then rest else rest + [k]
  }

  predicate Fits(keys: seq<Octets>, n: nat, kind: Octet, room: nat)
    requires n <= |keys|
  {
    |Message(kind, Flatten(keys[..n]))| <= room
  }

  lemma FlattenNext(keys: seq<Octets>, n: nat)
    requires n < |keys|
    ensures Flatten(keys[..n + 1]) == Flatten(keys[..n]) + keys[n]
  {
    assert keys[..n + 1][..n] == keys[..n];
  }

  lemma {:induction false} LongerPrefixes(keys: seq<Octets>, m: nat, n: nat)
    requires m <= n <= |keys|
    ensures |Flatten(keys[..m])| <= |Flatten(keys[..n])|
    decreases n
  {
    if m < n {
      FlattenNext(keys, n - 1);
      LongerPrefixes(keys, m, n - 1);
    }
  }

  /** The loop of a reply: appends keys until one does not fit. */
  method PackKeys(keys: seq<Octets>, mtu: nat) returns (bs: Octets, n: nat)
    requires mtu < TWO64
    ensures n <= |keys| && bs == Flatten(keys[..n])
    ensures n > 0 ==> |bs| + 2 <= CoreMTU(mtu)
    ensures n < |keys| ==> |Flatten(keys[..n + 1])| + 2 > CoreMTU(mtu)
  {
    bs, n := [], 0;
    while n < |keys|
      invariant n <= |keys| && bs == Flatten(keys[..n]) && (n > 0 ==> |bs| + 2 <= CoreMTU(mtu))
    {
      var tmp := bs + keys[n];
      FlattenNext(keys, n);
      if |tmp| + 2 > CoreMTU(mtu) {
        return;
      }
      bs, n := tmp, n + 1;
    }
  }

  /** The number of keys the loop packs. */
  ghost predicate Packs(keys: seq<Octets>, mtu: nat, n: nat)
    requires mtu < TWO64
  {
    && n <= |keys| && (n > 0 ==> |Flatten(keys[..n])| + 2 <= CoreMTU(mtu))
    && (n < |keys| ==> |Flatten(keys[..n + 1])| + 2 > CoreMTU(mtu))
  }

  /** The message fits the connection, whatever the keys, exactly if the connection carries three bytes at all. */
  lemma MessageFits(mtu: nat, kind: Octet)
    requires mtu < TWO64
    ensures (forall keys, n | Packs(keys, mtu, n) :: Fits(keys, n, kind, mtu)) <==> mtu >= 3
  {
    if mtu < 3 {
      assert Packs([], mtu, 0) && !Fits([], 0, kind, mtu);
    } else {
      forall keys, n | Packs(keys, mtu, n) ensures Fits(keys, n, kind, mtu) {
        assert n == 0 ==> keys[..n] == [];
      }
    }
  }

  /** The packed keys are the longest list from the front that fits both the connection and 65536 bytes. */
  lemma LongestThatFits(keys: seq<Octets>, mtu: nat, n: nat, kind: Octet, k: nat)
    requires 3 <= mtu < TWO64 && Packs(keys, mtu, n) && k <= |keys|
    ensures Fits(keys, k, kind, if mtu <= LARGEST + 1 then mtu else LARGEST + 1) <==> k <= n
  {
    if k <= n {
      LongerPrefixes(keys, k, n);
      assert k == 0 ==> keys[..k] == [];
    } else {
      LongerPrefixes(keys, n + 1, k);
    }
  }

  lemma {:induction false} FlattenedLength(keys: seq<Octets>)
    requires KeysOrNone(keys)
    ensures |Flatten(keys)| == KEY_SIZE * |Present(keys)|
  {
    if keys != [] {
      FlattenedLength(keys[..|keys| - 1]);
    }
  }

  lemma {:induction false} PresentGrows(keys: seq<Octets>, m: nat, n: nat)
    requires m <= n <= |keys|
    ensures |Present(keys[..m])| <= |Present(keys[..n])|
    decreases n
  {
    if m < n {
      assert keys[..n][..n - 1] == keys[..n - 1];
      PresentGrows(keys, m, n - 1);
    }
  }

  /** It is the longest that fits the connection alone exactly if the cap of 65535 does not bite:
      the connection carries less than 65539 bytes, or there are at most 2047 keys. */
  lemma LongestUnlessCapped(keys: seq<Octets>, mtu: nat, n: nat, kind: Octet)
    requires 3 <= mtu < TWO64 && Packs(keys, mtu, n) && KeysOrNone(keys)
    ensures (forall k: nat | n < k <= |keys| :: !Fits(keys, k, kind, mtu)) <==> mtu < 65539 || |Present(keys)| <= 2047
  {
    hide Flatten, Present, KeysOrNone;
    PrefixesOfKeys(keys);
    FlattenedLength(keys[..n]);
    assert keys[..|keys|] == keys;
    PresentGrows(keys, n, |keys|);
    if n < |keys| {
      FlattenedLength(keys[..n + 1]);
      PresentGrows(keys, n + 1, |keys|);
      PresentStep(keys, n);
      forall k: nat | n < k <= |keys| ensures |Flatten(keys[..k])| >= |Flatten(keys[..n + 1])| {
        LongerPrefixes(keys, n + 1, k);
      }
      if mtu >= 65539 && |Present(keys)| > 2047 {
        assert Fits(keys, n + 1, kind, mtu);
      }
    }
  }

  lemma PrefixesOfKeys(keys: seq<Octets>)
    requires KeysOrNone(keys)
    ensures forall n: nat | n <= |keys| :: KeysOrNone(keys[..n])
    ensures Flatten(keys[..0]) == [] && Present(keys[..0]) == []
  {
  }

  lemma PresentStep(keys: seq<Octets>, n: nat)
    requires n < |keys|
    ensures |Present(keys[..n + 1])| <= |Present(keys[..n])| + 1
  {
    assert keys[..n + 1][..n] == keys[..n];
  }

  // ----- the asking side

  /** The loop of the admin handlers: whole keys, in order; a shorter rest is dropped. */
  method SplitKeys(info: Octets) returns (keys: seq<Octets>)
    ensures forall i | 0 <= i < |keys| :: |keys[i]| == KEY_SIZE
    ensures KEY_SIZE * |keys| <= |info| < KEY_SIZE * |keys| + KEY_SIZE
    ensures Flatten(keys) == info[..KEY_SIZE * |keys|]
  {
    keys := [];
    var bs := info;
    while |bs| >= KEY_SIZE
      invariant forall i | 0 <= i < |keys| :: |keys[i]| == KEY_SIZE
      invariant KEY_SIZE * |keys| <= |info| && bs == info[KEY_SIZE * |keys|..]
      invariant Flatten(keys) == info[..KEY_SIZE * |keys|]
      decreases |bs|
    {
      ghost var before := keys;
      keys := keys + [bs[..KEY_SIZE]];
      bs := bs[KEY_SIZE..];
      assert keys[..|before|] == before;
    }
  }

  /** Whole keys are told from their concatenation. */
  lemma {:induction false} FlattenInjective(a: seq<Octets>, b: seq<Octets>)
    requires forall i | 0 <= i < |a| :: |a[i]| == KEY_SIZE
    requires forall i | 0 <= i < |b| :: |b[i]| == KEY_SIZE
    requires Flatten(a) == Flatten(b)
    ensures a == b
    decreases |a|
  {
    WholeLength(a);
    WholeLength(b);
    if a != [] {
      var a0, b0 := a[..|a| - 1], b[..|b| - 1];
      WholeLength(a0);
      WholeLength(b0);
      var n := KEY_SIZE * |a0|;
      assert Flatten(a)[..n] == Flatten(a0) && Flatten(b)[..n] == Flatten(b0);
      assert Flatten(a)[n..] == a[|a| - 1] && Flatten(b)[n..] == b[|b| - 1];
      FlattenInjective(a0, b0);
      assert a == a0 + [a[|a| - 1]] && b == b0 + [b[|b| - 1]];
    }
  }

  lemma {:induction false} WholeLength(keys: seq<Octets>)
    requires forall i | 0 <= i < |keys| :: |keys[i]| == KEY_SIZE
    ensures |Flatten(keys)| == KEY_SIZE * |keys|
  {
    if keys != [] {
      WholeLength(keys[..|keys| - 1]);
    }
  }

  lemma {:induction false} FlattenPresent(keys: seq<Octets>)
    requires KeysOrNone(keys)
    ensures Flatten(Present(keys)) == Flatten(keys)
    ensures forall i | 0 <= i < |Present(keys)| :: |Present(keys)[i]| == KEY_SIZE
  {
    if keys != [] {
      var rest, k := keys[..|keys| - 1], keys[|keys| - 1];
      FlattenPresent(rest);
      if k != [] {
        assert (Present(rest) + [k])[..|Present(rest)|] == Present(rest);
      }
    }
  }

  /** Asking and answering together: the asking node gets exactly the keys of the packed part, in order. */
  method AskedKeys(keys: seq<Octets>, mtu: nat) returns (got: seq<Octets>, n: nat)
    requires mtu < TWO64 && KeysOrNone(keys)
    ensures Packs(keys, mtu, n) && got == Present(keys[..n])
  {
    var bs;
    bs, n := PackKeys(keys, mtu);
    got := SplitKeys(bs);
    FlattenPresent(keys[..n]);
    WholeLength(Present(keys[..n]));
    assert bs[..KEY_SIZE * |got|] == bs;
    FlattenInjective(got, Present(keys[..n]));
  }

  // ----- the way to the handlers

  /** What the receiving node makes of a message: the kind of debug message and its payload, for the debug handlers. */
  function Dispatched(bs: Octets): Option<(Octet, Octets)> {
    if bs == [] || bs[0] != 2 then None // a session packet of another type
    else if |bs| < 2 || bs[1] != 255 then None // a protocol message of another type
    else if |bs| < 3 then None
    else Some((bs[2], bs[3..]))
  }

  /** Exactly the debug messages reach the debug handlers, with their kind and payload. */
  lemma DebugMessagesDispatched(bs: Octets, kind: Octet, payload: Octets)
    ensures Dispatched(bs) == Some((kind, payload)) <==> bs == Message(kind, payload)
  {
    if |bs| >= 3 {
      assert bs == [bs[0], bs[1], bs[2]] + bs[3..];
    }
  }
}
