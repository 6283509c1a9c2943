/** The key store as the source runs it (src/ipv6rwc/ipv6rwc.go): five maps, a
table of timers and the packet filters on the way in and out of the node. */
module KeyStore {
  import opened Constants
  import opened Bits
  import opened Address
  import opened AddressLaws
  import opened Results
  import opened Routing

  const MIN_MTU: nat := 1280
  const HEADER_SIZE: nat := 40

  // ----- packet filters

  predicate IsIPv6(bs: Bytes)
    requires |bs| > 0
  {
    bs[0] & 0xf0 == 0x60
  }

  function Source(bs: Bytes): Bytes
    requires |bs| >= HEADER_SIZE
  {
    bs[8..24]
  }

  function Destination(bs: Bytes): Bytes
    requires |bs| >= HEADER_SIZE
  {
    bs[24..40]
  }

  /** An address is a node's own, or lies in its subnet. */
  predicate BelongsTo(a: Bytes, key: Bytes)
    requires |a| == ADDRESS_SIZE && |key| == KEY_SIZE
  {
    a == AddressOf(key) || a[..8] == SubnetOf(key)
  }

  datatype Route = Empty | NotIPv6 | Undersized | BadSource | BadDestination | To(dest: Bytes)

  /** What writePC decides about a packet of the node with this key. */
  function RouteOf(key: Bytes, bs: Bytes): Route
    requires |key| == KEY_SIZE
  {
    if bs == [] then Empty
    else if !IsIPv6(bs) then NotIPv6
    else if |bs| < HEADER_SIZE then Undersized
    else if !BelongsTo(Source(bs), key) then BadSource
    else if IsValidAddress(Destination(bs)) then To(Destination(bs))
    else if IsValidSubnet(Destination(bs)[..8]) then To(Destination(bs)[..8])
    else BadDestination
  }

  function Written(s: Store, key: Bytes, bs: Bytes): Store
    requires |key| == KEY_SIZE
  {
    match RouteOf(key, bs)
    case To(dest) => Send(s, dest, bs)
    case _ => s
  }

  /** What a send hands over to the core: the packet, if its destination is indexed. */
  function HandsOver(s: Store, dest: Bytes, bs: Bytes): seq<Outgoing> {
    if dest in s.index then [Outgoing(bs, s.index[dest].key)] else []
  }

  /** The lookup a send makes: for the key the destination recovers, if it is not indexed. */
  function LookupTo(s: Store, dest: Bytes): seq<Bytes> {
    if dest in s.index then []
    else if |dest| == ADDRESS_SIZE then [PartialKey(dest)]
    else if |dest| == SUBNET_SIZE then [PartialKeyOfSubnet(dest)]
    else []
  }

  function LookupsWritten(s: Store, key: Bytes, bs: Bytes): seq<Bytes>
    requires |key| == KEY_SIZE
  {
    match RouteOf(key, bs)
    case To(dest) => LookupTo(s, dest)
    case _ => []
  }

  /** What SetMTU makes of a wish: at most what the core carries, but at least 1280. */
  function Clamped(wanted: nat, maxMTU: nat): (m: nat)
    ensures 1280 <= m && (m <= maxMTU || m == 1280)
    ensures 1280 <= wanted <= maxMTU ==> m == wanted
    ensures wanted > maxMTU >= 1280 ==> m == maxMTU
    ensures wanted < 1280 || maxMTU < 1280 ==> m == 1280
  {
    var capped := if wanted > maxMTU then maxMTU else wanted;
    if capped < MIN_MTU then MIN_MTU else capped
  }

  /** A packet from the network, and the key it came from. */
  datatype Delivery = Delivery(bytes: Bytes, from: Bytes)

  /** Builds the answer to an oversized packet, if it can. */
  type TooBig = (Bytes, nat) -> Option<Bytes>

  /** What readPC does with one delivery: the packet for the caller, if it passes, and the new state. */
  function ReadOne(s: Store, key: Bytes, mtu: nat, d: Delivery, tooBig: TooBig): (Store, Option<Bytes>)
    requires |key| == |d.from| == KEY_SIZE
  {
    var bs := d.bytes;
    if bs == [] || !IsIPv6(bs) || |bs| < HEADER_SIZE then (s, None)
    else if |bs| > mtu then
      match tooBig(bs, mtu)
      case Some(packet) => (Written(s, key, packet), None)
      case None => (s, None)
    else if !BelongsTo(Destination(bs), key) then (s, None)
    else (Update(s, d.from), if BelongsTo(Source(bs), d.from) then Some(bs) else None)
  }

  /** The lookups that come of a delivery: only the answer to an oversized one makes any. */
  function LookupsRead(s: Store, key: Bytes, mtu: nat, d: Delivery, tooBig: TooBig): seq<Bytes>
    requires |key| == KEY_SIZE
  {
    var bs := d.bytes;
    if bs == [] || !IsIPv6(bs) || HEADER_SIZE > |bs| || |bs| <= mtu || tooBig(bs, mtu) == None then []
    else LookupsWritten(s, key, tooBig(bs, mtu).value)
  }

  /** What others may do between two deliveries, when readPC holds no lock. */
  datatype Other = Writes(bytes: Bytes) | FindsPath(key: Bytes) | TimerRuns(timer: Timer, late: bool) | SetsMTU(wanted: nat, maxMTU: nat)

  /** What readPC meets, in order. */
  datatype Turn = Arrives(delivery: Delivery) | Meanwhile(other: Other)

  /** The store, the MTU and the lookups made so far. */
  datatype Situation = Situation(s: Store, mtu: nat, lookups: seq<Bytes>)

  /** Something that cannot happen now does not. */
  function AfterOther(x: Situation, key: Bytes, o: Other): Situation
    requires |key| == KEY_SIZE
  {
    match o
    case Writes(bs) => Situation(Written(x.s, key, bs), x.mtu, x.lookups + LookupsWritten(x.s, key, bs))
    case FindsPath(k) => if |k| == KEY_SIZE then x.(s := Update(x.s, k)) else x
    case TimerRuns(t, late) => if MayFire(x.s.timers, t, late) then x.(s := Fire(x.s, t, late)) else x
    case SetsMTU(wanted, maxMTU) => x.(mtu := Clamped(wanted, maxMTU))
  }

  datatype ReadResult = ReadResult(at: Situation, packet: Option<Bytes>, rest: seq<Turn>)

  predicate FromKeys(ts: seq<Turn>) {
    forall t | t in ts && t.Arrives? :: |t.delivery.from| == KEY_SIZE
  }

  /** readPC's loop: skip deliveries until one passes the filters as they stand then; without one, the read fails. */
  function ReadAll(x: Situation, key: Bytes, ts: seq<Turn>, tooBig: TooBig): ReadResult
    requires |key| == KEY_SIZE && FromKeys(ts)
    decreases |ts|
  {
    if ts == [] then ReadResult(x, None, [])
    else if ts[0].Meanwhile? then ReadAll(AfterOther(x, key, ts[0].other), key, ts[1..], tooBig)
    else
      var d := ts[0].delivery;
      var (s', packet) := ReadOne(x.s, key, x.mtu, d, tooBig);
      var x' := Situation(s', x.mtu, x.lookups + LookupsRead(x.s, key, x.mtu, d, tooBig));
      if packet != None then ReadResult(x', packet, ts[1..]) else ReadAll(x', key, ts[1..], tooBig)
  }

  // ----- what the filters promise each other

  lemma SlicesOfDestination(bs: Bytes)
    requires |bs| >= HEADER_SIZE
    ensures |Source(bs)| == |Destination(bs)| == ADDRESS_SIZE && |Destination(bs)[..8]| == SUBNET_SIZE
  {
  }

  /** Whatever one node lets out to a key, the node with that key lets in,
      byte for byte, if it fits its MTU. */
  lemma EndToEnd(sender: Bytes, receiver: Bytes, bs: Bytes, s: Store, mtu: nat, tooBig: TooBig)
    requires |sender| == |receiver| == KEY_SIZE && |bs| <= mtu
    requires RouteOf(sender, bs).To? && Derives(receiver, RouteOf(sender, bs).dest)
    ensures ReadOne(s, receiver, mtu, Delivery(bs, sender), tooBig) == (Update(s, sender), Some(bs))
  {
    hide AddressOf, SubnetOf, Update, IsIPv6;
    SlicesOfDestination(bs);
    DestinationsDiffer(receiver);
    DestinationLengths(receiver);
  }

  lemma DestinationLengths(key: Bytes)
    requires |key| == KEY_SIZE
    ensures |AddressOf(key)| == ADDRESS_SIZE && |SubnetOf(key)| == SUBNET_SIZE
  {
  }

  /** What writePC makes of a packet, told from its bytes: it has a route exactly
      if it is an IPv6 packet of at least 40 bytes, from the node's address or
      subnet, to an address or subnet of the network, which is then the route. */
  lemma RouteExactly(key: Bytes, bs: Bytes)
    requires |key| == KEY_SIZE
    ensures RouteOf(key, bs) == Empty <==> |bs| == 0
    ensures RouteOf(key, bs) == NotIPv6 <==> |bs| > 0 && bs[0] & 0xf0 != 0x60
    ensures RouteOf(key, bs) == Undersized <==> 0 < |bs| < 40 && bs[0] & 0xf0 == 0x60
    ensures |bs| >= 40 && bs[0] & 0xf0 == 0x60 ==>
              var own := bs[8..24] == AddressOf(key) || bs[8..16] == SubnetOf(key);
              && (RouteOf(key, bs) == BadSource <==> !own)
              && (RouteOf(key, bs) == BadDestination <==> own && bs[24] != 2 && bs[24] != 3)
              && (own && bs[24] == 2 ==> RouteOf(key, bs) == To(bs[24..40]))
              && (own && bs[24] == 3 ==> RouteOf(key, bs) == To(bs[24..32]))
  {
    hide AddressOf, SubnetOf;
    if |bs| >= 40 {
      HeaderParts(bs);
    }
  }

  lemma HeaderParts(bs: Bytes)
    requires |bs| >= 40
    ensures Source(bs) == bs[8..24] && Source(bs)[..8] == bs[8..16]
    ensures Destination(bs) == bs[24..40] && Destination(bs)[..8] == bs[24..32] && Destination(bs)[0] == bs[24]
  {
  }

  /** The converse of EndToEnd: every IPv6 packet from one node's address or
      subnet to another's is routed to a destination of that node, and returned
      by it byte for byte, if it fits its MTU. */
  lemma EveryPacketFindsItsWay(sender: Bytes, receiver: Bytes, bs: Bytes, s: Store, mtu: nat, tooBig: TooBig)
    requires |sender| == |receiver| == KEY_SIZE && 40 <= |bs| <= mtu && bs[0] & 0xf0 == 0x60
    requires bs[8..24] == AddressOf(sender) || bs[8..16] == SubnetOf(sender)
    requires bs[24..40] == AddressOf(receiver) || bs[24..32] == SubnetOf(receiver)
    ensures RouteOf(sender, bs).To? && Derives(receiver, RouteOf(sender, bs).dest)
    ensures ReadOne(s, receiver, mtu, Delivery(bs, sender), tooBig) == (Update(s, sender), Some(bs))
  {
    hide AddressOf, SubnetOf, Update, RouteOf, ReadOne;
    RouteExactly(sender, bs);
    FirstBytes(receiver);
    assert bs[24..40][0] == bs[24] == bs[24..32][0];
    EndToEnd(sender, receiver, bs, s, mtu, tooBig);
  }

  lemma FirstBytes(key: Bytes)
    requires |key| == KEY_SIZE
    ensures |AddressOf(key)| == 16 && AddressOf(key)[0] == 2 && |SubnetOf(key)| == 8 && SubnetOf(key)[0] == 3
  {
  }

  /** What readPC makes of a delivery, told from its bytes: it is returned
      exactly if it is an IPv6 packet of at least 40 bytes and at most the MTU, to
      this node's address or subnet and from the sender's; the sender is noted
      exactly if all but the last holds; and only one that is too big is answered. */
  lemma ReadExactly(s: Store, key: Bytes, mtu: nat, d: Delivery, tooBig: TooBig)
    requires |key| == |d.from| == KEY_SIZE
    ensures var bs := d.bytes;
            var (v, packet) := ReadOne(s, key, mtu, d, tooBig);
            if |bs| < 40 || bs[0] & 0xf0 != 0x60 then packet == None && v == s
            else if |bs| > mtu then packet == None && v == match tooBig(bs, mtu) case None => s case Some(a) => Written(s, key, a)
            else if bs[24..40] != AddressOf(key) && bs[24..32] != SubnetOf(key) then packet == None && v == s
            else
              && v == Update(s, d.from)
              && packet == if bs[8..24] == AddressOf(d.from) || bs[8..16] == SubnetOf(d.from) then Some(bs) else None
  {
    hide AddressOf, SubnetOf, Update, Written;
    if |d.bytes| >= 40 {
      HeaderParts(d.bytes);
    }
  }

  /** The situation after one turn, and after the first n. */
  ghost function AfterTurn(x: Situation, key: Bytes, t: Turn, tooBig: TooBig): Situation
    requires |key| == KEY_SIZE && (t.Arrives? ==> |t.delivery.from| == KEY_SIZE)
  {
    match t
    case Meanwhile(o) => AfterOther(x, key, o)
    case Arrives(d) =>
      Situation(ReadOne(x.s, key, x.mtu, d, tooBig).0, x.mtu, x.lookups + LookupsRead(x.s, key, x.mtu, d, tooBig))
  }

  ghost function AfterTurns(x: Situation, key: Bytes, ts: seq<Turn>, n: nat, tooBig: TooBig): Situation
    requires |key| == KEY_SIZE && FromKeys(ts) && n <= |ts|
    decreases n
  {
    if n == 0 then x else FromKeysRest(ts); AfterTurns(AfterTurn(x, key, ts[0], tooBig), key, ts[1..], n - 1, tooBig)
  }

  lemma FromKeysRest(ts: seq<Turn>)
    requires FromKeys(ts) && ts != []
    ensures FromKeys(ts[1..]) && (ts[0].Arrives? ==> |ts[0].delivery.from| == KEY_SIZE)
  {
    assert forall t | t in ts[1..] :: t in ts;
  }

  /** A delivery that readPC returns, told from its bytes. */
  predicate Passes(key: Bytes, mtu: nat, t: Turn)
    requires |key| == KEY_SIZE && (t.Arrives? ==> |t.delivery.from| == KEY_SIZE)
  {
    t.Arrives? && var bs, k := t.delivery.bytes, t.delivery.from;
    && 40 <= |bs| <= mtu && bs[0] & 0xf0 == 0x60
    && (bs[24..40] == AddressOf(key) || bs[24..32] == SubnetOf(key))
    && (bs[8..24] == AddressOf(k) || bs[8..16] == SubnetOf(k))
  }

  ghost predicate PassesAt(x: Situation, key: Bytes, ts: seq<Turn>, n: nat, tooBig: TooBig)
    requires |key| == KEY_SIZE && FromKeys(ts) && n < |ts|
  {
    assert ts[n] in ts;
    Passes(key, AfterTurns(x, key, ts, n, tooBig).mtu, ts[n])
  }

  /** The n-th turn is the first delivery that passes, and what a read returns. */
  ghost predicate ReturnedAt(x: Situation, key: Bytes, ts: seq<Turn>, n: nat, tooBig: TooBig, r: ReadResult)
    requires |key| == KEY_SIZE && FromKeys(ts)
  {
    && n < |ts| && ts[n].Arrives? && PassesAt(x, key, ts, n, tooBig) && r.packet == Some(ts[n].delivery.bytes)
    && (forall m: nat | m < n :: !PassesAt(x, key, ts, m, tooBig))
    && r.rest == ts[n + 1..] && r.at == AfterTurns(x, key, ts, n + 1, tooBig)
  }

  ghost predicate NonePasses(x: Situation, key: Bytes, ts: seq<Turn>, tooBig: TooBig)
    requires |key| == KEY_SIZE && FromKeys(ts)
  {
    forall n: nat | n < |ts| :: !PassesAt(x, key, ts, n, tooBig)
  }

  /** The turns after the first are met in the situation after it. */
  lemma PassesLater(x: Situation, key: Bytes, ts: seq<Turn>, n: nat, tooBig: TooBig)
    requires |key| == KEY_SIZE && FromKeys(ts) && 0 < n < |ts|
    ensures FromKeys(ts[1..]) && (ts[0].Arrives? ==> |ts[0].delivery.from| == KEY_SIZE)
    ensures PassesAt(x, key, ts, n, tooBig) == PassesAt(AfterTurn(x, key, ts[0], tooBig), key, ts[1..], n - 1, tooBig)
  {
    hide Passes, AfterTurn;
    FromKeysRest(ts);
  }

  lemma ReturnedLater(x: Situation, key: Bytes, ts: seq<Turn>, n: nat, tooBig: TooBig, r: ReadResult)
    requires |key| == KEY_SIZE && FromKeys(ts) && ts != [] && !PassesAt(x, key, ts, 0, tooBig)
    requires FromKeys(ts[1..]) && (ts[0].Arrives? ==> |ts[0].delivery.from| == KEY_SIZE)
    requires ReturnedAt(AfterTurn(x, key, ts[0], tooBig), key, ts[1..], n, tooBig, r)
    ensures ReturnedAt(x, key, ts, n + 1, tooBig, r)
  {
    hide Passes, AfterTurn, PassesAt;
    PassesLater(x, key, ts, n + 1, tooBig);
    forall m: nat | m < n + 1 ensures !PassesAt(x, key, ts, m, tooBig) {
      if m > 0 {
        PassesLater(x, key, ts, m, tooBig);
      }
    }
    assert ts[1..][n + 1..] == ts[n + 2..];
  }

  /** readPC returns the first delivery that passes under the MTU then in force,
      with everything before it and itself taken into account and nothing after
      it; and it fails only if none does. */
  lemma {:induction false} FirstThatPasses(x: Situation, key: Bytes, ts: seq<Turn>, tooBig: TooBig)
    requires |key| == KEY_SIZE && FromKeys(ts)
    ensures var r := ReadAll(x, key, ts, tooBig);
            if r.packet == None
            then r.rest == [] && r.at == AfterTurns(x, key, ts, |ts|, tooBig) && NonePasses(x, key, ts, tooBig)
            else exists n: nat :: ReturnedAt(x, key, ts, n, tooBig, r)
    decreases |ts|
  {
    hide Passes, AfterTurn, ReturnedAt, ReadAll;
    if ts == [] {
      NoTurns(x, key, tooBig);
    } else {
      FirstTurn(x, key, ts, tooBig);
      var y, r := AfterTurn(x, key, ts[0], tooBig), ReadAll(x, key, ts, tooBig);
      if PassesAt(x, key, ts, 0, tooBig) {
        ReturnedFirst(x, key, ts, tooBig, r);
      } else {
        FirstThatPasses(y, key, ts[1..], tooBig);
        if r.packet == None {
          forall m: nat | m < |ts| ensures !PassesAt(x, key, ts, m, tooBig) {
            if m > 0 {
              PassesLater(x, key, ts, m, tooBig);
            }
          }
        } else {
          var n: nat :| ReturnedAt(y, key, ts[1..], n, tooBig, r);
          ReturnedLater(x, key, ts, n, tooBig, r);
        }
      }
    }
  }

  lemma NoTurns(x: Situation, key: Bytes, tooBig: TooBig)
    requires |key| == KEY_SIZE
    ensures ReadAll(x, key, [], tooBig) == ReadResult(x, None, [])
  {
  }

  lemma ReturnedFirst(x: Situation, key: Bytes, ts: seq<Turn>, tooBig: TooBig, r: ReadResult)
    requires |key| == KEY_SIZE && FromKeys(ts) && ts != [] && PassesAt(x, key, ts, 0, tooBig)
    requires ts[0].Arrives? ==> |ts[0].delivery.from| == KEY_SIZE
    requires ts[0].Arrives? ==> r == ReadResult(AfterTurn(x, key, ts[0], tooBig), Some(ts[0].delivery.bytes), ts[1..])
    ensures ReturnedAt(x, key, ts, 0, tooBig, r)
  {
    hide AfterTurn, AddressOf, SubnetOf;
    FromKeysRest(ts);
    assert ts[0 + 1..] == ts[1..];
    assert AfterTurns(x, key, ts, 1, tooBig) == AfterTurns(AfterTurn(x, key, ts[0], tooBig), key, ts[1..], 0, tooBig);
  }

  /** The first turn decides, or leaves the rest to decide. */
  lemma FirstTurn(x: Situation, key: Bytes, ts: seq<Turn>, tooBig: TooBig)
    requires |key| == KEY_SIZE && FromKeys(ts) && ts != []
    ensures FromKeys(ts[1..]) && (ts[0].Arrives? ==> |ts[0].delivery.from| == KEY_SIZE)
    ensures var y := AfterTurn(x, key, ts[0], tooBig);
            ReadAll(x, key, ts, tooBig) ==
            if Passes(key, x.mtu, ts[0]) then ReadResult(y, Some(ts[0].delivery.bytes), ts[1..]) else ReadAll(y, key, ts[1..], tooBig)
  {
    hide AddressOf, SubnetOf, Update, Written, LookupsRead, AfterOther, ReadOne;
    FromKeysRest(ts);
    if ts[0].Arrives? {
      ReadExactly(x.s, key, x.mtu, ts[0].delivery, tooBig);
    }
  }

  /** A send to a destination that is not indexed makes exactly one lookup, and
      the transform of what it looks up is that of every key the destination belongs to. */
  lemma LookupFindsKey(s: Store, dest: Bytes)
    requires IsDestination(dest)
    ensures dest in s.index ==> LookupTo(s, dest) == []
    ensures dest !in s.index ==>
              && |LookupTo(s, dest)| == 1 && |LookupTo(s, dest)[0]| == KEY_SIZE
              && forall k | Derives(k, dest) :: Xform(LookupTo(s, dest)[0]) == Xform(k)
  {
    hide AddressOf, SubnetOf, PartialKey, PartialKeyOfSubnet, Xform;
    forall k | Derives(k, dest) && dest !in s.index ensures Xform(LookupTo(s, dest)[0]) == Xform(k) {
      FirstBytes(k);
      LookupTransform(k, k);
    }
  }

  /** And so on every run of the sender's store: a packet that writePC accepted
      and that was sent to a key is returned by that key's readPC. */
  lemma EveryPacketSentIsReadable(sender: Bytes, es: seq<Event>, i: nat, s: Store, mtu: nat, tooBig: TooBig)
    requires |sender| == KEY_SIZE && ValidRun(EMPTY, es) && FromWrites(sender, es)
    requires i < |Run(EMPTY, es).books.fates| && Run(EMPTY, es).books.fates[i].Sent?
    requires |Run(EMPTY, es).books.fates[i].packet.bytes| <= mtu
    ensures var f := Run(EMPTY, es).books.fates[i];
            && |f.key| == KEY_SIZE
            && ReadOne(s, f.key, mtu, Delivery(f.packet.bytes, sender), tooBig) == (Update(s, sender), Some(f.packet.bytes))
  {
    hide AddressOf, SubnetOf, IndexOk, ReadOne, RouteOf;
    NothingYet();
    RunKeeps(EMPTY, es);
    var b := Run(EMPTY, es).books;
    assert Justified(b, b.fates[i]);
    AcceptedFromWrites(EMPTY, es, sender);
    var p := b.fates[i].packet;
    assert p == b.accepted[p.serial];
    EndToEnd(sender, b.fates[i].key, p.bytes, s, mtu, tooBig);
  }

  /** Every send of the run comes from writePC of the node with this key. */
  ghost predicate FromWrites(key: Bytes, es: seq<Event>)
    requires |key| == KEY_SIZE
  {
    forall e: Event | e in es && e.SendEvent? :: RouteOf(key, e.bytes) == To(e.dest)
  }

  ghost predicate AllRouted(key: Bytes, ps: seq<Packet>)
    requires |key| == KEY_SIZE
  {
    forall n: nat | n < |ps| :: RouteOf(key, ps[n].bytes) == To(ps[n].dest)
  }

  /** Only a send takes a packet. */
  lemma AcceptedByStep(s: Store, e: Event)
    requires Enabled(s, e)
    ensures Step(s, e).books.accepted ==
            if e.SendEvent? then s.books.accepted + [Packet(|s.books.accepted|, e.dest, e.bytes)] else s.books.accepted
  {
    hide AddressOf, SubnetOf, Start, Ran;
  }

  lemma {:induction false} AcceptedFromWrites(s: Store, es: seq<Event>, key: Bytes)
    requires |key| == KEY_SIZE && ValidRun(s, es) && FromWrites(key, es) && AllRouted(key, s.books.accepted)
    ensures AllRouted(key, Run(s, es).books.accepted)
    decreases |es|
  {
    hide RouteOf, AddressOf, SubnetOf, Step, Enabled;
    if es != [] {
      assert es[0] in es && forall e | e in es[1..] :: e in es;
      AcceptedByStep(s, es[0]);
      AcceptedFromWrites(Step(s, es[0]), es[1..], key);
    }
  }

  /** Everything readPC returns, whatever happens meanwhile, is an IPv6 packet
      of at least a header and at most the MTU then in force, addressed to this
      node, from an address of the key that sent it. */
  lemma {:induction false} ReadPromises(x: Situation, key: Bytes, ts: seq<Turn>, tooBig: TooBig)
    requires |key| == KEY_SIZE && FromKeys(ts)
    requires ReadAll(x, key, ts, tooBig).packet.Some?
    ensures var r := ReadAll(x, key, ts, tooBig);
            var bs := r.packet.value;
            && HEADER_SIZE <= |bs| <= r.at.mtu && IsIPv6(bs) && BelongsTo(Destination(bs), key)
            && exists d :: Arrives(d) in ts && d.bytes == bs && |d.from| == KEY_SIZE && BelongsTo(Source(bs), d.from)
    decreases |ts|
  {
    hide AddressOf, SubnetOf, Update, IsIPv6, BelongsTo, Written, LookupsRead, AfterOther;
    assert forall t | t in ts[1..] :: t in ts;
    if ts[0].Meanwhile? {
      ReadPromises(AfterOther(x, key, ts[0].other), key, ts[1..], tooBig);
    } else {
      var d := ts[0].delivery;
      assert Arrives(d) in ts;
      var (s', packet) := ReadOne(x.s, key, x.mtu, d, tooBig);
      if packet == None {
        ReadPromises(Situation(s', x.mtu, x.lookups + LookupsRead(x.s, key, x.mtu, d, tooBig)), key, ts[1..], tooBig);
      }
    }
  }

  // ----- the code

  datatype Outgoing = Outgoing(bytes: Bytes, key: Bytes)

  /** What the fates say was handed to the core, in order. */
  function HandedOver(fates: seq<Fate>): seq<Outgoing> {
    if fates == [] then []
    else
      var f, rest := fates[|fates| - 1], HandedOver(fates[..|fates| - 1]);
      if f.Sent? then rest + [Outgoing(f.packet.bytes, f.key)] else rest
  }

  lemma HandedOverAppend(fates: seq<Fate>, f: Fate)
    ensures HandedOver(fates + [f]) == if f.Sent? then HandedOver(fates) + [Outgoing(f.packet.bytes, f.key)] else HandedOver(fates)
  {
    assert (fates + [f])[..|fates|] == fates;
  }

  // Maps over addresses and maps over subnets, joined.

  predicate Apart<T>(m: map<Bytes, T>, n: map<Bytes, T>) {
    (forall a | a in m :: |a| == ADDRESS_SIZE) && forall a | a in n :: |a| == SUBNET_SIZE
  }

  lemma JoinAddress<T>(m: map<Bytes, T>, n: map<Bytes, T>, a: Bytes, x: T)
    requires Apart(m, n) && |a| == ADDRESS_SIZE
    ensures a in m + n <==> a in m
    ensures a in m ==> (m + n)[a] == m[a]
    ensures m[a := x] + n == (m + n)[a := x] && Apart(m[a := x], n)
    ensures (m - {a}) + n == (m + n) - {a} && Apart(m - {a}, n)
  {
  }

  lemma JoinSubnet<T>(m: map<Bytes, T>, n: map<Bytes, T>, a: Bytes, x: T)
    requires Apart(m, n) && |a| == SUBNET_SIZE
    ensures a in m + n <==> a in n
    ensures a in n ==> (m + n)[a] == n[a]
    ensures m + n[a := x] == (m + n)[a := x] && Apart(m, n[a := x])
    ensures m + (n - {a}) == (m + n) - {a} && Apart(m, n - {a})
  {
  }

  /** The store's variables at one moment, history included. */
  datatype Fields = Fields(
    keyToInfo: map<Bytes, Info>, addrToInfo: map<Bytes, Info>, addrBuffer: map<Bytes, Buffer>,
    subnetToInfo: map<Bytes, Info>, subnetBuffer: map<Bytes, Buffer>,
    timers: Timers, nextId: nat, taken: nat, outgoing: seq<Outgoing>,
    accepted: seq<Packet>, fates: seq<Fate>, seen: set<Bytes>)

  ghost predicate TimersOk(timers: Timers) {
    forall t: Timer | Pending(timers, t) :: if t.InfoTimer? then InfoOk(t.info) else IsDestination(t.dest)
  }

  lemma TimersRan(timers: Timers, t: Timer, late: bool)
    requires TimersOk(timers) && MayFire(timers, t, late)
    ensures TimersOk(Ran(timers, t, late))
    ensures if t.InfoTimer? then InfoOk(t.info) else IsDestination(t.dest)
  {
    hide InfoOk, IsDestination, Pending, Ran, MayFire;
    PendingRan(timers, t, late);
  }

  lemma TimersStarted(timers: Timers, t: Timer)
    requires TimersOk(timers) && if t.InfoTimer? then InfoOk(t.info) else IsDestination(t.dest)
    ensures TimersOk(Start(timers, t))
  {
    hide InfoOk, IsDestination, Pending, Start;
    PendingStart(timers, t);
  }

  predicate InfosOk(m: map<Bytes, Info>) {
    forall k | k in m :: InfoOk(m[k])
  }

  /** Addresses index the address maps and subnets the subnet maps; the core was handed exactly what the fates say. */
  ghost predicate Sound(f: Fields) {
    && Apart(f.addrToInfo, f.subnetToInfo) && Apart(f.addrBuffer, f.subnetBuffer) && TimersOk(f.timers)
    && InfosOk(f.keyToInfo) && InfosOk(f.addrToInfo) && InfosOk(f.subnetToInfo)
    && (forall k | k in f.keyToInfo :: f.keyToInfo[k].key == k)
    && f.taken == |f.accepted| && f.outgoing == HandedOver(f.fates)
  }

  /** The state of the machine these variables stand for. */
  function ViewOf(f: Fields): Store {
    Store(f.keyToInfo, f.addrToInfo + f.subnetToInfo, Books(f.addrBuffer + f.subnetBuffer, f.accepted, f.fates), f.timers, f.nextId, f.seen)
  }

  lemma KnownKey(f: Fields, k: Bytes)
    requires Sound(f) && k in f.keyToInfo
    ensures InfoOk(f.keyToInfo[k]) && f.keyToInfo[k].key == k
  {
    hide InfoOk, Apart, HandedOver, TimersOk;
  }

  /** A packet handed over at once. */
  function Passed(f: Fields, info: Info, dest: Bytes, bs: Bytes): Fields {
    var p := Packet(f.taken, dest, bs);
    f.(timers := Start(f.timers, InfoTimer(info)), taken := f.taken + 1, accepted := f.accepted + [p],
       outgoing := f.outgoing + [Outgoing(bs, info.key)], fates := f.fates + [Sent(p, info.key)])
  }

  lemma PassedIsSend(f: Fields, info: Info, dest: Bytes, bs: Bytes)
    requires Sound(f) && dest in ViewOf(f).index && ViewOf(f).index[dest] == info && InfoOk(info)
    ensures Sound(Passed(f, info, dest, bs)) && ViewOf(Passed(f, info, dest, bs)) == Send(ViewOf(f), dest, bs)
  {
    hide InfoOk, Apart, HandedOver, Start, TimersOk;
    TimersStarted(f.timers, InfoTimer(info));
    HandedOverAppend(f.fates, Sent(Packet(f.taken, dest, bs), info.key));
  }

  /** Whether an address, or a subnet, is in the joined index is whether it is in its own map. */
  lemma AddressIndexed(f: Fields, a: Bytes)
    requires Sound(f) && |a| == ADDRESS_SIZE
    ensures a in ViewOf(f).index <==> a in f.addrToInfo
    ensures a in f.addrToInfo ==> ViewOf(f).index[a] == f.addrToInfo[a] && InfoOk(f.addrToInfo[a])
  {
    hide InfoOk, Apart, HandedOver;
    JoinAddress(f.addrToInfo, f.subnetToInfo, a, Info(0, [], [], []));
  }

  lemma SubnetIndexed(f: Fields, a: Bytes)
    requires Sound(f) && |a| == SUBNET_SIZE
    ensures a in ViewOf(f).index <==> a in f.subnetToInfo
    ensures a in f.subnetToInfo ==> ViewOf(f).index[a] == f.subnetToInfo[a] && InfoOk(f.subnetToInfo[a])
  {
    hide InfoOk, Apart, HandedOver;
    JoinSubnet(f.addrToInfo, f.subnetToInfo, a, Info(0, [], [], []));
  }

  /** A packet put into a buffer: the destination's own if it has one, else a new one. */
  function Held(f: Fields, own: map<Bytes, Buffer>, dest: Bytes, bs: Bytes): (Fields, Buffer) {
    var p := Packet(f.taken, dest, bs);
    var b := Buffer(if dest in own then own[dest].id else f.nextId, p);
    (f.(nextId := if dest in own then f.nextId else f.nextId + 1, taken := f.taken + 1, accepted := f.accepted + [p],
        timers := Start(f.timers, BufferTimer(dest, b.id)),
        fates := if dest in own then f.fates + [Superseded(own[dest].packet, p)] else f.fates), b)
  }

  function HeldAddress(f: Fields, a: Bytes, bs: Bytes): Fields {
    var (g, b) := Held(f, f.addrBuffer, a, bs);
    g.(addrBuffer := f.addrBuffer[a := b])
  }

  function HeldSubnet(f: Fields, a: Bytes, bs: Bytes): Fields {
    var (g, b) := Held(f, f.subnetBuffer, a, bs);
    g.(subnetBuffer := f.subnetBuffer[a := b])
  }

  lemma HeldAtAddress(f: Fields, a: Bytes, bs: Bytes)
    requires Sound(f) && |a| == ADDRESS_SIZE && a !in f.addrToInfo
    ensures Sound(HeldAddress(f, a, bs)) && ViewOf(HeldAddress(f, a, bs)) == Send(ViewOf(f), a, bs)
  {
    hide InfoOk, Apart, HandedOver, Start, TimersOk;
    AddressIndexed(f, a);
    var (g, b) := Held(f, f.addrBuffer, a, bs);
    TimersStarted(f.timers, BufferTimer(a, b.id));
    JoinAddress(f.addrBuffer, f.subnetBuffer, a, b);
    if a in f.addrBuffer {
      HandedOverAppend(f.fates, Superseded(f.addrBuffer[a].packet, b.packet));
    }
  }

  lemma HeldAtSubnet(f: Fields, a: Bytes, bs: Bytes)
    requires Sound(f) && |a| == SUBNET_SIZE && a !in f.subnetToInfo
    ensures Sound(HeldSubnet(f, a, bs)) && ViewOf(HeldSubnet(f, a, bs)) == Send(ViewOf(f), a, bs)
  {
    hide InfoOk, Apart, HandedOver, Start, TimersOk;
    SubnetIndexed(f, a);
    var (g, b) := Held(f, f.subnetBuffer, a, bs);
    TimersStarted(f.timers, BufferTimer(a, b.id));
    JoinSubnet(f.addrBuffer, f.subnetBuffer, a, b);
    if a in f.subnetBuffer {
      HandedOverAppend(f.fates, Superseded(f.subnetBuffer[a].packet, b.packet));
    }
  }

  /** A key is entered into all three maps. */
  function Entered(f: Fields, info: Info): Fields {
    f.(keyToInfo := f.keyToInfo[info.key := info], addrToInfo := f.addrToInfo[info.address := info],
       subnetToInfo := f.subnetToInfo[info.subnet := info], nextId := f.nextId + 1)
  }

  lemma EnteredSound(f: Fields, info: Info)
    requires Sound(f) && InfoOk(info)
    ensures Sound(Entered(f, info))
    ensures ViewOf(Entered(f, info)) == ViewOf(f).(
      infos := f.keyToInfo[info.key := info], index := ViewOf(f).index[info.address := info][info.subnet := info], nextId := f.nextId + 1)
  {
    hide InfoOk, Apart, HandedOver;
    InfoLengths(info);
    JoinAddress(f.addrToInfo, f.subnetToInfo, info.address, info);
    JoinSubnet(f.addrToInfo[info.address := info], f.subnetToInfo, info.subnet, info);
  }

  /** What waits in a buffer is handed over to a key. */
  function Flushed(f: Fields, own: map<Bytes, Buffer>, dest: Bytes, key: Bytes): Fields {
    if dest in own
    then f.(outgoing := f.outgoing + [Outgoing(own[dest].packet.bytes, key)], fates := f.fates + [Sent(own[dest].packet, key)])
    else f
  }

  function FlushedAddress(f: Fields, info: Info): Fields {
    Flushed(f, f.addrBuffer, info.address, info.key).(addrBuffer := f.addrBuffer - {info.address})
  }

  function FlushedSubnet(f: Fields, info: Info): Fields {
    Flushed(f, f.subnetBuffer, info.subnet, info.key).(subnetBuffer := f.subnetBuffer - {info.subnet})
  }

  lemma FlushedAddressSound(f: Fields, info: Info)
    requires Sound(f) && |info.address| == ADDRESS_SIZE
    ensures Sound(FlushedAddress(f, info))
    ensures ViewOf(FlushedAddress(f, info)) == ViewOf(f).(books := Flush(ViewOf(f).books, info.address, info.key))
  {
    hide InfoOk, Apart, HandedOver;
    JoinAddress(f.addrBuffer, f.subnetBuffer, info.address, Buffer(0, Packet(0, [], [])));
    if info.address in f.addrBuffer {
      HandedOverAppend(f.fates, Sent(f.addrBuffer[info.address].packet, info.key));
    } else {
      assert f.addrBuffer - {info.address} == f.addrBuffer;
    }
  }

  lemma FlushedSubnetSound(f: Fields, info: Info)
    requires Sound(f) && |info.subnet| == SUBNET_SIZE
    ensures Sound(FlushedSubnet(f, info))
    ensures ViewOf(FlushedSubnet(f, info)) == ViewOf(f).(books := Flush(ViewOf(f).books, info.subnet, info.key))
  {
    hide InfoOk, Apart, HandedOver;
    JoinSubnet(f.addrBuffer, f.subnetBuffer, info.subnet, Buffer(0, Packet(0, [], [])));
    if info.subnet in f.subnetBuffer {
      HandedOverAppend(f.fates, Sent(f.subnetBuffer[info.subnet].packet, info.key));
    } else {
      assert f.subnetBuffer - {info.subnet} == f.subnetBuffer;
    }
  }

  /** A key is reported. */
  function Updated(f: Fields, info: Info): Fields {
    var g := if info.key in f.keyToInfo then f else FlushedSubnet(FlushedAddress(Entered(f, info), info), info);
    Noted(g, info)
  }

  /** What a path to a key hands over: nothing if the key is known, else what waits for its address and for its subnet. */
  function WaitingFor(s: Store, key: Bytes): seq<Outgoing>
    requires |key| == KEY_SIZE
  {
    if key in s.infos then [] else WaitingAt(s, AddressOf(key), key) + WaitingAt(s, SubnetOf(key), key)
  }

  function WaitingAt(s: Store, d: Bytes, key: Bytes): seq<Outgoing> {
    if d in s.books.waiting then [Outgoing(s.books.waiting[d].packet.bytes, key)] else []
  }

  lemma UpdatedHandsOver(f: Fields, info: Info)
    requires Sound(f) && InfoOk(info)
    ensures Updated(f, info).outgoing == f.outgoing + WaitingFor(ViewOf(f), info.key)
  {
    hide AddressOf, SubnetOf, Apart, HandedOver, TimersOk, InfosOk, Start;
    InfoLengths(info);
    var b := Buffer(0, Packet(0, [], []));
    JoinAddress(f.addrBuffer, f.subnetBuffer, info.address, b);
    JoinSubnet(f.addrBuffer, f.subnetBuffer, info.subnet, b);
  }

  /** The timer of a key starts again. */
  function Noted(f: Fields, info: Info): Fields {
    f.(timers := Start(f.timers, InfoTimer(info)), seen := f.seen + {info.key})
  }

  lemma UpdatedIsUpdate(f: Fields, info: Info)
    requires Sound(f) && InfoOk(info)
    requires if info.key in f.keyToInfo then info == f.keyToInfo[info.key] else info.id == f.nextId
    ensures Sound(Updated(f, info)) && ViewOf(Updated(f, info)) == Update(ViewOf(f), info.key)
  {
    hide AddressOf, SubnetOf, Apart, HandedOver, Entered, FlushedAddress, FlushedSubnet, Flush, Sound, Start;
    if info.key in f.keyToInfo {
      NotedSound(f, info);
    } else {
      InfoLengths(info);
      var g := Entered(f, info);
      EnteredSound(f, info);
      FlushedAddressSound(g, info);
      FlushedSubnetSound(FlushedAddress(g, info), info);
      NotedSound(FlushedSubnet(FlushedAddress(g, info), info), info);
    }
  }

  lemma NotedSound(g: Fields, info: Info)
    requires Sound(g) && InfoOk(info)
    ensures Sound(Noted(g, info))
  {
    hide InfoOk, Apart, HandedOver, InfosOk, Start, TimersOk;
    TimersStarted(g.timers, InfoTimer(info));
  }

  /** A key's timer has run. */
  function Forgotten(f: Fields, info: Info, late: bool): Fields {
    f.(timers := Ran(f.timers, InfoTimer(info), late), keyToInfo := Drop(f.keyToInfo, info.key, info),
       addrToInfo := Drop(f.addrToInfo, info.address, info), subnetToInfo := Drop(f.subnetToInfo, info.subnet, info))
  }

  lemma ForgottenIsFire(f: Fields, info: Info, late: bool)
    requires Sound(f) && MayFire(f.timers, InfoTimer(info), late)
    ensures Sound(Forgotten(f, info, late)) && ViewOf(Forgotten(f, info, late)) == Fire(ViewOf(f), InfoTimer(info), late)
  {
    hide InfoOk, Apart, HandedOver, Ran, MayFire, TimersOk;
    TimersRan(f.timers, InfoTimer(info), late);
    InfoLengths(info);
    var m := Drop(f.addrToInfo, info.address, info);
    JoinAddress(f.addrToInfo, f.subnetToInfo, info.address, info);
    JoinSubnet(m, f.subnetToInfo, info.subnet, info);
  }

  /** A buffer's timer has run. */
  function Lapsed(f: Fields, own: map<Bytes, Buffer>, dest: Bytes, id: nat, late: bool): (Fields, map<Bytes, Buffer>) {
    var g := f.(timers := Ran(f.timers, BufferTimer(dest, id), late));
    if dest in own && own[dest].id == id then (g.(fates := f.fates + [Expired(own[dest].packet)]), own - {dest}) else (g, own)
  }

  function LapsedAddress(f: Fields, dest: Bytes, id: nat, late: bool): Fields {
    var (g, m) := Lapsed(f, f.addrBuffer, dest, id, late);
    g.(addrBuffer := m)
  }

  function LapsedSubnet(f: Fields, dest: Bytes, id: nat, late: bool): Fields {
    var (g, m) := Lapsed(f, f.subnetBuffer, dest, id, late);
    g.(subnetBuffer := m)
  }

  lemma LapsedAddressIsFire(f: Fields, dest: Bytes, id: nat, late: bool)
    requires Sound(f) && MayFire(f.timers, BufferTimer(dest, id), late) && |dest| == ADDRESS_SIZE
    ensures Sound(LapsedAddress(f, dest, id, late))
    ensures ViewOf(LapsedAddress(f, dest, id, late)) == Fire(ViewOf(f), BufferTimer(dest, id), late)
  {
    hide InfoOk, InfosOk, Apart, HandedOver, Ran, MayFire, TimersOk;
    TimersRan(f.timers, BufferTimer(dest, id), late);
    JoinAddress(f.addrBuffer, f.subnetBuffer, dest, Buffer(id, Packet(0, [], [])));
    if dest in f.addrBuffer && f.addrBuffer[dest].id == id {
      HandedOverAppend(f.fates, Expired(f.addrBuffer[dest].packet));
    } else {
      assert LapsedAddress(f, dest, id, late) == f.(timers := Ran(f.timers, BufferTimer(dest, id), late));
    }
  }

  lemma LapsedSubnetIsFire(f: Fields, dest: Bytes, id: nat, late: bool)
    requires Sound(f) && MayFire(f.timers, BufferTimer(dest, id), late) && |dest| == SUBNET_SIZE
    ensures Sound(LapsedSubnet(f, dest, id, late))
    ensures ViewOf(LapsedSubnet(f, dest, id, late)) == Fire(ViewOf(f), BufferTimer(dest, id), late)
  {
    hide InfoOk, InfosOk, Apart, HandedOver, Ran, MayFire, TimersOk;
    TimersRan(f.timers, BufferTimer(dest, id), late);
    JoinSubnet(f.addrBuffer, f.subnetBuffer, dest, Buffer(id, Packet(0, [], [])));
    if dest in f.subnetBuffer && f.subnetBuffer[dest].id == id {
      HandedOverAppend(f.fates, Expired(f.subnetBuffer[dest].packet));
    } else {
      assert LapsedSubnet(f, dest, id, late) == f.(timers := Ran(f.timers, BufferTimer(dest, id), late));
    }
  }

  lemma TimerDestination(f: Fields, dest: Bytes, id: nat, late: bool)
    requires Sound(f) && MayFire(f.timers, BufferTimer(dest, id), late)
    ensures IsDestination(dest)
  {
    hide InfoOk, Apart, HandedOver, MayFire, TimersOk;
    TimersRan(f.timers, BufferTimer(dest, id), late);
  }

  class KeyStore {
    const key: Bytes
    const address: Bytes
    const subnet: Bytes
    var keyToInfo: map<Bytes, Info>
    var addrToInfo: map<Bytes, Info>
    var addrBuffer: map<Bytes, Buffer>
    var subnetToInfo: map<Bytes, Info>
    var subnetBuffer: map<Bytes, Buffer>
    var mtu: nat
    var timers: Timers               // armed, and stopped but perhaps about to run
    var nextId: nat                  // objects allocated so far
    var taken: nat                   // packets accepted so far
    var outgoing: seq<Outgoing>      // calls of core.WriteTo
    var lookups: seq<Bytes>          // calls of core.SendLookup
    ghost var accepted: seq<Packet>
    ghost var fates: seq<Fate>
    ghost var seen: set<Bytes>

    ghost function Now(): Fields
      reads this
    {
      Fields(keyToInfo, addrToInfo, addrBuffer, subnetToInfo, subnetBuffer, timers, nextId, taken, outgoing, accepted, fates, seen)
    }

    ghost predicate Valid()
      reads this
    {
      |key| == KEY_SIZE && address == AddressOf(key) && subnet == SubnetOf(key) && Sound(Now())
    }

    ghost function View(): Store
      reads this
    {
      ViewOf(Now())
    }

    constructor (key: Bytes)
      requires |key| == KEY_SIZE
      ensures Valid() && this.key == key && View() == EMPTY && mtu == MIN_MTU
    {
      this.key, address, subnet := key, AddressOf(key), SubnetOf(key);
      keyToInfo, addrToInfo, addrBuffer, subnetToInfo, subnetBuffer := map[], map[], map[], map[], map[];
      mtu, timers, nextId, taken, outgoing, lookups := MIN_MTU, Timers(multiset{}, multiset{}), 0, 0, [], [];
      accepted, fates, seen := [], [], {};
    }

    /** Restarts the timer of a known key and hands the packet over. */
    method PassToKnown(info: Info, dest: Bytes, bs: Bytes)
      requires Valid() && dest in View().index && View().index[dest] == info && InfoOk(info)
      modifies this`timers, this`outgoing, this`taken, this`accepted, this`fates
      ensures Valid() && View() == Send(old(View()), dest, bs)
      ensures outgoing == old(outgoing) + [Outgoing(bs, info.key)]
    {
      hide Sound, ViewOf, Send, AddressOf, SubnetOf, InfoOk, Start;
      PassedIsSend(Now(), info, dest, bs);
      ghost var p := Packet(taken, dest, bs);
      timers := Start(timers, InfoTimer(info));
      taken, accepted := taken + 1, accepted + [p];
      outgoing := outgoing + [Outgoing(bs, info.key)];
      fates := fates + [Sent(p, info.key)];
      assert Now() == Passed(old(Now()), info, dest, bs);
    }

    method SendToAddress(addr: Bytes, bs: Bytes)
      requires Valid() && |addr| == ADDRESS_SIZE
      modifies this
      ensures Valid() && View() == Send(old(View()), addr, bs) && mtu == old(mtu)
      ensures lookups == old(lookups) + LookupTo(old(View()), addr)
      ensures outgoing == old(outgoing) + HandsOver(old(View()), addr, bs)
    {
      hide Sound, ViewOf, Send, AddressOf, SubnetOf, PartialKey, InfoOk, HeldAddress;
      AddressIndexed(Now(), addr);
      if addr in addrToInfo {
        PassToKnown(addrToInfo[addr], addr, bs);
      } else {
        HeldAtAddress(Now(), addr, bs);
        HoldForAddress(addr, bs);
        var partial := GetKey(addr);
        lookups := lookups + [partial];
      }
    }

    /** The packet replaces the one in the destination's buffer, or gets a new buffer; the timer starts again. */
    method HoldForAddress(addr: Bytes, bs: Bytes)
      modifies this`addrBuffer, this`timers, this`nextId, this`taken, this`accepted, this`fates
      ensures Now() == HeldAddress(old(Now()), addr, bs)
    {
      hide Start;
      var b := Buffer(nextId, Packet(taken, addr, bs));
      if addr in addrBuffer {
        b := b.(id := addrBuffer[addr].id);
        fates := fates + [Superseded(addrBuffer[addr].packet, b.packet)];
      } else {
        nextId := nextId + 1;
      }
      addrBuffer := addrBuffer[addr := b];
      taken, accepted := taken + 1, accepted + [b.packet];
      timers := Start(timers, BufferTimer(addr, b.id));
    }

    method SendToSubnet(snet: Bytes, bs: Bytes)
      requires Valid() && |snet| == SUBNET_SIZE
      modifies this
      ensures Valid() && View() == Send(old(View()), snet, bs) && mtu == old(mtu)
      ensures lookups == old(lookups) + LookupTo(old(View()), snet)
      ensures outgoing == old(outgoing) + HandsOver(old(View()), snet, bs)
    {
      hide Sound, ViewOf, Send, AddressOf, SubnetOf, PartialKeyOfSubnet, InfoOk, HeldSubnet;
      SubnetIndexed(Now(), snet);
      if snet in subnetToInfo {
        PassToKnown(subnetToInfo[snet], snet, bs);
      } else {
        HeldAtSubnet(Now(), snet, bs);
        HoldForSubnet(snet, bs);
        var partial := SubnetGetKey(snet);
        lookups := lookups + [partial];
      }
    }

    /** The packet replaces the one in the destination's buffer, or gets a new buffer; the timer starts again. */
    method HoldForSubnet(snet: Bytes, bs: Bytes)
      modifies this`subnetBuffer, this`timers, this`nextId, this`taken, this`accepted, this`fates
      ensures Now() == HeldSubnet(old(Now()), snet, bs)
    {
      hide Start;
      var b := Buffer(nextId, Packet(taken, snet, bs));
      if snet in subnetBuffer {
        b := b.(id := subnetBuffer[snet].id);
        fates := fates + [Superseded(subnetBuffer[snet].packet, b.packet)];
      } else {
        nextId := nextId + 1;
      }
      subnetBuffer := subnetBuffer[snet := b];
      taken, accepted := taken + 1, accepted + [b.packet];
      timers := Start(timers, BufferTimer(snet, b.id));
    }

    /** update: a key seen for the first time is entered, and what waits for it is handed over. */
    method Update(k: Bytes) returns (info: Info)
      requires Valid() && |k| == KEY_SIZE
      modifies this
      ensures Valid() && View() == Routing.Update(old(View()), k) && mtu == old(mtu) && lookups == old(lookups)
      ensures InfoOk(info) && info.key == k
      ensures outgoing == old(outgoing) + WaitingFor(old(View()), k)
    {
      hide Sound, ViewOf, Routing.Update, AddressOf, SubnetOf, InfoOk, Entered, FlushedAddress, FlushedSubnet, Noted;
      if k in keyToInfo {
        info := keyToInfo[k];
        KnownKey(Now(), k);
      } else {
        info := Enter(k);
        HandOverWaiting(info);
      }
      Note(info);
      UpdatedIsUpdate(old(Now()), info);
      UpdatedHandsOver(old(Now()), info);
    }

    method Note(info: Info)
      modifies this`timers, this`seen
      ensures Now() == Noted(old(Now()), info)
    {
      hide Start;
      timers := Start(timers, InfoTimer(info));
      seen := seen + {info.key};
    }

    method Enter(k: Bytes) returns (info: Info)
      requires |k| == KEY_SIZE
      modifies this`keyToInfo, this`addrToInfo, this`subnetToInfo, this`nextId
      ensures InfoOk(info) && info.key == k && info.id == old(nextId) && Now() == Entered(old(Now()), info)
    {
      hide AddressOf, SubnetOf;
      var a := AddrForKey(k);
      var n := SubnetForKey(k);
      info := Info(nextId, k, a.value, n.value);
      nextId := nextId + 1;
      keyToInfo := keyToInfo[k := info];
      addrToInfo := addrToInfo[info.address := info];
      subnetToInfo := subnetToInfo[info.subnet := info];
    }

    /** Empties the buffers of a new key: the address's first, then the subnet's. */
    method HandOverWaiting(info: Info)
      modifies this`addrBuffer, this`subnetBuffer, this`outgoing, this`fates
      ensures Now() == FlushedSubnet(FlushedAddress(old(Now()), info), info)
    {
      if info.address in addrBuffer {
        var packet := addrBuffer[info.address].packet;
        outgoing := outgoing + [Outgoing(packet.bytes, info.key)];
        fates := fates + [Sent(packet, info.key)];
        addrBuffer := addrBuffer - {info.address};
      }
      assert addrBuffer == old(addrBuffer) - {info.address};
      assert Now() == FlushedAddress(old(Now()), info);
      ghost var mid := Now();
      if info.subnet in subnetBuffer {
        var packet := subnetBuffer[info.subnet].packet;
        outgoing := outgoing + [Outgoing(packet.bytes, info.key)];
        fates := fates + [Sent(packet, info.key)];
        subnetBuffer := subnetBuffer - {info.subnet};
      }
      assert subnetBuffer == old(subnetBuffer) - {info.subnet};
      assert Now() == FlushedSubnet(mid, info);
    }

    /** The callback of a key's timer. */
    method InfoTimerFired(info: Info, late: bool)
      requires Valid() && MayFire(timers, InfoTimer(info), late)
      modifies this
      ensures Valid() && View() == Fire(old(View()), InfoTimer(info), late) && mtu == old(mtu) && lookups == old(lookups)
    {
      hide Sound, ViewOf, Fire, AddressOf, SubnetOf, Forgotten, MayFire;
      ForgottenIsFire(Now(), info, late);
      Forget(info, late);
    }

    /** Each map loses its entry if it is still this object. */
    method Forget(info: Info, late: bool)
      modifies this`timers, this`keyToInfo, this`addrToInfo, this`subnetToInfo
      ensures Now() == Forgotten(old(Now()), info, late)
    {
      hide Ran;
      timers := Ran(timers, InfoTimer(info), late);
      if info.key in keyToInfo && keyToInfo[info.key] == info {
        keyToInfo := keyToInfo - {info.key};
      }
      if info.address in addrToInfo && addrToInfo[info.address] == info {
        addrToInfo := addrToInfo - {info.address};
      }
      if info.subnet in subnetToInfo && subnetToInfo[info.subnet] == info {
        subnetToInfo := subnetToInfo - {info.subnet};
      }
    }

    /** The callback of a buffer's timer. */
    method BufferTimerFired(dest: Bytes, id: nat, late: bool)
      requires Valid() && MayFire(timers, BufferTimer(dest, id), late)
      modifies this
      ensures Valid() && View() == Fire(old(View()), BufferTimer(dest, id), late) && mtu == old(mtu) && lookups == old(lookups)
    {
      hide Sound, ViewOf, Fire, AddressOf, SubnetOf, LapsedAddress, LapsedSubnet, MayFire;
      TimerDestination(Now(), dest, id, late);
      if |dest| == ADDRESS_SIZE {
        LapsedAddressIsFire(Now(), dest, id, late);
        LapseAddress(dest, id, late);
      } else {
        LapsedSubnetIsFire(Now(), dest, id, late);
        LapseSubnet(dest, id, late);
      }
    }

    /** The buffer goes if it is still this object, whatever packet it holds by now. */
    method LapseAddress(dest: Bytes, id: nat, late: bool)
      modifies this`timers, this`addrBuffer, this`fates
      ensures Now() == LapsedAddress(old(Now()), dest, id, late)
    {
      timers := Ran(timers, BufferTimer(dest, id), late);
      if dest in addrBuffer && addrBuffer[dest].id == id {
        fates := fates + [Expired(addrBuffer[dest].packet)];
        addrBuffer := addrBuffer - {dest};
      }
    }

    method LapseSubnet(dest: Bytes, id: nat, late: bool)
      modifies this`timers, this`subnetBuffer, this`fates
      ensures Now() == LapsedSubnet(old(Now()), dest, id, late)
    {
      timers := Ran(timers, BufferTimer(dest, id), late);
      if dest in subnetBuffer && subnetBuffer[dest].id == id {
        fates := fates + [Expired(subnetBuffer[dest].packet)];
        subnetBuffer := subnetBuffer - {dest};
      }
    }

    ghost function Here(): Situation
      reads this
    {
      Situation(View(), mtu, lookups)
    }

    /** writePC. Only a packet with a route changes anything. */
    method WritePC(bs: Bytes) returns (route: Route)
      requires Valid()
      modifies this
      ensures Valid() && route == RouteOf(key, bs) && View() == Written(old(View()), key, bs) && mtu == old(mtu)
      ensures lookups == old(lookups) + LookupsWritten(old(View()), key, bs)
      ensures outgoing == old(outgoing) + if route.To? then HandsOver(old(View()), route.dest, bs) else []
    {
      hide AddressOf, SubnetOf, Send, Sound, ViewOf, LookupTo, HandsOver;
      if |bs| == 0 {
        return Empty;
      }
      if bs[0] & 0xf0 != 0x60 {
        return NotIPv6;
      }
      if |bs| < HEADER_SIZE {
        return Undersized;
      }
      var srcAddr, dstAddr := bs[8..24], bs[24..40];
      var srcSubnet, dstSubnet := srcAddr[..8], dstAddr[..8];
      if srcAddr != address && srcSubnet != subnet {
        return BadSource;
      }
      if IsValidAddress(dstAddr) {
        SendToAddress(dstAddr, bs);
        return To(dstAddr);
      } else if IsValidSubnet(dstSubnet) {
        SendToSubnet(dstSubnet, bs);
        return To(dstSubnet);
      }
      return BadDestination;
    }

    /** readPC, into a buffer of the caller with this much room. Between two
        deliveries the lock is free and anything may happen. */
    method ReadPC(turns: seq<Turn>, room: nat, tooBig: TooBig) returns (packet: Option<Bytes>, rest: seq<Turn>)
      requires Valid() && FromKeys(turns)
      modifies this
      ensures var r := ReadAll(old(Here()), key, turns, tooBig);
              && Valid() && Here() == r.at && rest == r.rest
              && packet == match r.packet case None => None case Some(bs) => Some(if |bs| <= room then bs else bs[..room])
    {
      hide AddressOf, SubnetOf, Sound, ViewOf, ReadOne, LookupsRead, AfterOther;
      rest := turns;
      ghost var goal := ReadAll(Here(), key, turns, tooBig);
      while rest != []
        invariant Valid() && FromKeys(rest)
        invariant ReadAll(Here(), key, rest, tooBig) == goal
        decreases |rest|
      {
        var t := rest[0];
        assert t in rest && forall u | u in rest[1..] :: u in rest;
        rest := rest[1..];
        if t.Meanwhile? {
          Disturb(t.other);
        } else {
          var d := t.delivery;
          var passed := ReadDelivery(d, tooBig);
          if passed {
            packet := Some(if |d.bytes| <= room then d.bytes else d.bytes[..room]);
            return;
          }
        }
      }
      packet := None;
    }

    /** What others do to the store while it is not locked. */
    method Disturb(o: Other)
      requires Valid()
      modifies this
      ensures Valid() && Here() == AfterOther(old(Here()), key, o)
    {
      hide AddressOf, SubnetOf, Written, LookupsWritten, Routing.Update, Fire, Sound;
      match o {
        case Writes(bs) => var _ := WritePC(bs);
        case FindsPath(k) =>
          if |k| == KEY_SIZE {
            var _ := Update(k);
          }
        case TimerRuns(t, late) =>
          if MayFire(timers, t, late) {
            if t.InfoTimer? {
              InfoTimerFired(t.info, late);
            } else {
              BufferTimerFired(t.dest, t.buffer, late);
            }
          }
        case SetsMTU(wanted, maxMTU) => SetMTU(wanted, maxMTU);
      }
    }

    /** The body of readPC's loop. */
    method ReadDelivery(d: Delivery, tooBig: TooBig) returns (passed: bool)
      requires Valid() && |d.from| == KEY_SIZE
      modifies this
      ensures Valid() && mtu == old(mtu)
      ensures ReadOne(old(View()), key, mtu, d, tooBig) == (View(), if passed then Some(d.bytes) else None)
      ensures lookups == old(lookups) + LookupsRead(old(View()), key, mtu, d, tooBig)
    {
      hide AddressOf, SubnetOf, Written, LookupsWritten, Routing.Update, Sound, ViewOf;
      var bs := d.bytes;
      if |bs| == 0 || bs[0] & 0xf0 != 0x60 || |bs| < HEADER_SIZE {
        return false;
      }
      if |bs| > mtu {
        var answer := tooBig(bs, mtu);
        if answer != None {
          var _ := WritePC(answer.value);
        }
        return false;
      }
      var srcAddr, dstAddr := bs[8..24], bs[24..40];
      if dstAddr != address && dstAddr[..8] != subnet {
        return false;
      }
      var info := Update(d.from);
      return srcAddr == info.address || srcAddr[..8] == info.subnet;
    }

    method SetMTU(wanted: nat, maxMTU: nat)
      modifies this`mtu
      ensures mtu == Clamped(wanted, maxMTU)
    {
      var m := wanted;
      if m > maxMTU {
        m := maxMTU;
      }
      if m < MIN_MTU {
        m := MIN_MTU;
      }
      mtu := m;
    }
  }
}
