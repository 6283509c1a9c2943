/** The key store's bookkeeping (src/ipv6rwc/ipv6rwc.go) as a state machine.

A destination is an address (16 bytes) or a subnet (8 bytes). Objects the source
compares by pointer carry the number of their allocation. Restarting an object's
timer stops the one before, which may fire all the same: its callback may already
be waiting for the mutex. */
module Routing {
  import opened Constants
  import opened Bits
  import opened Address
  import opened AddressLaws
  import opened KeyOrder

  /** A packet that writePC accepted, numbered in the order of acceptance. */
  datatype Packet = Packet(serial: nat, dest: Bytes, bytes: Bytes)

  datatype Info = Info(id: nat, key: Bytes, address: Bytes, subnet: Bytes)

  datatype Buffer = Buffer(id: nat, packet: Packet)

  datatype Timer = InfoTimer(info: Info) | BufferTimer(dest: Bytes, buffer: nat)

  /** Timers that will fire, and timers stopped too late to be sure they will not. */
  datatype Timers = Timers(armed: multiset<Timer>, stopped: multiset<Timer>)

  /** How a packet leaves the store. */
  datatype Fate = Sent(packet: Packet, key: Bytes) | Superseded(packet: Packet, later: Packet) | Expired(packet: Packet)

  /** The packet side: both one-packet buffers, every packet taken so far, and what became of those that left. */
  datatype Books = Books(waiting: map<Bytes, Buffer>, accepted: seq<Packet>, fates: seq<Fate>)

  /** `infos` is keyToInfo and `index` both addrToInfo and subnetToInfo. `seen`
      is history: every key a path was found for. */
  datatype Store = Store(
    infos: map<Bytes, Info>, index: map<Bytes, Info>, books: Books, timers: Timers, nextId: nat, seen: set<Bytes>)

  const EMPTY := Store(map[], map[], Books(map[], [], []), Timers(multiset{}, multiset{}), 0, {})

  predicate IsDestination(d: Bytes) {
    |d| == ADDRESS_SIZE || |d| == SUBNET_SIZE
  }

  // ----- timers

  /** An object's timer starts; the one it had before is stopped. */
  function Start(ts: Timers, t: Timer): Timers {
    var left := if t in ts.armed then Timers(ts.armed - multiset{t}, ts.stopped + multiset{t}) else ts;
    left.(armed := left.armed + multiset{t})
  }

  /** A timer fires: in time, or late, after it was stopped. */
  predicate MayFire(ts: Timers, t: Timer, late: bool) {
    if late then t in ts.stopped else t in ts.armed
  }

  function Ran(ts: Timers, t: Timer, late: bool): Timers {
    if late then ts.(stopped := ts.stopped - multiset{t}) else ts.(armed := ts.armed - multiset{t})
  }

  predicate Pending(ts: Timers, t: Timer) {
    t in ts.armed || t in ts.stopped
  }

  lemma PendingStart(ts: Timers, t: Timer)
    ensures forall u: Timer :: Pending(Start(ts, t), u) <==> Pending(ts, u) || u == t
  {
  }

  lemma PendingRan(ts: Timers, t: Timer, late: bool)
    requires MayFire(ts, t, late)
    ensures Pending(ts, t) && forall u: Timer :: Pending(Ran(ts, t, late), u) ==> Pending(ts, u)
  {
  }

  // ----- steps

  /** A packet is taken and goes out at once. */
  function PassOn(b: Books, p: Packet, key: Bytes): Books {
    b.(accepted := b.accepted + [p], fates := b.fates + [Sent(p, key)])
  }

  /** A packet is taken and waits, in place of the one that waited before it, if any. */
  function Hold(b: Books, p: Packet, id: nat): Books {
    Books(b.waiting[p.dest := Buffer(id, p)], b.accepted + [p],
          if p.dest in b.waiting then b.fates + [Superseded(b.waiting[p.dest].packet, p)] else b.fates)
  }

  /** The packet that waits for a destination leaves, with this fate. */
  function Settle(b: Books, dest: Bytes, f: Fate): Books {
    b.(waiting := b.waiting - {dest}, fates := b.fates + [f])
  }

  /** sendToAddress and sendToSubnet: out at once if the key is known, else into the one-packet buffer. */
  function Send(s: Store, dest: Bytes, bytes: Bytes): Store {
    var p := Packet(|s.books.accepted|, dest, bytes);
    if dest in s.index then
      s.(books := PassOn(s.books, p, s.index[dest].key), timers := Start(s.timers, InfoTimer(s.index[dest])))
    else if dest in s.books.waiting then
      var id := s.books.waiting[dest].id;
      s.(books := Hold(s.books, p, id), timers := Start(s.timers, BufferTimer(dest, id)))
    else
      s.(books := Hold(s.books, p, s.nextId), nextId := s.nextId + 1, timers := Start(s.timers, BufferTimer(dest, s.nextId)))
  }

  /** The packet waiting for a destination, if any, goes out to a key. */
  function Flush(b: Books, dest: Bytes, key: Bytes): Books {
    if dest in b.waiting then Settle(b, dest, Sent(b.waiting[dest].packet, key)) else b
  }

  function NewInfo(id: nat, key: Bytes): Info
    requires |key| == KEY_SIZE
  {
    Info(id, key, AddressOf(key), SubnetOf(key))
  }

  /** update: a path to a key is known. The first time, the key is indexed and what waits for it is sent. */
  function Update(s: Store, key: Bytes): Store
    requires |key| == KEY_SIZE
  {
    if key in s.infos then
      s.(timers := Start(s.timers, InfoTimer(s.infos[key])), seen := s.seen + {key})
    else
      var info := NewInfo(s.nextId, key);
      Store(s.infos[key := info], s.index[info.address := info][info.subnet := info],
            Flush(Flush(s.books, info.address, key), info.subnet, key),
            Start(s.timers, InfoTimer(info)), s.nextId + 1, s.seen + {key})
  }

  /** Removes a key if it still maps to this very object. */
  function Drop(m: map<Bytes, Info>, k: Bytes, info: Info): map<Bytes, Info> {
    if k in m && m[k] == info then m - {k} else m
  }

  /** A timer callback gets the mutex. */
  function Fire(s: Store, t: Timer, late: bool): Store {
    var s1 := s.(timers := Ran(s.timers, t, late));
    match t
    case InfoTimer(info) =>
      s1.(infos := Drop(s.infos, info.key, info), index := Drop(Drop(s.index, info.address, info), info.subnet, info))
    case BufferTimer(dest, id) =>
      if dest in s.books.waiting && s.books.waiting[dest].id == id
      then s1.(books := Settle(s.books, dest, Expired(s.books.waiting[dest].packet)))
      else s1
  }

  datatype Event = SendEvent(dest: Bytes, bytes: Bytes) | UpdateEvent(key: Bytes) | FireEvent(timer: Timer, late: bool)

  predicate Enabled(s: Store, e: Event) {
    match e
    case SendEvent(dest, _) => IsDestination(dest)
    case UpdateEvent(key) => |key| == KEY_SIZE
    case FireEvent(t, late) => MayFire(s.timers, t, late)
  }

  function Step(s: Store, e: Event): Store
    requires Enabled(s, e)
  {
    match e
    case SendEvent(dest, bytes) => Send(s, dest, bytes)
    case UpdateEvent(key) => Update(s, key)
    case FireEvent(t, late) => Fire(s, t, late)
  }

  ghost predicate ValidRun(s: Store, es: seq<Event>)
    decreases |es|
  {
    es == [] || (Enabled(s, es[0]) && ValidRun(Step(s, es[0]), es[1..]))
  }

  ghost function Run(s: Store, es: seq<Event>): Store
    requires ValidRun(s, es)
    decreases |es|
  {
    if es == [] then s else Run(Step(s, es[0]), es[1..])
  }

  // ----- the index

  predicate InfoOk(info: Info) {
    |info.key| == KEY_SIZE && info.address == AddressOf(info.key) && info.subnet == SubnetOf(info.key)
  }

  /** The simple meaning of an index entry: a destination stands for a key that derives it. */
  predicate Derives(key: Bytes, dest: Bytes) {
    |key| == KEY_SIZE && (dest == AddressOf(key) || dest == SubnetOf(key))
  }

  /** Every index entry is live under its own key, with matching derived
      destinations; and no destination has both an entry and a waiting packet. */
  ghost predicate IndexOk(s: Store) {
    && (forall k | k in s.infos :: s.infos[k].key == k && InfoOk(s.infos[k]) && s.infos[k].id < s.nextId && k in s.seen)
    && (forall d | d in s.index ::
          && (d == s.index[d].address || d == s.index[d].subnet)
          && s.index[d].key in s.infos && s.infos[s.index[d].key] == s.index[d]
          && d !in s.books.waiting)
    && forall t: Timer | Pending(s.timers, t) && t.InfoTimer? :: InfoOk(t.info) && t.info.id < s.nextId
  }

  lemma SendKeepsIndex(s: Store, dest: Bytes, bytes: Bytes)
    requires IndexOk(s)
    ensures IndexOk(Send(s, dest, bytes))
  {
    hide InfoOk, Start, Pending;
    if dest in s.index {
      PendingStart(s.timers, InfoTimer(s.index[dest]));
    } else {
      PendingStart(s.timers, BufferTimer(dest, if dest in s.books.waiting then s.books.waiting[dest].id else s.nextId));
    }
  }

  lemma InfoLengths(info: Info)
    requires InfoOk(info)
    ensures |info.address| == ADDRESS_SIZE && |info.subnet| == SUBNET_SIZE && info.address != info.subnet
  {
  }

  /** A key that is indexed for the first time. */
  lemma FirstUpdateKeepsIndex(s: Store, info: Info, v: Store)
    requires IndexOk(s) && InfoOk(info) && info.key !in s.infos && info.id == s.nextId
    requires v.infos == s.infos[info.key := info] && v.index == s.index[info.address := info][info.subnet := info]
    requires v.books.waiting == s.books.waiting - {info.address} - {info.subnet}
    requires v.timers == Start(s.timers, InfoTimer(info)) && v.nextId == s.nextId + 1 && v.seen == s.seen + {info.key}
    ensures IndexOk(v)
  {
    hide InfoOk, Start, Pending;
    PendingStart(s.timers, InfoTimer(info));
    forall d | d in v.index
      ensures d == v.index[d].address || d == v.index[d].subnet
      ensures v.index[d].key in v.infos && v.infos[v.index[d].key] == v.index[d] && d !in v.books.waiting
    {
      if d != info.address && d != info.subnet {
        assert s.index[d].key in s.infos;
      }
    }
  }

  lemma UpdateKeepsIndex(s: Store, key: Bytes)
    requires IndexOk(s) && |key| == KEY_SIZE
    ensures IndexOk(Update(s, key)) && key in Update(s, key).infos
  {
    hide AddressOf, SubnetOf, Start, Pending;
    if key in s.infos {
      PendingStart(s.timers, InfoTimer(s.infos[key]));
    } else {
      var info := NewInfo(s.nextId, key);
      FlushWaiting(s.books, info.address, info.subnet, key);
      FirstUpdateKeepsIndex(s, info, Update(s, key));
    }
  }

  lemma FlushWaiting(b: Books, d: Bytes, e: Bytes, key: Bytes)
    ensures Flush(Flush(b, d, key), e, key).waiting == b.waiting - {d} - {e}
  {
  }

  lemma FireKeepsIndex(s: Store, t: Timer, late: bool)
    requires IndexOk(s) && MayFire(s.timers, t, late)
    ensures IndexOk(Fire(s, t, late))
  {
    hide InfoOk, Ran, Pending;
    PendingRan(s.timers, t, late);
    var v := Fire(s, t, late);
    if t.InfoTimer? {
      var info := t.info;
      forall d | d in v.index
        ensures d in s.index && v.index[d] == s.index[d] && s.index[d].key in v.infos && v.infos[s.index[d].key] == s.index[d]
      {
        assert s.index[d] != info;
      }
    }
  }

  lemma StepKeepsIndex(s: Store, e: Event)
    requires IndexOk(s) && Enabled(s, e)
    ensures IndexOk(Step(s, e))
  {
    hide IndexOk, Send, Update, Fire;
    match e
    case SendEvent(dest, bytes) => SendKeepsIndex(s, dest, bytes);
    case UpdateEvent(key) => UpdateKeepsIndex(s, key);
    case FireEvent(t, late) => FireKeepsIndex(s, t, late);
  }

  // ----- what becomes of packets

  ghost predicate HasFate(b: Books, n: nat) {
    exists i: nat :: i < |b.fates| && b.fates[i].packet.serial == n
  }

  ghost predicate Waits(b: Books, n: nat) {
    exists d :: d in b.waiting && b.waiting[d].packet.serial == n
  }

  predicate Known(b: Books, p: Packet) {
    p.serial < |b.accepted| && b.accepted[p.serial] == p
  }

  /** A fate is justified: sent to a key that derives the destination, or
      superseded by a later packet to the same destination, or expired. */
  predicate Justified(b: Books, f: Fate) {
    && Known(b, f.packet)
    && match f
       case Sent(p, key) => Derives(key, p.dest)
       case Superseded(p, later) => Known(b, later) && later.serial > p.serial && later.dest == p.dest
       case Expired(p) => true
  }

  /** Every accepted packet either waits at its destination or has exactly one fate, and every fate is justified. */
  ghost predicate BooksOk(b: Books) {
    && (forall n: nat | n < |b.accepted| :: b.accepted[n].serial == n)
    && (forall d | d in b.waiting :: Known(b, b.waiting[d].packet) && b.waiting[d].packet.dest == d)
    && (forall i: nat | i < |b.fates| :: Justified(b, b.fates[i]))
    && (forall i: nat, j: nat | i < j < |b.fates| :: b.fates[i].packet.serial != b.fates[j].packet.serial)
    && (forall n: nat | n < |b.accepted| :: HasFate(b, n) <==> !Waits(b, n))
  }

  lemma FatesGrow(b: Books, c: Books, f: Fate, n: nat)
    requires c.fates == b.fates + [f]
    ensures HasFate(c, n) <==> HasFate(b, n) || n == f.packet.serial
  {
    if HasFate(b, n) {
      var i: nat :| i < |b.fates| && b.fates[i].packet.serial == n;
      assert c.fates[i].packet.serial == n;
    }
    if HasFate(c, n) && n != f.packet.serial {
      var i: nat :| i < |c.fates| && c.fates[i].packet.serial == n;
      assert b.fates[i].packet.serial == n;
    }
    assert c.fates[|b.fates|] == f;
  }

  lemma WaitingShrinks(b: Books, c: Books, dest: Bytes, n: nat)
    requires BooksOk(b) && dest in b.waiting && c.waiting == b.waiting - {dest}
    ensures Waits(c, n) <==> Waits(b, n) && n != b.waiting[dest].packet.serial
  {
    if Waits(b, n) && n != b.waiting[dest].packet.serial {
      var d :| d in b.waiting && b.waiting[d].packet.serial == n;
      assert d in c.waiting;
    }
    forall d | d in c.waiting ensures c.waiting[d].packet.serial != b.waiting[dest].packet.serial {
      assert Known(b, b.waiting[d].packet) && Known(b, b.waiting[dest].packet);
    }
  }

  lemma WaitingGrows(b: Books, c: Books, p: Packet, id: nat, n: nat)
    requires p.dest !in b.waiting && c.waiting == b.waiting[p.dest := Buffer(id, p)]
    ensures Waits(c, n) <==> Waits(b, n) || n == p.serial
  {
    if Waits(b, n) {
      var d :| d in b.waiting && b.waiting[d].packet.serial == n;
      assert d in c.waiting && c.waiting[d].packet.serial == n;
    }
    assert c.waiting[p.dest].packet == p;
  }

  lemma SettleKeepsBooks(b: Books, dest: Bytes, f: Fate)
    requires BooksOk(b) && dest in b.waiting && f.packet == b.waiting[dest].packet && Justified(b, f)
    ensures BooksOk(Settle(b, dest, f))
  {
    hide Derives, HasFate, Waits;
    var c, p := Settle(b, dest, f), f.packet;
    forall n: nat ensures HasFate(c, n) <==> HasFate(b, n) || n == p.serial { FatesGrow(b, c, f, n); }
    forall n: nat ensures Waits(c, n) <==> Waits(b, n) && n != p.serial { WaitingShrinks(b, c, dest, n); }
    WaitingHere(b, dest);
    forall i: nat | i < |b.fates| ensures b.fates[i].packet.serial != p.serial { FateHere(b, i); }
    forall i: nat | i < |c.fates| ensures Justified(c, c.fates[i]) {
      assert i < |b.fates| ==> Justified(b, b.fates[i]);
    }
  }

  lemma WaitingHere(b: Books, dest: Bytes)
    requires dest in b.waiting
    ensures Waits(b, b.waiting[dest].packet.serial)
  {
  }

  lemma FateHere(b: Books, i: nat)
    requires i < |b.fates|
    ensures HasFate(b, b.fates[i].packet.serial)
  {
  }

  /** A packet waits for a destination nothing waits for. */
  lemma HoldKeepsBooks(b: Books, p: Packet, id: nat)
    requires BooksOk(b) && p.serial == |b.accepted| && p.dest !in b.waiting
    ensures BooksOk(Hold(b, p, id))
  {
    hide Derives, HasFate, Waits;
    var c := Hold(b, p, id);
    forall n: nat ensures HasFate(c, n) <==> HasFate(b, n) { SameFates(b, c, n); }
    forall n: nat ensures Waits(c, n) <==> Waits(b, n) || n == p.serial { WaitingGrows(b, c, p, id, n); }
    forall i: nat | i < |c.fates| ensures Justified(c, c.fates[i]) {
      assert Justified(b, b.fates[i]);
    }
    NoFateYet(b);
  }

  lemma SameFates(b: Books, c: Books, n: nat)
    requires b.fates == c.fates
    ensures HasFate(c, n) <==> HasFate(b, n)
  {
  }

  lemma NoFateYet(b: Books)
    requires BooksOk(b)
    ensures !HasFate(b, |b.accepted|)
  {
    forall i: nat | i < |b.fates| ensures b.fates[i].packet.serial != |b.accepted| {
      assert Justified(b, b.fates[i]);
    }
  }

  /** A packet that goes out at once is one that waited for no time at all. */
  lemma PassOnKeepsBooks(b: Books, p: Packet, key: Bytes)
    requires BooksOk(b) && p.serial == |b.accepted| && p.dest !in b.waiting && Derives(key, p.dest)
    ensures BooksOk(PassOn(b, p, key))
  {
    hide Derives, BooksOk;
    var mid := Hold(b, p, 0);
    HoldKeepsBooks(b, p, 0);
    SettleKeepsBooks(mid, p.dest, Sent(p, key));
    assert mid.waiting - {p.dest} == b.waiting;
    assert Settle(mid, p.dest, Sent(p, key)) == PassOn(b, p, key);
  }

  /** A packet that replaces another: the other one leaves, then this one waits. */
  lemma ReplaceKeepsBooks(b: Books, p: Packet, id: nat)
    requires BooksOk(b) && p.serial == |b.accepted| && p.dest in b.waiting
    ensures BooksOk(Hold(b, p, id))
  {
    hide Derives, BooksOk;
    var prior := b.waiting[p.dest].packet;
    var mid := Settle(b, p.dest, Expired(prior));
    WaitingKnown(b, p.dest);
    SettleKeepsBooks(b, p.dest, Expired(prior));
    var end := Hold(mid, p, id);
    HoldKeepsBooks(mid, p, id);
    assert end.waiting == Hold(b, p, id).waiting;
    BetterReason(end, Superseded(prior, p));
    assert end.fates[..|end.fates| - 1] == b.fates;
  }

  lemma WaitingKnown(b: Books, dest: Bytes)
    requires BooksOk(b) && dest in b.waiting
    ensures Known(b, b.waiting[dest].packet) && b.waiting[dest].packet.dest == dest
  {
  }

  /** Naming another reason for the last fate changes nothing else. */
  lemma BetterReason(b: Books, f: Fate)
    requires BooksOk(b) && b.fates != [] && f.packet == b.fates[|b.fates| - 1].packet && Justified(b, f)
    ensures BooksOk(b.(fates := b.fates[..|b.fates| - 1] + [f]))
  {
    hide Derives;
    var c := b.(fates := b.fates[..|b.fates| - 1] + [f]);
    forall i: nat | i < |c.fates| ensures c.fates[i].packet == b.fates[i].packet && Justified(c, c.fates[i]) {
      assert Justified(b, b.fates[i]);
    }
    forall n: nat ensures HasFate(c, n) <==> HasFate(b, n) {
      if HasFate(b, n) {
        var i: nat :| i < |b.fates| && b.fates[i].packet.serial == n;
        assert c.fates[i].packet.serial == n;
      }
    }
    forall n: nat ensures Waits(c, n) <==> Waits(b, n) {
    }
  }

  lemma SendKeepsBooks(s: Store, dest: Bytes, bytes: Bytes)
    requires IndexOk(s) && BooksOk(s.books)
    ensures BooksOk(Send(s, dest, bytes).books)
  {
    hide BooksOk, AddressOf, SubnetOf;
    var p := Packet(|s.books.accepted|, dest, bytes);
    if dest in s.index {
      assert InfoOk(s.index[dest]);
      PassOnKeepsBooks(s.books, p, s.index[dest].key);
    } else if dest in s.books.waiting {
      ReplaceKeepsBooks(s.books, p, s.books.waiting[dest].id);
    } else {
      HoldKeepsBooks(s.books, p, s.nextId);
    }
  }

  lemma FlushKeepsBooks(b: Books, dest: Bytes, key: Bytes)
    requires BooksOk(b) && Derives(key, dest)
    ensures BooksOk(Flush(b, dest, key))
  {
    hide BooksOk, Derives;
    if dest in b.waiting {
      WaitingKnown(b, dest);
      SettleKeepsBooks(b, dest, Sent(b.waiting[dest].packet, key));
    }
  }

  lemma StepKeepsBooks(s: Store, e: Event)
    requires IndexOk(s) && BooksOk(s.books) && Enabled(s, e)
    ensures BooksOk(Step(s, e).books)
  {
    hide BooksOk, AddressOf, SubnetOf, Flush, Send, Settle;
    match e
    case SendEvent(dest, bytes) => SendKeepsBooks(s, dest, bytes);
    case UpdateEvent(key) =>
      FlushKeepsBooks(s.books, AddressOf(key), key);
      FlushKeepsBooks(Flush(s.books, AddressOf(key), key), SubnetOf(key), key);
    case FireEvent(t, _) =>
      if t.BufferTimer? && t.dest in s.books.waiting {
        WaitingKnown(s.books, t.dest);
        SettleKeepsBooks(s.books, t.dest, Expired(s.books.waiting[t.dest].packet));
      }
  }

  // ----- distinct keys

  /** No two of these keys share an address or a subnet. */
  ghost predicate Distinct(keys: set<Bytes>) {
    && (forall k | k in keys :: |k| == KEY_SIZE)
    && forall k, l | k in keys && l in keys && k != l :: AddressOf(k) != AddressOf(l) && SubnetOf(k) != SubnetOf(l)
  }

  /** Every live key is indexed under both its destinations: with IndexOk, the three maps are in bijection. */
  ghost predicate Complete(s: Store) {
    forall k | k in s.infos ::
      && s.infos[k].address in s.index && s.index[s.infos[k].address] == s.infos[k]
      && s.infos[k].subnet in s.index && s.index[s.infos[k].subnet] == s.infos[k]
  }

  ghost predicate InfosDistinct(s: Store) {
    forall k, l | k in s.infos && l in s.infos && k != l ::
      s.infos[k].address != s.infos[l].address && s.infos[k].subnet != s.infos[l].subnet
  }

  lemma SeenDistinct(s: Store)
    requires IndexOk(s) && Distinct(s.seen)
    ensures InfosDistinct(s)
  {
    hide AddressOf, SubnetOf;
    forall k, l | k in s.infos && l in s.infos && k != l
      ensures s.infos[k].address != s.infos[l].address && s.infos[k].subnet != s.infos[l].subnet
    {
      assert k in s.seen && l in s.seen;
    }
  }

  lemma FirstUpdateKeepsComplete(s: Store, info: Info, v: Store)
    requires IndexOk(s) && Complete(s) && InfoOk(info) && info.key !in s.infos
    requires v.infos == s.infos[info.key := info] && v.index == s.index[info.address := info][info.subnet := info]
    requires InfosDistinct(v)
    ensures Complete(v)
  {
    hide InfoOk;
    InfoLengths(info);
    forall k | k in v.infos
      ensures v.infos[k].address in v.index && v.index[v.infos[k].address] == v.infos[k]
      ensures v.infos[k].subnet in v.index && v.index[v.infos[k].subnet] == v.infos[k]
    {
      InfoLengths(v.infos[k]);
      if k != info.key {
        assert v.infos[info.key] == info;
      }
    }
  }

  lemma StepKeepsComplete(s: Store, e: Event)
    requires IndexOk(s) && Complete(s) && Enabled(s, e) && Distinct(Step(s, e).seen)
    ensures Complete(Step(s, e))
  {
    hide AddressOf, SubnetOf, Distinct, InfosDistinct, IndexOk;
    var v := Step(s, e);
    if e.UpdateEvent? && e.key !in s.infos {
      var info := NewInfo(s.nextId, e.key);
      StepKeepsIndex(s, e);
      SeenDistinct(v);
      FirstUpdateKeepsComplete(s, info, v);
    } else if e.FireEvent? && e.timer.InfoTimer? {
      FireKeepsComplete(s, e.timer, e.late);
    }
  }

  lemma FireKeepsComplete(s: Store, t: Timer, late: bool)
    requires IndexOk(s) && Complete(s) && MayFire(s.timers, t, late) && t.InfoTimer?
    ensures Complete(Fire(s, t, late))
  {
    hide InfoOk, Ran;
    var v := Fire(s, t, late);
    forall k | k in v.infos
      ensures v.infos[k].address in v.index && v.index[v.infos[k].address] == v.infos[k]
      ensures v.infos[k].subnet in v.index && v.index[v.infos[k].subnet] == v.infos[k]
    {
      assert k in s.infos && s.infos[k] != t.info;
    }
  }

  // ----- every run

  lemma {:induction false} RunKeeps(s: Store, es: seq<Event>)
    requires IndexOk(s) && BooksOk(s.books) && ValidRun(s, es)
    ensures IndexOk(Run(s, es)) && BooksOk(Run(s, es).books) && s.seen <= Run(s, es).seen
    decreases |es|
  {
    hide IndexOk, BooksOk, Step, Enabled;
    if es != [] {
      StepKeepsIndex(s, es[0]);
      StepKeepsBooks(s, es[0]);
      SeenGrows(s, es[0]);
      RunKeeps(Step(s, es[0]), es[1..]);
    }
  }

  lemma SeenGrows(s: Store, e: Event)
    requires Enabled(s, e)
    ensures s.seen <= Step(s, e).seen
  {
    hide AddressOf, SubnetOf;
  }

  /** The index invariant holds after every interleaving of sends, path updates and timer firings. */
  lemma IndexOnEveryRun(es: seq<Event>)
    requires ValidRun(EMPTY, es)
    ensures IndexOk(Run(EMPTY, es))
    ensures forall d | d in Run(EMPTY, es).index :: Derives(Run(EMPTY, es).index[d].key, d)
  {
    hide AddressOf, SubnetOf, BooksOk;
    NothingYet();
    RunKeeps(EMPTY, es);
  }

  lemma NothingYet()
    ensures IndexOk(EMPTY) && BooksOk(EMPTY.books) && Complete(EMPTY)
  {
  }

  /** Conservation after every run: an accepted packet waits at its destination,
      or has left exactly once: sent to a key that derives its destination,
      superseded by a later packet for the same destination, or expired. */
  lemma ConservationOnEveryRun(es: seq<Event>, n: nat)
    requires ValidRun(EMPTY, es) && n < |Run(EMPTY, es).books.accepted|
    ensures var b := Run(EMPTY, es).books;
            var p := b.accepted[n];
            if p.dest in b.waiting && b.waiting[p.dest].packet == p
            then !HasFate(b, n)
            else exists i: nat ::
              && i < |b.fates| && b.fates[i].packet == p && Justified(b, b.fates[i])
              && forall j: nat | j < |b.fates| && b.fates[j].packet.serial == n :: j == i
  {
    hide AddressOf, SubnetOf, IndexOk, Derives;
    NothingYet();
    RunKeeps(EMPTY, es);
    var b := Run(EMPTY, es).books;
    var p := b.accepted[n];
    if Waits(b, n) {
      var d :| d in b.waiting && b.waiting[d].packet.serial == n;
      assert Known(b, b.waiting[d].packet);
    } else {
      var i: nat :| i < |b.fates| && b.fates[i].packet.serial == n;
      assert Justified(b, b.fates[i]);
    }
  }

  lemma {:induction false} RunKeepsComplete(s: Store, es: seq<Event>)
    requires IndexOk(s) && BooksOk(s.books) && Complete(s) && ValidRun(s, es) && Distinct(Run(s, es).seen)
    ensures Complete(Run(s, es))
    decreases |es|
  {
    hide IndexOk, BooksOk, Complete, Step, Enabled;
    if es != [] {
      StepKeepsIndex(s, es[0]);
      StepKeepsBooks(s, es[0]);
      RunKeeps(Step(s, es[0]), es[1..]);
      StepKeepsComplete(s, es[0]);
      RunKeepsComplete(Step(s, es[0]), es[1..]);
    }
  }

  /** If the keys seen have distinct addresses and subnets, the three maps stay
      in bijection, and once a path to a key is reported nothing waits for it:
      its waiting packets have just been sent to it. */
  lemma DistinctKeysFlushed(es: seq<Event>, key: Bytes)
    requires ValidRun(EMPTY, es) && |key| == KEY_SIZE && Distinct(Run(EMPTY, es).seen + {key})
    ensures var s := Run(EMPTY, es);
            var v := Update(s, key);
            && Complete(s) && Complete(v)
            && AddressOf(key) !in v.books.waiting && SubnetOf(key) !in v.books.waiting
            && forall d | d in s.books.waiting && Derives(key, d) :: Sent(s.books.waiting[d].packet, key) in v.books.fates
  {
    hide AddressOf, SubnetOf, BooksOk, IndexOk, Update, Complete;
    NothingYet();
    RunKeeps(EMPTY, es);
    assert Distinct(Run(EMPTY, es).seen);
    RunKeepsComplete(EMPTY, es);
    var s := Run(EMPTY, es);
    assert Step(s, UpdateEvent(key)) == Update(s, key);
    UpdateSees(s, key);
    StepKeepsComplete(s, UpdateEvent(key));
    UpdateFlushes(s, key);
  }

  /** When every live key is fully indexed, an update leaves nothing waiting for its key. */
  lemma UpdateFlushes(s: Store, key: Bytes)
    requires IndexOk(s) && Complete(s) && |key| == KEY_SIZE
    ensures var v := Update(s, key);
            && AddressOf(key) !in v.books.waiting && SubnetOf(key) !in v.books.waiting
            && forall d | d in s.books.waiting && Derives(key, d) :: Sent(s.books.waiting[d].packet, key) in v.books.fates
  {
    hide AddressOf, SubnetOf;
    DestinationsDiffer(key);
    if key in s.infos {
      assert s.infos[key].address in s.index && s.infos[key].subnet in s.index;
    }
  }

  lemma UpdateSees(s: Store, key: Bytes)
    requires |key| == KEY_SIZE
    ensures Update(s, key).seen == s.seen + {key}
  {
    hide AddressOf, SubnetOf;
  }

  lemma DestinationsDiffer(key: Bytes)
    requires |key| == KEY_SIZE
    ensures AddressOf(key) != SubnetOf(key)
  {
  }

  // ----- new objects

  /** Every object with a timer to run, and every buffer, was made before now. */
  ghost predicate Numbered(s: Store) {
    && (forall t: Timer | Pending(s.timers, t) :: (if t.InfoTimer? then t.info.id else t.buffer) < s.nextId)
    && (forall d | d in s.books.waiting :: s.books.waiting[d].id < s.nextId)
  }

  lemma SendKeepsNumbered(s: Store, dest: Bytes, bytes: Bytes)
    requires IndexOk(s) && Numbered(s)
    ensures Numbered(Send(s, dest, bytes))
  {
    hide InfoOk, Start, Pending;
    if dest in s.index {
      PendingStart(s.timers, InfoTimer(s.index[dest]));
    } else {
      PendingStart(s.timers, BufferTimer(dest, if dest in s.books.waiting then s.books.waiting[dest].id else s.nextId));
    }
  }

  lemma UpdateKeepsNumbered(s: Store, key: Bytes)
    requires IndexOk(s) && Numbered(s) && |key| == KEY_SIZE
    ensures Numbered(Update(s, key))
  {
    hide AddressOf, SubnetOf, Start, Pending, Flush;
    if key in s.infos {
      PendingStart(s.timers, InfoTimer(s.infos[key]));
    } else {
      var info := NewInfo(s.nextId, key);
      PendingStart(s.timers, InfoTimer(info));
      FlushKeepsBuffers(s.books, info.address, key);
      FlushKeepsBuffers(Flush(s.books, info.address, key), info.subnet, key);
    }
  }

  lemma FireKeepsNumbered(s: Store, t: Timer, late: bool)
    requires Numbered(s) && MayFire(s.timers, t, late)
    ensures Numbered(Fire(s, t, late))
  {
    hide Ran, Pending;
    PendingRan(s.timers, t, late);
  }

  lemma {:induction false} RunKeepsNumbered(s: Store, es: seq<Event>)
    requires IndexOk(s) && Numbered(s) && ValidRun(s, es)
    ensures Numbered(Run(s, es))
    decreases |es|
  {
    hide IndexOk, Numbered, Send, Update, Fire;
    if es != [] {
      StepKeepsIndex(s, es[0]);
      match es[0] {
        case SendEvent(dest, bytes) => SendKeepsNumbered(s, dest, bytes);
        case UpdateEvent(key) => UpdateKeepsNumbered(s, key);
        case FireEvent(t, late) => FireKeepsNumbered(s, t, late);
      }
      RunKeepsNumbered(Step(s, es[0]), es[1..]);
    }
  }

  lemma NumberedOnEveryRun(es: seq<Event>)
    requires ValidRun(EMPTY, es)
    ensures Numbered(Run(EMPTY, es))
  {
    hide IndexOk;
    NothingYet();
    RunKeepsNumbered(EMPTY, es);
  }

  // ----- what each step does

  /** A timer is started anew: the one before is stopped, and one is armed. */
  predicate Restarted(before: Timers, after: Timers, t: Timer) {
    after.armed == before.armed && after.stopped == before.stopped + multiset{t}
  }

  lemma StartAgain(ts: Timers, t: Timer)
    requires t in ts.armed
    ensures Restarted(ts, Start(ts, t), t)
  {
  }

  /** On every run: a packet for a known destination goes out at once, to the
      live key that derives it, and to nobody else; that key's timer starts
      anew, and nothing else changes. */
  lemma SendToKnown(es: seq<Event>, d: Bytes, bytes: Bytes)
    requires ValidRun(EMPTY, es) && d in Run(EMPTY, es).index
    ensures var s := Run(EMPTY, es);
            var info := s.index[d];
            var p, v := Packet(|s.books.accepted|, d, bytes), Send(s, d, bytes);
            && Derives(info.key, d) && info.key in s.infos
            && v.books.accepted == s.books.accepted + [p] && v.books.fates == s.books.fates + [Sent(p, info.key)]
            && v.books.waiting == s.books.waiting && v.infos == s.infos && v.index == s.index
            && Restarted(s.timers, v.timers, InfoTimer(info))
  {
    hide AddressOf, SubnetOf, Start, Restarted, Once, BuffersTimed, BooksOk;
    IndexOnEveryRun(es);
    NothingStays(es);
    var s := Run(EMPTY, es);
    assert s.timers.armed[InfoTimer(s.index[d])] == 1;
    StartAgain(s.timers, InfoTimer(s.index[d]));
  }

  /** On every run: a packet for any other destination is the one that waits
      there from now on, until a new timer runs; one that waited before is superseded by it. */
  lemma SendToUnknown(es: seq<Event>, d: Bytes, bytes: Bytes)
    requires ValidRun(EMPTY, es) && d !in Run(EMPTY, es).index
    ensures var s := Run(EMPTY, es);
            var p, v := Packet(|s.books.accepted|, d, bytes), Send(s, d, bytes);
            && v.books.accepted == s.books.accepted + [p]
            && d in v.books.waiting && v.books.waiting[d].packet == p && v.books.waiting - {d} == s.books.waiting - {d}
            && v.infos == s.infos && v.index == s.index
            && var t := BufferTimer(d, v.books.waiting[d].id);
               if d in s.books.waiting then
                 && v.books.fates == s.books.fates + [Superseded(s.books.waiting[d].packet, p)]
                 && v.books.waiting[d].id == s.books.waiting[d].id && Restarted(s.timers, v.timers, t)
               else
                 && v.books.fates == s.books.fates && !Pending(s.timers, t)
                 && v.timers.armed[t] == 1 && forall u: Timer | u != t :: v.timers.armed[u] == s.timers.armed[u]
  {
    hide Start, Restarted, InfosTimed, BooksOk, IndexOk, Pending;
    NothingStays(es);
    NumberedOnEveryRun(es);
    var s, v := Run(EMPTY, es), Send(Run(EMPTY, es), d, bytes);
    var t := BufferTimer(d, v.books.waiting[d].id);
    if d in s.books.waiting {
      assert s.timers.armed[t] == 1;
      StartAgain(s.timers, t);
    } else {
      ArmedStart(s.timers, t);
    }
    assert v.books.waiting - {d} == s.books.waiting - {d};
  }

  /** On every run, a path to a key that is known: its timer starts anew, and nothing else changes. */
  lemma PathToKnown(es: seq<Event>, key: Bytes)
    requires ValidRun(EMPTY, es) && key in Run(EMPTY, es).infos
    ensures |key| == KEY_SIZE
    ensures var s := Run(EMPTY, es);
            var v := Update(s, key);
            && v.infos == s.infos && v.index == s.index && v.books == s.books
            && Restarted(s.timers, v.timers, InfoTimer(s.infos[key]))
  {
    hide AddressOf, SubnetOf, Start, Restarted, Once, BuffersTimed, BooksOk;
    IndexOnEveryRun(es);
    NothingStays(es);
    var s := Run(EMPTY, es);
    assert s.timers.armed[InfoTimer(s.infos[key])] == 1;
    StartAgain(s.timers, InfoTimer(s.infos[key]));
  }

  /** The packet that waits for a destination, as sent to a key. */
  function SentOff(b: Books, d: Bytes, key: Bytes): seq<Fate> {
    if d in b.waiting then [Sent(b.waiting[d].packet, key)] else []
  }

  /** On every run, a path to a key that is not known: it is known from now on,
      under its own address and subnet and as a new object; what waits for the
      address and then what waits for the subnet is sent to it; and nothing else changes. */
  lemma PathToUnknown(es: seq<Event>, key: Bytes)
    requires ValidRun(EMPTY, es) && |key| == KEY_SIZE && key !in Run(EMPTY, es).infos
    ensures var s := Run(EMPTY, es);
            var a, n, v := AddressOf(key), SubnetOf(key), Update(s, key);
            && key in v.infos && v.infos - {key} == s.infos
            && a in v.index && n in v.index && v.index[a] == v.index[n] == v.infos[key] && v.infos[key].key == key
            && v.index - {a, n} == s.index - {a, n}
            && v.books.waiting == s.books.waiting - {a, n} && v.books.accepted == s.books.accepted
            && v.books.fates == s.books.fates + SentOff(s.books, a, key) + SentOff(s.books, n, key)
            && var t := InfoTimer(v.infos[key]);
               !Pending(s.timers, t) && v.timers.armed[t] == 1 && forall u: Timer | u != t :: v.timers.armed[u] == s.timers.armed[u]
  {
    hide AddressOf, SubnetOf, Start, InfosTimed, BuffersTimed, BooksOk, IndexOk, Pending;
    NothingStays(es);
    NumberedOnEveryRun(es);
    DestinationsDiffer(key);
    var s := Run(EMPTY, es);
    ArmedStart(s.timers, InfoTimer(NewInfo(s.nextId, key)));
  }

  /** A map without the entries that are this very object. */
  function Without(m: map<Bytes, Info>, info: Info): map<Bytes, Info> {
    map k | k in m && m[k] != info :: m[k]
  }

  lemma DropOnly(m: map<Bytes, Info>, k: Bytes, info: Info)
    requires forall d | d in m && m[d] == info :: d == k
    ensures Drop(m, k, info) == Without(m, info)
  {
  }

  lemma DropBoth(m: map<Bytes, Info>, a: Bytes, n: Bytes, info: Info)
    requires forall d | d in m && m[d] == info :: d == a || d == n
    ensures Drop(Drop(m, a, info), n, info) == Without(m, info)
  {
    DropOnly(Drop(m, a, info), n, info);
  }

  /** On every run, a key's timer, in time or late: exactly the entries that are
      still that very object go, and no packet is touched. */
  lemma KeyTimerTakesItsKey(es: seq<Event>, info: Info, late: bool)
    requires ValidRun(EMPTY, es) && MayFire(Run(EMPTY, es).timers, InfoTimer(info), late)
    ensures var s := Run(EMPTY, es);
            var v := Fire(s, InfoTimer(info), late);
            v.books == s.books && v.infos == Without(s.infos, info) && v.index == Without(s.index, info)
  {
    hide InfoOk, Ran, MayFire, BooksOk, Drop, Without;
    IndexOnEveryRun(es);
    var s := Run(EMPTY, es);
    DropOnly(s.infos, info.key, info);
    DropBoth(s.index, info.address, info.subnet, info);
  }

  /** On every run, a buffer's timer, in time or late: if that very buffer still
      waits it goes and its packet expires; otherwise nothing is touched. */
  lemma BufferTimerTakesItsBuffer(es: seq<Event>, d: Bytes, id: nat, late: bool)
    requires ValidRun(EMPTY, es) && MayFire(Run(EMPTY, es).timers, BufferTimer(d, id), late)
    ensures var s := Run(EMPTY, es);
            var b, v := s.books, Fire(s, BufferTimer(d, id), late);
            && v.infos == s.infos && v.index == s.index && v.books.accepted == b.accepted
            && if d in b.waiting && b.waiting[d].id == id
               then v.books.waiting == b.waiting - {d} && v.books.fates == b.fates + [Expired(b.waiting[d].packet)]
               else v.books == b
  {
    hide Ran, MayFire;
  }

  // ----- what a packet's fate comes from

  /** How many packets were sent by these events. */
  function Sends(es: seq<Event>): nat {
    if es == [] then 0 else Sends(es[..|es| - 1]) + if es[|es| - 1].SendEvent? then 1 else 0
  }

  /** This packet came in by event a. */
  predicate TakenAt(es: seq<Event>, a: nat, p: Packet) {
    a < |es| && es[a] == SendEvent(p.dest, p.bytes) && Sends(es[..a]) == p.serial
  }

  ghost predicate TakenBefore(es: seq<Event>, b: nat, p: Packet) {
    exists a: nat :: a < b && TakenAt(es, a, p)
  }

  /** Event b is what gave a packet this fate: a packet is sent as it comes in,
      or later when a path to the key is found; it is superseded when the later
      one comes in; and it expires only when, after it came in, a timer of its
      destination's buffer runs. */
  ghost predicate CausedAt(es: seq<Event>, b: nat, f: Fate) {
    && b < |es|
    && match f
       case Sent(p, key) => TakenAt(es, b, p) || (es[b] == UpdateEvent(key) && TakenBefore(es, b, p))
       case Superseded(p, later) => TakenAt(es, b, later) && TakenBefore(es, b, p)
       case Expired(p) =>
         && es[b].FireEvent? && es[b].timer.BufferTimer? && es[b].timer.dest == p.dest
         && TakenBefore(es, b, p)
  }

  ghost predicate HasCause(es: seq<Event>, f: Fate) {
    exists b: nat :: CausedAt(es, b, f)
  }

  /** Everything in the books comes from an event of the run. */
  ghost predicate Caused(es: seq<Event>, b: Books) {
    && |b.accepted| == Sends(es)
    && (forall n: nat | n < |b.accepted| :: TakenBefore(es, |es|, b.accepted[n]))
    && (forall d | d in b.waiting :: TakenBefore(es, |es|, b.waiting[d].packet) && b.waiting[d].packet.dest == d)
    && (forall i: nat | i < |b.fates| :: HasCause(es, b.fates[i]))
  }

  lemma TakenStays(es: seq<Event>, e: Event, a: nat, p: Packet)
    requires TakenAt(es, a, p)
    ensures TakenAt(es + [e], a, p)
  {
    assert (es + [e])[..a] == es[..a];
  }

  lemma BeforeStays(es: seq<Event>, e: Event, b: nat, p: Packet)
    requires TakenBefore(es, b, p) && b <= |es|
    ensures TakenBefore(es + [e], b, p) && TakenBefore(es + [e], |es| + 1, p)
  {
    hide TakenAt;
    var a: nat :| a < b && TakenAt(es, a, p);
    TakenStays(es, e, a, p);
  }

  lemma CausedStays(es: seq<Event>, e: Event, b: nat, f: Fate)
    requires CausedAt(es, b, f)
    ensures CausedAt(es + [e], b, f)
  {
    hide TakenAt, TakenBefore;
    if TakenBefore(es, b, f.packet) {
      BeforeStays(es, e, b, f.packet);
    }
    if TakenAt(es, b, f.packet) {
      TakenStays(es, e, b, f.packet);
    }
    if f.Superseded? {
      TakenStays(es, e, b, f.later);
    }
  }

  lemma SendsAppend(es: seq<Event>, e: Event)
    ensures Sends(es + [e]) == Sends(es) + if e.SendEvent? then 1 else 0
  {
    assert (es + [e])[..|es|] == es;
  }

  /** One step: what was caused stays caused, if what is new is caused by this event. */
  lemma CausedByStep(es: seq<Event>, e: Event, b: Books, c: Books)
    requires Caused(es, b) && b.fates <= c.fates
    requires c.accepted == if e.SendEvent? then b.accepted + [Packet(|b.accepted|, e.dest, e.bytes)] else b.accepted
    requires forall d | d in c.waiting ::
               (d in b.waiting && c.waiting[d].packet == b.waiting[d].packet) || (e.SendEvent? && c.waiting[d].packet == Packet(|b.accepted|, d, e.bytes) && d == e.dest)
    requires forall i: nat | |b.fates| <= i < |c.fates| :: CausedAt(es + [e], |es|, c.fates[i])
    ensures Caused(es + [e], c)
  {
    hide CausedAt, TakenAt;
    var all := es + [e];
    SendsAppend(es, e);
    if e.SendEvent? {
      NewlyTaken(es, e);
    }
    forall n: nat | n < |c.accepted| ensures TakenBefore(all, |all|, c.accepted[n]) {
      if n < |b.accepted| {
        BeforeStays(es, e, |es|, b.accepted[n]);
      }
    }
    forall d | d in c.waiting ensures TakenBefore(all, |all|, c.waiting[d].packet) && c.waiting[d].packet.dest == d {
      if d in b.waiting && c.waiting[d].packet == b.waiting[d].packet {
        BeforeStays(es, e, |es|, b.waiting[d].packet);
      }
    }
    forall i: nat | i < |c.fates| ensures HasCause(all, c.fates[i]) {
      if i < |b.fates| {
        assert c.fates[i] == b.fates[i] && HasCause(es, b.fates[i]);
        var a: nat :| CausedAt(es, a, b.fates[i]);
        CausedStays(es, e, a, b.fates[i]);
      } else {
        assert CausedAt(all, |es|, c.fates[i]);
      }
    }
  }

  /** A packet that comes in by the last event. */
  lemma NewlyTaken(es: seq<Event>, e: Event)
    requires e.SendEvent?
    ensures var p := Packet(Sends(es), e.dest, e.bytes);
            TakenAt(es + [e], |es|, p) && TakenBefore(es + [e], |es| + 1, p)
  {
    assert (es + [e])[..|es|] == es;
    assert TakenAt(es + [e], |es|, Packet(Sends(es), e.dest, e.bytes));
  }

  lemma SendCaused(es: seq<Event>, s: Store, e: Event)
    requires Caused(es, s.books) && e.SendEvent?
    ensures Caused(es + [e], Send(s, e.dest, e.bytes).books)
  {
    hide Start, TakenAt, TakenBefore;
    NewlyTaken(es, e);
    var v := Send(s, e.dest, e.bytes);
    if e.dest !in s.index && e.dest in s.books.waiting {
      BeforeStays(es, e, |es|, s.books.waiting[e.dest].packet);
    }
    CausedByStep(es, e, s.books, v.books);
  }

  lemma FlushCaused(es: seq<Event>, e: Event, b: Books, dest: Bytes)
    requires e.UpdateEvent? && (forall d | d in b.waiting :: TakenBefore(es, |es|, b.waiting[d].packet))
    ensures var c := Flush(b, dest, e.key);
            && b.fates <= c.fates && c.accepted == b.accepted
            && (forall d | d in c.waiting :: d in b.waiting && c.waiting[d] == b.waiting[d])
            && (forall i: nat | |b.fates| <= i < |c.fates| :: CausedAt(es + [e], |es|, c.fates[i]))
  {
    hide TakenAt, TakenBefore;
    if dest in b.waiting {
      BeforeStays(es, e, |es|, b.waiting[dest].packet);
    }
  }

  lemma UpdateCaused(es: seq<Event>, s: Store, e: Event)
    requires Caused(es, s.books) && e.UpdateEvent? && |e.key| == KEY_SIZE
    ensures Caused(es + [e], Update(s, e.key).books)
  {
    hide Start, CausedAt, TakenBefore, Flush, AddressOf, SubnetOf;
    if e.key !in s.infos {
      var b := Flush(s.books, AddressOf(e.key), e.key);
      FlushCaused(es, e, s.books, AddressOf(e.key));
      FlushCaused(es, e, b, SubnetOf(e.key));
    }
    CausedByStep(es, e, s.books, Update(s, e.key).books);
  }

  lemma FireCaused(es: seq<Event>, s: Store, e: Event)
    requires Caused(es, s.books) && e.FireEvent?
    ensures Caused(es + [e], Fire(s, e.timer, e.late).books)
  {
    hide Ran, TakenAt, TakenBefore;
    var v := Fire(s, e.timer, e.late);
    if e.timer.BufferTimer? && e.timer.dest in s.books.waiting {
      BeforeStays(es, e, |es|, s.books.waiting[e.timer.dest].packet);
    }
    CausedByStep(es, e, s.books, v.books);
  }

  lemma {:induction false} RunAppend(s: Store, es: seq<Event>, e: Event)
    requires ValidRun(s, es + [e])
    ensures ValidRun(s, es) && Enabled(Run(s, es), e) && Run(s, es + [e]) == Step(Run(s, es), e)
    decreases |es|
  {
    hide Step, Enabled;
    if es == [] {
      assert es + [e] == [e] && [e][1..] == [];
    } else {
      assert (es + [e])[1..] == es[1..] + [e];
      RunAppend(Step(s, es[0]), es[1..], e);
    }
  }

  lemma {:induction false} RunCaused(es: seq<Event>)
    requires ValidRun(EMPTY, es)
    ensures Caused(es, Run(EMPTY, es).books)
    decreases |es|
  {
    hide Caused, Send, Update, Fire;
    if es == [] {
      NothingCaused();
    } else {
      var before, e := es[..|es| - 1], es[|es| - 1];
      assert before + [e] == es;
      RunAppend(EMPTY, before, e);
      RunCaused(before);
      var s := Run(EMPTY, before);
      match e
      case SendEvent(_, _) => SendCaused(before, s, e);
      case UpdateEvent(_) => UpdateCaused(before, s, e);
      case FireEvent(_, _) => FireCaused(before, s, e);
    }
  }

  lemma NothingCaused()
    ensures Caused([], EMPTY.books)
  {
  }

  /** On every run every fate has its cause among the events; in particular a
      packet expires only if a timer of its destination's buffer runs after it came in. */
  lemma FatesAreCaused(es: seq<Event>, i: nat)
    requires ValidRun(EMPTY, es) && i < |Run(EMPTY, es).books.fates|
    ensures |Run(EMPTY, es).books.accepted| == Sends(es)
    ensures HasCause(es, Run(EMPTY, es).books.fates[i])
  {
    hide HasCause;
    RunCaused(es);
  }

  // ----- nothing stays for ever

  /** No object has two timers armed. */
  ghost predicate Once(armed: multiset<Timer>) {
    forall t: Timer :: armed[t] <= 1
  }

  ghost predicate InfosTimed(m: map<Bytes, Info>, armed: multiset<Timer>) {
    forall k | k in m :: armed[InfoTimer(m[k])] == 1
  }

  ghost predicate BuffersTimed(m: map<Bytes, Buffer>, armed: multiset<Timer>) {
    forall d | d in m :: armed[BufferTimer(d, m[d].id)] == 1
  }

  /** Everything indexed and everything that waits has exactly one timer armed. */
  ghost predicate Timed(s: Store) {
    && Once(s.timers.armed) && InfosTimed(s.infos, s.timers.armed) && InfosTimed(s.index, s.timers.armed)
    && BuffersTimed(s.books.waiting, s.timers.armed)
  }

  /** What a start and a firing do to the armed timers. */
  lemma ArmedStart(ts: Timers, t: Timer)
    requires Once(ts.armed)
    ensures Once(Start(ts, t).armed) && Start(ts, t).armed[t] == 1
    ensures forall u: Timer | u != t :: Start(ts, t).armed[u] == ts.armed[u]
  {
  }

  lemma ArmedRan(ts: Timers, t: Timer, late: bool)
    requires Once(ts.armed)
    ensures Once(Ran(ts, t, late).armed)
    ensures forall u: Timer | u != t :: Ran(ts, t, late).armed[u] == ts.armed[u]
  {
  }

  /** The same from the side of one map. */
  lemma InfosGrow(m: map<Bytes, Info>, n: map<Bytes, Info>, ts: Timers, t: Timer)
    requires Once(ts.armed) && InfosTimed(m, ts.armed) && forall k | k in n :: (k in m && n[k] == m[k]) || InfoTimer(n[k]) == t
    ensures InfosTimed(n, Start(ts, t).armed)
  {
    hide Start;
    ArmedStart(ts, t);
  }

  lemma InfosShrink(m: map<Bytes, Info>, n: map<Bytes, Info>, ts: Timers, t: Timer, late: bool)
    requires Once(ts.armed) && InfosTimed(m, ts.armed) && forall k | k in n :: k in m && n[k] == m[k] && InfoTimer(n[k]) != t
    ensures InfosTimed(n, Ran(ts, t, late).armed)
  {
    hide Ran;
    ArmedRan(ts, t, late);
  }

  lemma BuffersGrow(m: map<Bytes, Buffer>, n: map<Bytes, Buffer>, ts: Timers, t: Timer)
    requires Once(ts.armed) && BuffersTimed(m, ts.armed) && forall d | d in n :: (d in m && n[d] == m[d]) || BufferTimer(d, n[d].id) == t
    ensures BuffersTimed(n, Start(ts, t).armed)
  {
    hide Start;
    ArmedStart(ts, t);
  }

  lemma BuffersShrink(m: map<Bytes, Buffer>, n: map<Bytes, Buffer>, ts: Timers, t: Timer, late: bool)
    requires Once(ts.armed) && BuffersTimed(m, ts.armed)
    requires forall d | d in n :: d in m && n[d] == m[d] && BufferTimer(d, n[d].id) != t
    ensures BuffersTimed(n, Ran(ts, t, late).armed)
  {
    hide Ran;
    ArmedRan(ts, t, late);
  }

  lemma SendKeepsTimed(s: Store, dest: Bytes, bytes: Bytes)
    requires Timed(s)
    ensures Timed(Send(s, dest, bytes))
  {
    hide Once, InfosTimed, BuffersTimed, Start;
    var v := Send(s, dest, bytes);
    var t := if dest in s.index then InfoTimer(s.index[dest]) else BufferTimer(dest, v.books.waiting[dest].id);
    ArmedStart(s.timers, t);
    InfosGrow(s.infos, v.infos, s.timers, t);
    InfosGrow(s.index, v.index, s.timers, t);
    BuffersGrow(s.books.waiting, v.books.waiting, s.timers, t);
  }

  lemma UpdateKeepsTimed(s: Store, key: Bytes)
    requires Timed(s) && |key| == KEY_SIZE
    ensures Timed(Update(s, key))
  {
    hide AddressOf, SubnetOf, Flush, Once, InfosTimed, BuffersTimed, Start;
    var v := Update(s, key);
    var info := v.infos[key];
    FlushKeepsBuffers(s.books, info.address, key);
    FlushKeepsBuffers(Flush(s.books, info.address, key), info.subnet, key);
    ArmedStart(s.timers, InfoTimer(info));
    InfosGrow(s.infos, v.infos, s.timers, InfoTimer(info));
    InfosGrow(s.index, v.index, s.timers, InfoTimer(info));
    BuffersGrow(s.books.waiting, v.books.waiting, s.timers, InfoTimer(info));
  }

  lemma FlushKeepsBuffers(b: Books, dest: Bytes, key: Bytes)
    ensures forall d | d in Flush(b, dest, key).waiting :: d in b.waiting && Flush(b, dest, key).waiting[d] == b.waiting[d]
  {
  }

  lemma FireKeepsTimed(s: Store, t: Timer, late: bool)
    requires IndexOk(s) && Timed(s) && MayFire(s.timers, t, late)
    ensures Timed(Fire(s, t, late))
  {
    hide InfoOk, Once, InfosTimed, BuffersTimed, Ran, MayFire;
    var v := Fire(s, t, late);
    ArmedRan(s.timers, t, late);
    InfosShrink(s.infos, v.infos, s.timers, t, late);
    InfosShrink(s.index, v.index, s.timers, t, late);
    BuffersShrink(s.books.waiting, v.books.waiting, s.timers, t, late);
  }

  lemma StepKeepsTimed(s: Store, e: Event)
    requires IndexOk(s) && Timed(s) && Enabled(s, e)
    ensures Timed(Step(s, e))
  {
    hide Timed, IndexOk, Send, Update, Fire;
    match e
    case SendEvent(dest, bytes) => SendKeepsTimed(s, dest, bytes);
    case UpdateEvent(key) => UpdateKeepsTimed(s, key);
    case FireEvent(t, late) => FireKeepsTimed(s, t, late);
  }

  lemma {:induction false} RunKeepsTimed(s: Store, es: seq<Event>)
    requires IndexOk(s) && Timed(s) && ValidRun(s, es)
    ensures IndexOk(Run(s, es)) && Timed(Run(s, es))
    decreases |es|
  {
    hide IndexOk, Timed, Step, Enabled;
    if es != [] {
      StepKeepsIndex(s, es[0]);
      StepKeepsTimed(s, es[0]);
      RunKeepsTimed(Step(s, es[0]), es[1..]);
    }
  }

  /** Nothing is known and nothing waits. */
  predicate Bare(s: Store) {
    s.infos == map[] && s.index == map[] && s.books.waiting == map[]
  }

  /** On every run everything known and everything waiting has exactly one timer
      armed; so once every armed timer has run, nothing is known and nothing
      waits, whatever stopped ones have done or may still do. */
  lemma NothingStays(es: seq<Event>)
    requires ValidRun(EMPTY, es)
    ensures Timed(Run(EMPTY, es))
    ensures Run(EMPTY, es).timers.armed == multiset{} ==> Bare(Run(EMPTY, es))
  {
    hide IndexOk;
    NothingYet();
    RunKeepsTimed(EMPTY, es);
    BareUnlessArmed(Run(EMPTY, es));
  }

  lemma BareUnlessArmed(s: Store)
    requires Timed(s)
    ensures s.timers.armed == multiset{} ==> Bare(s)
  {
    if s.timers.armed == multiset{} {
      assert forall k :: k !in s.infos;
      assert forall d :: d !in s.index;
      assert forall d :: d !in s.books.waiting;
    }
  }

  /** And from every run that comes about when each timer that is armed fires, once. */
  lemma ArmedTimersSuffice(es: seq<Event>) returns (more: seq<Event>)
    requires ValidRun(EMPTY, es)
    ensures ValidRun(Run(EMPTY, es), more) && |more| == |Run(EMPTY, es).timers.armed|
    ensures forall e: Event | e in more :: e.FireEvent? && !e.late
    ensures Bare(Run(Run(EMPTY, es), more))
  {
    hide IndexOk;
    NothingYet();
    RunKeepsTimed(EMPTY, es);
    more := FireArmed(Run(EMPTY, es));
  }

  lemma {:induction false} FireArmed(s: Store) returns (more: seq<Event>)
    requires IndexOk(s) && Timed(s)
    ensures ValidRun(s, more) && |more| == |s.timers.armed|
    ensures forall e: Event | e in more :: e.FireEvent? && !e.late
    ensures Bare(Run(s, more))
    decreases |s.timers.armed|
  {
    hide IndexOk, Timed;
    if s.timers.armed == multiset{} {
      BareUnlessArmed(s);
      more := [];
    } else {
      var t :| t in s.timers.armed;
      var e := FireEvent(t, false);
      StepKeepsIndex(s, e);
      StepKeepsTimed(s, e);
      var rest := FireArmed(Step(s, e));
      more := [e] + rest;
      assert more[1..] == rest;
    }
  }

  /** Why distinctness is needed: after two keys with a destination in common, of
      which only the first is heard of again, and the expiry of the second, a
      packet for it waits although the first key is live, and a further update
      for it does not send it. */
  lemma SharedDestinationStrands(k: Bytes, l: Bytes, d: Bytes, bytes: Bytes)
    requires k != l && Derives(k, d) && Derives(l, d)
    ensures var second := NewInfo(1, l);
            var es := [UpdateEvent(k), UpdateEvent(l), UpdateEvent(k), FireEvent(InfoTimer(second), false), SendEvent(d, bytes)];
            && ValidRun(EMPTY, es)
            && k in Run(EMPTY, es).infos && d in Update(Run(EMPTY, es), k).books.waiting
  {
    hide AddressOf, SubnetOf, Update;
    var s1 := Step(EMPTY, UpdateEvent(k));
    var s2 := Step(s1, UpdateEvent(l));
    var s3 := Step(s2, UpdateEvent(k));
    var t := InfoTimer(NewInfo(1, l));
    BothKnown(k, l);
    KnownUpdate(s2, k);
    HeardAgain(s2, k, t);
    InfoLengths(NewInfo(0, k));
    InfoLengths(NewInfo(1, l));
    var s4 := Step(s3, FireEvent(t, false));
    assert d !in s4.index && k in s4.infos && d !in s4.books.waiting;
    var s5 := Step(s4, SendEvent(d, bytes));
    assert d in s5.books.waiting && k in s5.infos;
    RunsTo(UpdateEvent(k), UpdateEvent(l), UpdateEvent(k), FireEvent(t, false), SendEvent(d, bytes), s1, s2, s3, s4, s5);
    KnownUpdate(s5, k);
  }

  /** The store after paths to two keys. */
  lemma BothKnown(k: Bytes, l: Bytes)
    requires |k| == |l| == KEY_SIZE && k != l
    ensures var s, i, j := Update(Update(EMPTY, k), l), NewInfo(0, k), NewInfo(1, l);
            && s.infos == map[k := i, l := j] && s.books.waiting == map[]
            && s.index == map[i.address := i][i.subnet := i][j.address := j][j.subnet := j]
            && InfoTimer(j) in s.timers.armed
  {
    hide AddressOf, SubnetOf;
    DestinationsDiffer(k);
    DestinationsDiffer(l);
  }

  /** A key that is heard of again changes neither what is known nor what waits. */
  lemma KnownUpdate(s: Store, key: Bytes)
    requires key in s.infos && |key| == KEY_SIZE
    ensures Update(s, key).infos == s.infos && Update(s, key).index == s.index && Update(s, key).books == s.books
  {
    hide AddressOf, SubnetOf;
  }

  /** And it leaves the timers of others armed. */
  lemma HeardAgain(s: Store, key: Bytes, t: Timer)
    requires key in s.infos && |key| == KEY_SIZE && t in s.timers.armed && t != InfoTimer(s.infos[key])
    ensures t in Update(s, key).timers.armed
  {
    hide AddressOf, SubnetOf;
  }

  /** Two keys with one address: they differ in their last bit only, which no address of theirs holds. */
  const EVEN_KEY: Bytes := [0x80] + seq(31, i => 0)
  const ODD_KEY: Bytes := [0x80] + seq(30, i => 0) + [1]

  lemma SharedAddress()
    ensures |EVEN_KEY| == |ODD_KEY| == KEY_SIZE && EVEN_KEY != ODD_KEY && AddressOf(EVEN_KEY) == AddressOf(ODD_KEY)
  {
    hide AddressOf;
    assert EVEN_KEY[31] != ODD_KEY[31];
    TopBit(EVEN_KEY);
    TopBit(ODD_KEY);
    LeadingZerosUnique(EVEN_KEY, 0);
    LeadingZerosUnique(ODD_KEY, 0);
    forall i: nat | i < 248 ensures BitAt(EVEN_KEY, i) == BitAt(ODD_KEY, i) {
      assert EVEN_KEY[i / 8] == ODD_KEY[i / 8];
    }
    SameBitsSameAddress(EVEN_KEY, ODD_KEY);
  }

  /** So it does happen: with these two, a packet is stranded. */
  lemma StrandedPacket()
    ensures var d := AddressOf(EVEN_KEY);
            var es := [UpdateEvent(EVEN_KEY), UpdateEvent(ODD_KEY), UpdateEvent(EVEN_KEY),
                       FireEvent(InfoTimer(NewInfo(1, ODD_KEY)), false), SendEvent(d, [])];
            && ValidRun(EMPTY, es) && EVEN_KEY in Run(EMPTY, es).infos
            && d in Update(Run(EMPTY, es), EVEN_KEY).books.waiting
  {
    hide AddressOf, SubnetOf, Run, ValidRun, Update;
    SharedAddress();
    SharedDestinationStrands(EVEN_KEY, ODD_KEY, AddressOf(EVEN_KEY), []);
  }

  ghost predicate OverKeys(keys: set<Bytes>, es: seq<Event>) {
    forall e: Event | e in es && e.UpdateEvent? :: e.key in keys
  }

  /** If a run sees only these keys and then a path to one of them is reported, nothing waits for that one. */
  ghost predicate Served(keys: set<Bytes>, es: seq<Event>, key: Bytes) {
    ValidRun(EMPTY, es) && OverKeys(keys, es) && key in keys && |key| == KEY_SIZE ==>
      var v := Update(Run(EMPTY, es), key);
      AddressOf(key) !in v.books.waiting && SubnetOf(key) !in v.books.waiting
  }

  /** A set of keys is served on every run exactly if no two of them share an address or a subnet. */
  lemma ServedExactlyIfDistinct(keys: set<Bytes>)
    requires forall k | k in keys :: |k| == KEY_SIZE
    ensures (forall es, key :: Served(keys, es, key)) <==> Distinct(keys)
  {
    hide AddressOf, SubnetOf, Update, ValidRun, Run;
    if Distinct(keys) {
      forall es, key ensures Served(keys, es, key) {
        if ValidRun(EMPTY, es) && OverKeys(keys, es) && key in keys {
          SeenFromUpdates(keys, EMPTY, es);
          DistinctKeysFlushed(es, key);
        }
      }
    } else {
      var k, l :| k in keys && l in keys && k != l && (AddressOf(k) == AddressOf(l) || SubnetOf(k) == SubnetOf(l));
      var d := if AddressOf(k) == AddressOf(l) then AddressOf(k) else SubnetOf(k);
      SharedDestinationStrands(k, l, d, []);
      var es := [UpdateEvent(k), UpdateEvent(l), UpdateEvent(k), FireEvent(InfoTimer(NewInfo(1, l)), false), SendEvent(d, [])];
      assert !Served(keys, es, k);
    }
  }

  lemma {:induction false} SeenFromUpdates(keys: set<Bytes>, s: Store, es: seq<Event>)
    requires ValidRun(s, es) && OverKeys(keys, es) && s.seen <= keys
    ensures Run(s, es).seen <= keys
    decreases |es|
  {
    hide AddressOf, SubnetOf;
    if es != [] {
      assert es[0] in es && forall e | e in es[1..] :: e in es;
      SeenFromUpdates(keys, Step(s, es[0]), es[1..]);
    }
  }

  lemma RunsTo(e1: Event, e2: Event, e3: Event, e4: Event, e5: Event, s1: Store, s2: Store, s3: Store, s4: Store, s5: Store)
    requires Enabled(EMPTY, e1) && s1 == Step(EMPTY, e1) && Enabled(s1, e2) && s2 == Step(s1, e2) && Enabled(s2, e3) && s3 == Step(s2, e3)
    requires Enabled(s3, e4) && s4 == Step(s3, e4) && Enabled(s4, e5) && s5 == Step(s4, e5)
    ensures ValidRun(EMPTY, [e1, e2, e3, e4, e5]) && Run(EMPTY, [e1, e2, e3, e4, e5]) == s5
  {
    hide Step, Enabled;
    RunFirst(s4, e5, []);
    RunFirst(s3, e4, [e5]);
    RunFirst(s2, e3, [e4, e5]);
    RunFirst(s1, e2, [e3, e4, e5]);
    RunFirst(EMPTY, e1, [e2, e3, e4, e5]);
    assert [e5] + [] == [e5] && [e4] + [e5] == [e4, e5] && [e3] + [e4, e5] == [e3, e4, e5];
    assert [e2] + [e3, e4, e5] == [e2, e3, e4, e5] && [e1] + [e2, e3, e4, e5] == [e1, e2, e3, e4, e5];
  }

  lemma RunFirst(s: Store, e: Event, es: seq<Event>)
    requires Enabled(s, e)
    ensures ValidRun(s, [e] + es) <==> ValidRun(Step(s, e), es)
    ensures ValidRun(s, [e] + es) ==> Run(s, [e] + es) == Run(Step(s, e), es)
  {
    assert ([e] + es)[1..] == es;
  }
}
