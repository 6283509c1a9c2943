/** What happens in the world of module Agreement: two honest sessions can meet
and accept each other, as the handler does; and where neither a secure handshake
nor TLS is asked for, a replayed signature is taken for the peer itself. */
module Meeting {
  import opened Constants
  import opened Octets
  import opened Crypto
  import opened Results
  import opened Hello
  import opened HelloLaws
  import opened Handshake
  import opened Agreement
  import Completion

  /** An honest hello that reaches a session with another key and the same password is noted and confirmed. */
  lemma HelloNoted(w: World, id: nat, side: Side, nonce: Octets, ts: Octets, ls: Octets, sig: Octets)
    requires Inv(w) && id in w.sessions && w.sessions[id].phase == AwaitHello
    requires |side.key| == KEY_SIZE && |nonce| == NONCE_SIZE && nonce != Zeros(NONCE_SIZE) && |ts| == |ls| == SIGNATURE_SIZE
    requires |side.options.password| <= MAX_PASSWORD && w.sessions[id].side.options.password == side.options.password
    requires SignedBy(w.ledger, Encoded(LocalMetadata(side), nonce, ts, ls), ls, side.options.password)
    requires side.key != w.sessions[id].side.key
    ensures var s, e := w.sessions[id], Encoded(LocalMetadata(side), nonce, ts, ls);
            var h := ConfirmationHash(side.options.password, s.local, e);
            && h != None
            && OnHello(w, id, e.wire, sig) == w.(ledger := w.ledger + {Signed(s.side.key, h.value, sig)},
                                                sessions := w.sessions[id := s.(remote := Some(e), phase := AwaitConfirmation)])
            && (MayConfirm(w, id, e.wire, sig) <==> MaySign(w.ledger, s.side.key, h.value, sig))
  {
    hide ParseFields, PrintFields, Decode, SignedBy, ConfirmationHash, Frame;
    var s, e := w.sessions[id], Encoded(LocalMetadata(side), nonce, ts, ls);
    HelloRoundTrip(LocalMetadata(side), nonce, ts, ls, [], side.options.password, side.options.password, w.ledger);
    assert e.wire + [] == e.wire;
    LocalWire(w, id);
    ConfirmationPossible(s.side, s.local, e.wire, w.ledger);
  }

  lemma LocalWire(w: World, id: nat)
    requires Inv(w) && id in w.sessions
    ensures w.sessions[id].local.wire != [] && |w.sessions[id].side.options.password| <= MAX_PASSWORD
  {
    hide Reading, Accounted;
    assert SessionOk(w, w.sessions[id]);
  }

  /** What opening a session puts into the ledger. */
  lemma OpenedSigned(w: World, id: nat, side: Side, nonce: Octets, ts: Octets, ls: Octets)
    requires MayOpen(w, id, side, nonce, ts, ls)
    ensures var v, e := OnOpen(w, id, side, nonce, ts, ls), Encoded(LocalMetadata(side), nonce, ts, ls);
            v.sessions == w.sessions[id := Session(side, e, None, AwaitHello)] && SignedBy(v.ledger, e, ls, side.options.password)
  {
    hide PrintFields, PrintField, Frame;
    var e := Encoded(LocalMetadata(side), nonce, ts, ls);
    var m := LocalMetadata(side).(nonce := nonce, capabilities := CAPABILITY_CONFIRMATION);
    assert SignedFields(e) == SignedFields(m);
  }

  lemma ConfirmationAccepted(w: World, id: nat, remote: Metadata, sig: Octets)
    requires id in w.sessions && w.sessions[id].remote == Some(remote) && |sig| == SIGNATURE_SIZE && |remote.publicKey| == KEY_SIZE
    requires var h := ConfirmationHash(w.sessions[id].side.options.password, w.sessions[id].local, remote);
             h != None && Verify(w.ledger, remote.publicKey, h.value, sig)
    ensures OnConfirmation(w, id, PrintConfirmation(sig)) == w.(sessions := w.sessions[id := w.sessions[id].(phase := Accepted)])
  {
    hide ConfirmationHash;
    var input := PrintConfirmation(sig);
    assert input[..4] == CONFIRM && input[4..CONFIRMATION_SIZE] == sig;
  }

  lemma ConfirmStep(w: World, id: nat, remote: Metadata, sig: Octets)
    requires id in w.sessions && w.sessions[id].remote == Some(remote) && w.sessions[id].phase == AwaitConfirmation
    requires |sig| == SIGNATURE_SIZE && |remote.publicKey| == KEY_SIZE
    requires var h := ConfirmationHash(w.sessions[id].side.options.password, w.sessions[id].local, remote);
             h != None && Verify(w.ledger, remote.publicKey, h.value, sig)
    ensures Enabled(w, ReceiveConfirmation(id, PrintConfirmation(sig)))
    ensures Step(w, ReceiveConfirmation(id, PrintConfirmation(sig))) == w.(sessions := w.sessions[id := w.sessions[id].(phase := Accepted)])
  {
    hide ConfirmationHash, OnConfirmation;
    ConfirmationAccepted(w, id, remote, sig);
  }

  lemma HashSymmetric(password: Octets, x: Metadata, y: Metadata)
    requires x.publicKey != y.publicKey
    ensures ConfirmationHash(password, x, y) == ConfirmationHash(password, y, x)
  {
    Completion.TranscriptSymmetric(x, y);
  }

  lemma StartOk(w: World)
    requires w == Start(w.honest) && forall k | k in w.honest :: |k| == KEY_SIZE
    ensures Inv(w) && w.ledger == {} && w.sessions == map[] && Reaches(w, [], w)
  {
  }

  ghost predicate Reaches(w: World, es: seq<Event>, v: World) {
    ValidRun(w, es) && Run(w, es) == v
  }

  lemma {:induction false} OneMore(w: World, es: seq<Event>, v: World, e: Event)
    requires Reaches(w, es, v) && Enabled(v, e)
    ensures Reaches(w, es + [e], Step(v, e))
    decreases |es|
  {
    hide Step, Enabled;
    if es == [] {
      var u := Step(w, e);
      assert es + [e] == [e] && [e][1..] == [] && ValidRun(u, []) && Run(u, []) == u;
    } else {
      assert (es + [e])[1..] == es[1..] + [e];
      OneMore(Step(w, es[0]), es[1..], v, e);
    }
  }

  /** All signatures of this key are among these. */
  ghost predicate Used(l: Ledger, key: Octets, sigs: set<Octets>) {
    forall s | s in l && s.key == key :: s.sig in sigs
  }

  lemma MayUse(l: Ledger, key: Octets, sigs: set<Octets>, digest: Digest, sig: Octets)
    requires Used(l, key, sigs) && sig !in sigs && |sig| == SIGNATURE_SIZE
    ensures MaySign(l, key, digest, sig)
    ensures Used(l + {Signed(key, digest, sig)}, key, sigs + {sig})
  {
  }

  /** The hellos two sides send with these nonces and signatures. */
  function HelloOf(side: Side, nonce: Octets, a: seq<Octets>): Metadata
    requires |side.key| == KEY_SIZE && |nonce| == NONCE_SIZE && Completion.ThreeSignatures(a)
  {
    Encoded(LocalMetadata(side), nonce, a[0], a[1])
  }

  lemma OpenStep(w: World, id: nat, side: Side, nonce: Octets, a: seq<Octets>)
    requires Inv(w) && id !in w.sessions && side.key in w.honest && |side.key| == KEY_SIZE && |side.options.password| <= MAX_PASSWORD
    requires |nonce| == NONCE_SIZE && (forall i | i in w.sessions :: w.sessions[i].local.nonce != nonce)
    requires Completion.ThreeSignatures(a) && Used(w.ledger, side.key, {})
    ensures Enabled(w, Open(id, side, nonce, a[0], a[1]))
    ensures var v := Step(w, Open(id, side, nonce, a[0], a[1]));
            && Inv(v) && v.honest == w.honest && v.sessions == w.sessions[id := Session(side, HelloOf(side, nonce, a), None, AwaitHello)]
            && SignedBy(v.ledger, HelloOf(side, nonce, a), a[1], side.options.password)
            && w.ledger <= v.ledger && Used(v.ledger, side.key, {a[0], a[1]})
            && forall s | s in v.ledger && s !in w.ledger :: s.key == side.key
  {
    hide SignedBy, Encoded, TranscriptDigest, LegacyDigest, Inv, MaySign;
    var d := TranscriptDigest(side, nonce);
    MayUse(w.ledger, side.key, {}, d, a[0]);
    MayUse(w.ledger + {Signed(side.key, d, a[0])}, side.key, {a[0]}, LegacyDigest(side), a[1]);
    OpenedSigned(w, id, side, nonce, a[0], a[1]);
    OpenKeepsInv(w, id, side, nonce, a[0], a[1]);
  }

  lemma GreetStep(w: World, id: nat, side: Side, nonce: Octets, a: seq<Octets>, sigs: set<Octets>, sig: Octets)
    requires Inv(w) && id in w.sessions && w.sessions[id].phase == AwaitHello
    requires |side.key| == KEY_SIZE && |nonce| == NONCE_SIZE && nonce != Zeros(NONCE_SIZE) && Completion.ThreeSignatures(a)
    requires |side.options.password| <= MAX_PASSWORD && w.sessions[id].side.options.password == side.options.password
    requires SignedBy(w.ledger, HelloOf(side, nonce, a), a[1], side.options.password) && side.key != w.sessions[id].side.key
    requires Used(w.ledger, w.sessions[id].side.key, sigs) && sig !in sigs && |sig| == SIGNATURE_SIZE
    requires Deliverable(w, id, HelloOf(side, nonce, a).wire)
    ensures var s, e := w.sessions[id], HelloOf(side, nonce, a);
            var h := ConfirmationHash(side.options.password, s.local, e);
            && h != None && Enabled(w, ReceiveHello(id, e.wire, sig))
            && Step(w, ReceiveHello(id, e.wire, sig)) ==
               w.(ledger := w.ledger + {Signed(s.side.key, h.value, sig)},
                  sessions := w.sessions[id := s.(remote := Some(e), phase := AwaitConfirmation)])
            && Inv(Step(w, ReceiveHello(id, e.wire, sig)))
  {
    hide SignedBy, Encoded, ConfirmationHash, OnHello, Inv, MaySign, MayConfirm, Deliverable, Used, Zeros;
    HelloNoted(w, id, side, nonce, a[0], a[1], sig);
    var h := ConfirmationHash(side.options.password, w.sessions[id].local, HelloOf(side, nonce, a));
    MayUse(w.ledger, w.sessions[id].side.key, sigs, h.value, sig);
    HelloKeepsInv(w, id, HelloOf(side, nonce, a).wire, sig);
  }

  /** More signatures take none away. */
  lemma StillSigned(l: Ledger, k: Ledger, e: Metadata, ls: Octets, password: Octets)
    requires |e.publicKey| == KEY_SIZE && |e.nonce| == NONCE_SIZE && |password| <= MAX_PASSWORD
    requires l <= k && SignedBy(l, e, ls, password)
    ensures SignedBy(k, e, ls, password)
  {
    hide PrintFields, SignedFields;
  }

  lemma HelloShape(side: Side, nonce: Octets, a: seq<Octets>)
    requires |side.key| == KEY_SIZE && |nonce| == NONCE_SIZE && Completion.ThreeSignatures(a)
    ensures var e := HelloOf(side, nonce, a);
            e.publicKey == side.key && e.nonce == nonce
  {
  }

  /** Two honest nodes each open a session. */
  lemma BothOpen(left: Side, right: Side, n: Octets, m: Octets, a: seq<Octets>, b: seq<Octets>) returns (es: seq<Event>, w: World)
    requires |left.key| == |right.key| == KEY_SIZE && left.key != right.key
    requires |left.options.password| <= MAX_PASSWORD && |right.options.password| <= MAX_PASSWORD
    requires |n| == |m| == NONCE_SIZE && n != m && Completion.ThreeSignatures(a) && Completion.ThreeSignatures(b)
    ensures Reaches(Start({left.key, right.key}), es, w) && Inv(w) && w.honest == {left.key, right.key}
    ensures w.sessions == map[0 := Session(left, HelloOf(left, n, a), None, AwaitHello),
                              1 := Session(right, HelloOf(right, m, b), None, AwaitHello)]
    ensures HelloOf(left, n, a).publicKey == left.key && HelloOf(left, n, a).nonce == n
    ensures HelloOf(right, m, b).publicKey == right.key && HelloOf(right, m, b).nonce == m
    ensures SignedBy(w.ledger, HelloOf(left, n, a), a[1], left.options.password)
    ensures SignedBy(w.ledger, HelloOf(right, m, b), b[1], right.options.password)
    ensures Used(w.ledger, left.key, {a[0], a[1]}) && Used(w.ledger, right.key, {b[0], b[1]})
  {
    hide SignedBy, HelloOf, Step, Enabled, Inv, ValidRun, Run;
    HelloShape(left, n, a);
    HelloShape(right, m, b);
    var w0 := Start({left.key, right.key});
    StartOk(w0);
    var e1, e2 := Open(0, left, n, a[0], a[1]), Open(1, right, m, b[0], b[1]);
    OpenStep(w0, 0, left, n, a);
    var w1 := Step(w0, e1);
    OpenStep(w1, 1, right, m, b);
    w := Step(w1, e2);
    StillSigned(w1.ledger, w.ledger, HelloOf(left, n, a), a[1], left.options.password);
    OneMore(w0, [], w0, e1);
    OneMore(w0, [] + [e1], w1, e2);
    es := [] + [e1] + [e2];
  }

  /** Any two settings with different keys and one password, with different
      nonces that are not zero, and any three different signatures from each
      key, neither shown its own key's certificate: there is a run in which each
      session accepts the other. */
  lemma TwoSessionsMeet(left: Side, right: Side, n: Octets, m: Octets, a: seq<Octets>, b: seq<Octets>) returns (es: seq<Event>)
    requires |left.key| == |right.key| == KEY_SIZE && left.key != right.key
    requires left.options.password == right.options.password && |left.options.password| <= MAX_PASSWORD
    requires |n| == |m| == NONCE_SIZE && n != m && n != Zeros(NONCE_SIZE) && m != Zeros(NONCE_SIZE)
    requires Completion.ThreeSignatures(a) && Completion.ThreeSignatures(b)
    requires Certified(left) != Some(left.key) && Certified(right) != Some(right.key)
    ensures ValidRun(Start({left.key, right.key}), es)
    ensures var w := Run(Start({left.key, right.key}), es);
            && 0 in w.sessions && w.sessions[0].phase == Accepted && w.sessions[0].remote == Some(HelloOf(right, m, b))
            && 1 in w.sessions && w.sessions[1].phase == Accepted && w.sessions[1].remote == Some(HelloOf(left, n, a))
  {
    hide SignedBy, HelloOf, ConfirmationHash, Step, Enabled, Inv, Zeros, ValidRun, Run;
    var x, y := HelloOf(left, n, a), HelloOf(right, m, b);
    HelloShape(left, n, a);
    HelloShape(right, m, b);
    var w0 := Start({left.key, right.key});
    var w2;
    es, w2 := BothOpen(left, right, n, m, a, b);
    var e3, e4 := ReceiveHello(0, y.wire, a[2]), ReceiveHello(1, x.wire, b[2]);
    assert SentBy(w2, 1, right.key, y.wire);
    GreetStep(w2, 0, right, m, b, {a[0], a[1]}, a[2]);
    var w3 := Step(w2, e3);
    StillSigned(w2.ledger, w3.ledger, x, a[1], left.options.password);
    assert SentBy(w3, 0, left.key, x.wire);
    GreetStep(w3, 1, left, n, a, {b[0], b[1]}, b[2]);
    var w4 := Step(w3, e4);
    OneMore(w0, es, w2, e3);
    OneMore(w0, es + [e3], w3, e4);
    var e5, e6 := ReceiveConfirmation(0, PrintConfirmation(b[2])), ReceiveConfirmation(1, PrintConfirmation(a[2]));
    HashSymmetric(left.options.password, x, y);
    ConfirmStep(w4, 0, y, b[2]);
    var w5 := Step(w4, e5);
    ConfirmStep(w5, 1, x, a[2]);
    es := es + [e3] + [e4];
    OneMore(w0, es, w4, e5);
    OneMore(w0, es + [e5], w5, e6);
    es := es + [e5] + [e6];
  }

  // ----- the world and the handler

  /** A growing ledger keeps an accepted hello accepted, and what follows it is not looked at. */
  lemma StillAccepted(input: Octets, rest: Octets, password: Octets, l: Ledger, k: Ledger)
    requires l <= k && Decode(BLANK, input, password, l).err == None
    ensures var m := Decode(BLANK, input, password, l).m;
            Decode(BLANK, m.wire + rest, password, k) == Decoded(None, m, rest)
  {
    hide Decode;
    DecodeAccepts(input, password, l);
    var d := Decode(BLANK, input, password, l);
    var wire := d.m.wire;
    WireHead(input, password, l);
    Completion.DecodeLooksNoFurther(wire, d.rest, password, l);
    Completion.DecodeLooksNoFurther(wire, rest, password, k);
    DecodeGrows(wire, password, l, k);
  }

  lemma WireHead(input: Octets, password: Octets, l: Ledger)
    requires Decode(BLANK, input, password, l).err == None
    ensures var wire := Decode(BLANK, input, password, l).m.wire;
            |wire| >= 6 && Completion.GoodHead(wire[..6]) && |wire| == 6 + GetU16(wire[4..6])
  {
    hide ParseFields, Authenticate;
    var wire := Decode(BLANK, input, password, l).m.wire;
    DecodeAccepts(input, password, l);
    assert wire[..6] == input[..6] && wire[..6][..4] == input[..4] && wire[..6][4..6] == wire[4..6] == input[4..6];
  }

  lemma DecodeGrows(input: Octets, password: Octets, l: Ledger, k: Ledger)
    requires l <= k && Decode(BLANK, input, password, l).err == None
    ensures Decode(BLANK, input, password, k) == Decode(BLANK, input, password, l)
  {
    hide ParseFields, LegacyHash, HandshakeHash;
  }

  /** A session that took a hello, and later a confirmation, did what the
      handler does on that hello and that confirmation in a row. */
  lemma AcceptedByHandler(w: World, v: World, id: nat, hello: Octets, sig: Octets, confirmation: Octets)
    requires Inv(w) && id in w.sessions && w.sessions[id].phase == AwaitHello
    requires OnHello(w, id, hello, sig).sessions[id].phase == AwaitConfirmation
    requires id in v.sessions && v.sessions[id] == OnHello(w, id, hello, sig).sessions[id] && w.ledger <= v.ledger
    requires v.sessions[id].remote != None && OnConfirmation(v, id, confirmation).sessions[id].phase == Accepted
    ensures var s, m := w.sessions[id], v.sessions[id].remote.value;
            && m.wire <= hello
            && Handled(s.side, s.local, m.wire + confirmation, sig, v.ledger).verdict == Admit(s.side, m)
  {
    hide Decode, DecodeConfirmation, Gate, Check, ConfirmationHash, Inv;
    var s := w.sessions[id];
    var password := s.side.options.password;
    StillAccepted(hello, confirmation, password, w.ledger, v.ledger);
    DecodeAccepts(hello, password, w.ledger);
  }

  // ----- without a secure handshake and without TLS

  /** The hello a 0.5 node with this key would send, closed by a signature the key once made. */
  function OldHello(side: Side, ls: Octets): Octets
    requires |side.key| == KEY_SIZE && |ls| == SIGNATURE_SIZE
  {
    OldSize(LocalMetadata(side));
    Frame(PrintFields(LegacyFields(LocalMetadata(side))), ls)
  }

  lemma OldSize(m: Metadata)
    requires |m.publicKey| == KEY_SIZE
    ensures |PrintFields(LegacyFields(m))| + SIGNATURE_SIZE < 0x1_0000
  {
    PrintLegacy(m);
  }

  lemma OldHelloIs(side: Side, ls: Octets)
    requires |side.key| == KEY_SIZE && |ls| == SIGNATURE_SIZE
    ensures |PrintFields(LegacyFields(LocalMetadata(side)))| + |ls| < 0x1_0000
    ensures OldHello(side, ls) == Frame(PrintFields(LegacyFields(LocalMetadata(side))), ls)
  {
    OldSize(LocalMetadata(side));
  }

  /** A session that does not require a secure handshake takes such a hello for the peer itself. */
  lemma OldHelloTaken(w: World, id: nat, side: Side, ls: Octets, sig: Octets)
    requires Inv(w) && id in w.sessions && |side.key| == KEY_SIZE && |ls| == SIGNATURE_SIZE
    requires side.key != w.sessions[id].side.key && !w.sessions[id].side.options.requireSecure
    requires |side.options.password| <= MAX_PASSWORD && side.options.password == w.sessions[id].side.options.password
    requires Verify(w.ledger, side.key, LegacyDigest(side), ls)
    ensures var v := OnHello(w, id, OldHello(side, ls), sig);
            && v.ledger == w.ledger && v.sessions.Keys == w.sessions.Keys
            && v.sessions[id].remote == w.sessions[id].remote && v.sessions[id].side == w.sessions[id].side
            && v.sessions[id].phase.Unconfirmed? && v.sessions[id].phase.peer.publicKey == side.key
  {
    hide ParseFields, PrintFields, Decode, ConfirmationHash, Frame, SessionOk, Accounted, LegacyFields, OldHello;
    var m := LocalMetadata(side);
    OldHelloIs(side, ls);
    NewNodeReadsOldHello(m, ls, [], side.options.password, side.options.password, w.ledger);
    assert OldHello(side, ls) + [] == OldHello(side, ls);
  }

  /** A world of these honest keys in which a session with these settings is connected to this peer has its one partner. */
  ghost predicate Partnered(side: Side, peer: Octets, honest: set<Octets>, es: seq<Event>, i: nat) {
    && (forall k | k in honest :: |k| == KEY_SIZE) && peer in honest && ValidRun(Start(honest), es)
    && i in Run(Start(honest), es).sessions && Run(Start(honest), es).sessions[i].side == side
    && ConnectedTo(Run(Start(honest), es).sessions[i], peer)
    ==> HasOnePartner(Run(Start(honest), es), i)
  }

  function Filled(n: nat, x: Octet): Octets {
    seq(n, i => x)
  }

  /** The replay: the peer opens one session somewhere, and its signature is put under an old hello. */
  lemma Replay(side: Side, peer: Octets) returns (es: seq<Event>)
    requires |side.key| == |peer| == KEY_SIZE && side.key != peer && |side.options.password| <= MAX_PASSWORD
    requires Gate(side, peer) == None && !side.options.requireSecure && side.transport.Plain?
    ensures !Partnered(side, peer, {side.key, peer}, es, 1)
  {
    hide SignedBy, HelloOf, Step, Enabled, Inv, ValidRun, Run, OldHello, LegacyDigest, OnHello, Gate;
    var other := side.(key := peer);
    var a := [Filled(64, 0), Filled(64, 1), Filled(64, 2)];
    assert a[0][0] != a[1][0] && a[0][0] != a[2][0] && a[1][0] != a[2][0];
    var n, m := Filled(32, 1), Filled(32, 2);
    assert n[0] != m[0];
    HelloShape(other, n, a);
    var w;
    es, w := BothOpen(other, side, n, m, a, a);
    LegacySigned(w, w, other, n, a);
    var e := ReceiveHello(1, OldHello(other, a[1]), a[2]);
    OldHelloTaken(w, 1, other, a[1], a[2]);
    HelloPossible(w, 1, OldHello(other, a[1]), {a[0], a[1]}, a[2]);
    assert {peer, side.key} == {side.key, peer};
    OneMore(Start({side.key, peer}), es, w, e);
    es := es + [e];
    assert !HasOnePartner(Step(w, e), 1);
  }

  lemma LegacySigned(w: World, v: World, side: Side, nonce: Octets, a: seq<Octets>)
    requires |side.key| == KEY_SIZE && |nonce| == NONCE_SIZE && Completion.ThreeSignatures(a) && |side.options.password| <= MAX_PASSWORD
    requires HelloOf(side, nonce, a).publicKey == side.key && |HelloOf(side, nonce, a).nonce| == NONCE_SIZE
    requires SignedBy(w.ledger, HelloOf(side, nonce, a), a[1], side.options.password) && w.ledger <= v.ledger
    ensures Verify(v.ledger, side.key, LegacyDigest(side), a[1])
  {
    hide HelloOf, PrintFields, SignedFields;
  }

  lemma HelloPossible(w: World, id: nat, input: Octets, sigs: set<Octets>, sig: Octets)
    requires id in w.sessions && w.sessions[id].phase == AwaitHello
    requires Used(w.ledger, w.sessions[id].side.key, sigs) && sig !in sigs && |sig| == SIGNATURE_SIZE
    requires w.sessions[id].side.transport.Plain?
    ensures Enabled(w, ReceiveHello(id, input, sig)) && Step(w, ReceiveHello(id, input, sig)) == OnHello(w, id, input, sig)
  {
    hide Decode, ConfirmationHash, OnHello;
    var s := w.sessions[id];
    var h := ConfirmationHash(s.side.options.password, s.local, Decode(BLANK, input, s.side.options.password, w.ledger).m);
    if h != None {
      MayUse(w.ledger, s.side.key, sigs, h.value, sig);
    }
  }

  /** A node whose peer passes its gate has its one partner in every world and
      on every run in which it is connected to that honest peer, exactly if it
      requires a secure handshake or runs over TLS. */
  lemma PartneredExactlyIfSecure(side: Side, peer: Octets)
    requires |side.key| == |peer| == KEY_SIZE && side.key != peer && |side.options.password| <= MAX_PASSWORD
    requires Gate(side, peer) == None
    ensures (forall honest, es, i :: Partnered(side, peer, honest, es, i)) <==> side.options.requireSecure || side.transport.Tls?
  {
    hide ValidRun, Run, HasOnePartner, Gate;
    if side.options.requireSecure || side.transport.Tls? {
      forall honest, es, i ensures Partnered(side, peer, honest, es, i) {
        if !Partnered(side, peer, honest, es, i) {
          SecureConnectionsAgree(honest, es, i, peer);
        }
      }
    } else {
      var es := Replay(side, peer);
    }
  }
}
