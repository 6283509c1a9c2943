/** Agreement: what an accepted confirmation proves, against an adversary.

Any number of sessions of any number of honest nodes run the handler of
src/core/link.go over a network that delivers whatever bytes it likes. Keys
outside the honest set may sign anything at any time; an honest key signs only
what encode and encodeConfirmation ask of it. TLS is ideal too: whoever shows a
certificate holds its key, so behind an honest key's certificate there is a
session of that key, and what arrives is what it sent. */
module Agreement {
  import opened Constants
  import opened Octets
  import opened Crypto
  import opened Results
  import opened Hello
  import opened HelloLaws
  import opened Handshake

  /** Accepted is a confirmation accepted; Unconfirmed is a peer that offers none and is taken all the same. */
  datatype Phase = AwaitHello | AwaitConfirmation | Accepted | Unconfirmed(peer: Metadata) | Over

  datatype Session = Session(side: Side, local: Metadata, remote: Option<Metadata>, phase: Phase)

  datatype World = World(honest: set<Octets>, ledger: Ledger, sessions: map<nat, Session>)

  datatype Event =
    | Open(id: nat, side: Side, nonce: Octets, ts: Octets, ls: Octets)
    | ReceiveHello(id: nat, input: Octets, sig: Octets)
    | ReceiveConfirmation(id: nat, input: Octets)
    | Forge(key: Octets, digest: Digest, sig: Octets)

  // ----- steps

  /** The two digests a fresh hello has signed. */
  function TranscriptDigest(side: Side, nonce: Octets): Digest
    requires |side.key| == KEY_SIZE && |nonce| == NONCE_SIZE && |side.options.password| <= MAX_PASSWORD
  {
    var m := LocalMetadata(side).(nonce := nonce, capabilities := CAPABILITY_CONFIRMATION);
    HandshakeHash(side.options.password, PrintFields(SignedFields(m))).value
  }

  function LegacyDigest(side: Side): Digest
    requires |side.options.password| <= MAX_PASSWORD
  {
    LegacyHash(side.options.password, side.key).value
  }

  /** A new session of an honest node: an unused nonce, and signatures that may serve. */
  predicate MayOpen(w: World, id: nat, side: Side, nonce: Octets, ts: Octets, ls: Octets) {
    && id !in w.sessions && side.key in w.honest && |side.key| == KEY_SIZE && |side.options.password| <= MAX_PASSWORD
    && |nonce| == NONCE_SIZE && (forall i | i in w.sessions :: w.sessions[i].local.nonce != nonce)
    && MaySign(w.ledger, side.key, TranscriptDigest(side, nonce), ts)
    && MaySign(w.ledger + {Signed(side.key, TranscriptDigest(side, nonce), ts)}, side.key, LegacyDigest(side), ls)
  }

  function OnOpen(w: World, id: nat, side: Side, nonce: Octets, ts: Octets, ls: Octets): World
    requires MayOpen(w, id, side, nonce, ts, ls)
  {
    w.(ledger := w.ledger + {Signed(side.key, TranscriptDigest(side, nonce), ts)} + {Signed(side.key, LegacyDigest(side), ls)},
       sessions := w.sessions[id := Session(side, Encoded(LocalMetadata(side), nonce, ts, ls), None, AwaitHello)])
  }

  /** If the hello is to be confirmed, these bytes may serve as the signature. */
  predicate MayConfirm(w: World, id: nat, input: Octets, sig: Octets)
    requires id in w.sessions
  {
    var s := w.sessions[id];
    var d := Decode(BLANK, input, s.side.options.password, w.ledger);
    var h := ConfirmationHash(s.side.options.password, s.local, d.m);
    h == None || MaySign(w.ledger, s.side.key, h.value, sig)
  }

  /** The key that TLS has shown the other end to hold, if any. */
  function Certified(side: Side): Option<Octets> {
    if side.transport.Tls? && |side.transport.certificates| == 1 then side.transport.certificates[0] else None
  }

  predicate HonestlyCertified(honest: set<Octets>, side: Side) {
    Certified(side) != None && Certified(side).value in honest
  }

  /** These bytes are the beginning of what session j of this key sends: its
      hello, or some of it, or its hello and whatever it sends after. */
  ghost predicate SentBy(w: World, j: nat, key: Octets, input: Octets) {
    && j in w.sessions && w.sessions[j].side.key == key
    && (input <= w.sessions[j].local.wire || w.sessions[j].local.wire <= input)
  }

  /** The network can deliver these bytes to a session: anything, unless the
      other end is certified as an honest key. */
  ghost predicate Deliverable(w: World, id: nat, input: Octets)
    requires id in w.sessions
  {
    HonestlyCertified(w.honest, w.sessions[id].side) ==> exists j :: SentBy(w, j, Certified(w.sessions[id].side).value, input)
  }

  ghost predicate Enabled(w: World, e: Event) {
    match e
    case Open(id, side, nonce, ts, ls) => MayOpen(w, id, side, nonce, ts, ls)
    case ReceiveHello(id, input, sig) =>
      id in w.sessions && w.sessions[id].phase == AwaitHello && MayConfirm(w, id, input, sig) && Deliverable(w, id, input)
    case ReceiveConfirmation(id, input) => id in w.sessions && w.sessions[id].phase == AwaitConfirmation && w.sessions[id].remote != None
    case Forge(key, digest, sig) =>
      key !in w.honest && MaySign(w.ledger, key, digest, sig)
  }

  /** The peer's hello arrives: refuse it, or take note of it and sign the transcript if it is to be confirmed. */
  function OnHello(w: World, id: nat, input: Octets, sig: Octets): (v: World)
    requires id in w.sessions
    ensures v.sessions.Keys == w.sessions.Keys && w.ledger <= v.ledger
  {
    var s := w.sessions[id];
    var d := Decode(BLANK, input, s.side.options.password, w.ledger);
    var h := ConfirmationHash(s.side.options.password, s.local, d.m);
    if JudgeHello(s.side, d) != None || (Supports(d.m) && h == None) then
      w.(sessions := w.sessions[id := s.(phase := Over)])
    else if !Supports(d.m) then
      w.(sessions := w.sessions[id := s.(phase := Unconfirmed(d.m))])
    else
      w.(ledger := w.ledger + {Signed(s.side.key, h.value, sig)},
         sessions := w.sessions[id := s.(remote := Some(d.m), phase := AwaitConfirmation)])
  }

  function OnConfirmation(w: World, id: nat, input: Octets): (v: World)
    requires id in w.sessions && w.sessions[id].remote != None
    ensures v.sessions.Keys == w.sessions.Keys && v.ledger == w.ledger
  {
    var s := w.sessions[id];
    var remote := s.remote.value;
    var c := DecodeConfirmation(input, remote.publicKey, s.side.options.password, s.local, remote, w.ledger);
    w.(sessions := w.sessions[id := s.(phase := if c.err == None then Accepted else Over)])
  }

  ghost function Step(w: World, e: Event): World
    requires Enabled(w, e)
  {
    match e
    case Open(id, side, nonce, ts, ls) => OnOpen(w, id, side, nonce, ts, ls)
    case ReceiveHello(id, input, sig) => OnHello(w, id, input, sig)
    case ReceiveConfirmation(id, input) => OnConfirmation(w, id, input)
    case Forge(key, digest, sig) => w.(ledger := w.ledger + {Signed(key, digest, sig)})
  }

  ghost predicate ValidRun(w: World, es: seq<Event>)
    decreases |es|
  {
    es == [] || (Enabled(w, es[0]) && ValidRun(Step(w, es[0]), es[1..]))
  }

  ghost function Run(w: World, es: seq<Event>): World
    requires ValidRun(w, es)
    decreases |es|
  {
    if es == [] then w else Run(Step(w, es[0]), es[1..])
  }

  // ----- invariant

  /** What any decoder reads in a message. */
  function Reading(wire: Octets): Metadata
    requires |wire| >= 6 + SIGNATURE_SIZE
  {
    ParseFields(BLANK.(wire := wire), [], FieldArea(wire), None).m
  }

  /** Metadata that is exactly what its own bytes say. */
  predicate Faithful(m: Metadata) {
    SelfDelimiting(m.wire) && |m.publicKey| == KEY_SIZE && m == Reading(m.wire)
  }

  /** Some signature of this key stands for this digest. */
  ghost predicate Endorsed(l: Ledger, key: Octets, digest: Digest) {
    exists sig :: Verify(l, key, digest, sig)
  }

  ghost predicate SessionOk(w: World, s: Session) {
    && s.side.key in w.honest && |s.side.options.password| <= MAX_PASSWORD
    && Faithful(s.local) && Supports(s.local) && s.local.publicKey == s.side.key && s.local.priority == s.side.options.priority
    && (s.remote != None ==> Faithful(s.remote.value) && s.remote.value.publicKey != s.side.key)
    && (s.phase == AwaitHello ==> s.remote == None)
    && (s.phase == AwaitConfirmation || s.phase == Accepted ==> s.remote != None)
    && (s.phase == Accepted ==> Endorsed(w.ledger, s.remote.value.publicKey, ConfirmationDigest(s)))
    && (s.phase.Unconfirmed? ==> !s.side.options.requireSecure && !HonestlyCertified(w.honest, s.side))
  }

  /** The digest both confirmations of a session are about. */
  function ConfirmationDigest(s: Session): Digest
    requires s.remote != None
  {
    Digest(s.side.options.password, CONFIRMATION_DOMAIN + Transcript(s.local, s.remote.value))
  }

  /** Session i of this world signed this digest as its confirmation. */
  ghost predicate SignedIn(w: World, i: nat, key: Octets, digest: Digest) {
    i in w.sessions && w.sessions[i].side.key == key && w.sessions[i].remote != None && ConfirmationDigest(w.sessions[i]) == digest
  }

  /** Everything an honest key ever signed is one of the three things the code signs. */
  ghost predicate Accounted(w: World, x: Signed) {
    || x.digest.data == x.key
    || (|x.digest.data| >= |HANDSHAKE_DOMAIN| && x.digest.data[..|HANDSHAKE_DOMAIN|] == HANDSHAKE_DOMAIN)
    || exists i: nat :: SignedIn(w, i, x.key, x.digest)
  }

  ghost predicate Inv(w: World) {
    && Ideal(w.ledger)
    && (forall k | k in w.honest :: |k| == KEY_SIZE)
    && (forall i | i in w.sessions :: SessionOk(w, w.sessions[i]))
    && (forall x | x in w.ledger && x.key in w.honest :: Accounted(w, x))
    && (forall i, j | i in w.sessions && j in w.sessions && i != j :: w.sessions[i].local.nonce != w.sessions[j].local.nonce)
  }

  /** Sessions only gain their remote side, and the ledger only grows. */
  ghost predicate Grows(w: World, v: World) {
    && w.honest == v.honest && w.ledger <= v.ledger && w.sessions.Keys <= v.sessions.Keys
    && forall i | i in w.sessions ::
         && v.sessions[i].side == w.sessions[i].side && v.sessions[i].local == w.sessions[i].local
         && (w.sessions[i].remote != None ==> v.sessions[i].remote == w.sessions[i].remote)
  }

  lemma AccountedGrows(w: World, v: World, x: Signed)
    requires Grows(w, v) && Accounted(w, x)
    ensures Accounted(v, x)
  {
    hide Transcript;
    if i: nat :| SignedIn(w, i, x.key, x.digest) {
      assert SignedIn(v, i, x.key, x.digest);
    }
  }

  lemma SessionGrows(w: World, v: World, s: Session)
    requires Grows(w, v) && SessionOk(w, s)
    ensures SessionOk(v, s)
  {
    hide Faithful, ConfirmationDigest;
    if s.phase == Accepted {
      var sig :| Verify(w.ledger, s.remote.value.publicKey, ConfirmationDigest(s), sig);
      assert Verify(v.ledger, s.remote.value.publicKey, ConfirmationDigest(s), sig);
    }
  }

  /** A decoded hello is what its bytes say. */
  lemma DecodedFaithful(input: Octets, password: Octets, l: Ledger)
    requires Decode(BLANK, input, password, l).err == None
    ensures Faithful(Decode(BLANK, input, password, l).m)
  {
    DecodeAccepts(input, password, l);
  }

  /** An encoded hello is what its bytes say. */
  lemma EncodedFaithful(m: Metadata, nonce: Octets, ts: Octets, ls: Octets)
    requires |m.publicKey| == KEY_SIZE && |nonce| == NONCE_SIZE && |ts| == |ls| == SIGNATURE_SIZE
    ensures Faithful(Encoded(m, nonce, ts, ls))
  {
    hide ParseFields, PrintFields, StoreAll, Decode;
    var e := Encoded(m, nonce, ts, ls);
    StoreHello(e, e.wire);
    PrintSizes(e);
    DecodeFrame(HelloFields(e), ls, [], [], {});
    ParsePrinted(BLANK.(wire := e.wire), [], HelloFields(e));
    assert e.(wire := e.wire) == e;
  }

  /** A step that touches one session keeps the invariant if that session and the new signatures are in order. */
  lemma OneSessionStep(w: World, v: World, id: nat)
    requires Inv(w) && Grows(w, v) && Ideal(v.ledger) && id in v.sessions && v.sessions.Keys == w.sessions.Keys + {id}
    requires forall i | i in w.sessions && i != id :: v.sessions[i] == w.sessions[i]
    requires SessionOk(v, v.sessions[id])
    requires forall i | i in w.sessions && i != id :: w.sessions[i].local.nonce != v.sessions[id].local.nonce
    requires forall x | x in v.ledger && x !in w.ledger && x.key in v.honest :: Accounted(v, x)
    ensures Inv(v)
  {
    hide SessionOk, Accounted;
    forall i | i in v.sessions ensures SessionOk(v, v.sessions[i]) {
      if i != id {
        SessionGrows(w, v, w.sessions[i]);
      }
    }
    forall z | z in v.ledger && z.key in v.honest ensures Accounted(v, z) {
      if z in w.ledger {
        AccountedGrows(w, v, z);
      }
    }
  }

  lemma OpenKeepsInv(w: World, id: nat, side: Side, nonce: Octets, ts: Octets, ls: Octets)
    requires Inv(w) && MayOpen(w, id, side, nonce, ts, ls)
    ensures Inv(OnOpen(w, id, side, nonce, ts, ls))
  {
    hide Decode, PrintFields, SignedFields, Encoded, Faithful, ConfirmationDigest;
    var v := OnOpen(w, id, side, nonce, ts, ls);
    var x := Signed(side.key, TranscriptDigest(side, nonce), ts);
    SigningStaysIdeal(w.ledger, x.key, x.digest, x.sig);
    SigningStaysIdeal(w.ledger + {x}, side.key, LegacyDigest(side), ls);
    EncodedFaithful(LocalMetadata(side), nonce, ts, ls);
    EncodedKeeps(LocalMetadata(side), nonce, ts, ls);
    TranscriptPrefix(side, nonce);
    OneSessionStep(w, v, id);
  }

  lemma EncodedKeeps(m: Metadata, nonce: Octets, ts: Octets, ls: Octets)
    requires |m.publicKey| == KEY_SIZE && |nonce| == NONCE_SIZE && |ts| == |ls| == SIGNATURE_SIZE
    ensures var e := Encoded(m, nonce, ts, ls);
            e.publicKey == m.publicKey && e.priority == m.priority && e.nonce == nonce && e.wire != [] && Supports(e)
  {
    EncodedFaithful(m, nonce, ts, ls);
  }

  lemma TranscriptPrefix(side: Side, nonce: Octets)
    requires |side.key| == KEY_SIZE && |nonce| == NONCE_SIZE && |side.options.password| <= MAX_PASSWORD
    ensures var d := TranscriptDigest(side, nonce).data;
            |d| >= |HANDSHAKE_DOMAIN| && d[..|HANDSHAKE_DOMAIN|] == HANDSHAKE_DOMAIN
  {
  }

  /** Giving up, and taking a peer without confirmation, keep the invariant. */
  lemma EndKeepsInv(w: World, id: nat, phase: Phase)
    requires Inv(w) && id in w.sessions
    requires || phase == Over
             || (phase.Unconfirmed? && !w.sessions[id].side.options.requireSecure && !HonestlyCertified(w.honest, w.sessions[id].side))
    ensures Inv(w.(sessions := w.sessions[id := w.sessions[id].(phase := phase)]))
  {
    hide Faithful, ConfirmationDigest, Accounted, Endorsed;
    var v := w.(sessions := w.sessions[id := w.sessions[id].(phase := phase)]);
    OneSessionStep(w, v, id);
  }

  /** Taking note of a peer and signing the transcript keeps the invariant. */
  lemma NoteKeepsInv(w: World, id: nat, remote: Metadata, sig: Octets)
    requires Inv(w) && id in w.sessions && w.sessions[id].phase == AwaitHello
    requires Faithful(remote) && remote.publicKey != w.sessions[id].side.key
    requires MaySign(w.ledger, w.sessions[id].side.key, ConfirmationDigest(w.sessions[id].(remote := Some(remote))), sig)
    ensures var s := w.sessions[id].(remote := Some(remote), phase := AwaitConfirmation);
            Inv(w.(ledger := w.ledger + {Signed(s.side.key, ConfirmationDigest(s), sig)}, sessions := w.sessions[id := s]))
  {
    hide Faithful, Transcript, Endorsed;
    var s := w.sessions[id].(remote := Some(remote), phase := AwaitConfirmation);
    var x := Signed(s.side.key, ConfirmationDigest(s), sig);
    var v := w.(ledger := w.ledger + {x}, sessions := w.sessions[id := s]);
    SigningStaysIdeal(w.ledger, x.key, x.digest, x.sig);
    assert SignedIn(v, id, x.key, x.digest);
    OneSessionStep(w, v, id);
  }

  /** Whatever of a session's stream decodes as a hello is that session's hello. */
  lemma SentHelloRead(input: Octets, local: Metadata, password: Octets, l: Ledger)
    requires Faithful(local) && (input <= local.wire || local.wire <= input)
    requires Decode(BLANK, input, password, l).err == None
    ensures Decode(BLANK, input, password, l).m == local
  {
    hide Decode, ParseFields, Reading;
    var d, wire := Decode(BLANK, input, password, l), local.wire;
    DecodedFaithful(input, password, l);
    DecodedSplit(input, password, l);
    if input <= wire {
      var rest := wire[|input|..];
      assert d.m.wire + (d.rest + rest) == wire + [];
      UniqueSplit(d.m.wire, d.rest + rest, wire, []);
    } else {
      assert input == wire + input[|wire|..];
      UniqueSplit(d.m.wire, d.rest, wire, input[|wire|..]);
    }
  }

  lemma DecodedSplit(input: Octets, password: Octets, l: Ledger)
    requires Decode(BLANK, input, password, l).err == None
    ensures var d := Decode(BLANK, input, password, l);
            input == d.m.wire + d.rest
  {
    DecodeAccepts(input, password, l);
  }

  /** Behind an honest key's certificate there is a current node, whose hello offers confirmation. */
  lemma CertifiedHelloOffers(w: World, id: nat, input: Octets)
    requires Inv(w) && id in w.sessions && Deliverable(w, id, input) && HonestlyCertified(w.honest, w.sessions[id].side)
    ensures var d := Decode(BLANK, input, w.sessions[id].side.options.password, w.ledger);
            d.err == None ==> Supports(d.m)
  {
    hide Decode, Accounted, Faithful, Ideal;
    var password := w.sessions[id].side.options.password;
    if Decode(BLANK, input, password, w.ledger).err == None {
      var j :| SentBy(w, j, Certified(w.sessions[id].side).value, input);
      assert SessionOk(w, w.sessions[j]);
      SentHelloRead(input, w.sessions[j].local, password, w.ledger);
    }
  }

  lemma HelloKeepsInv(w: World, id: nat, input: Octets, sig: Octets)
    requires Inv(w) && id in w.sessions && w.sessions[id].phase == AwaitHello && MayConfirm(w, id, input, sig) && Deliverable(w, id, input)
    ensures Inv(OnHello(w, id, input, sig))
  {
    hide Decode, Faithful, Transcript, Check, Inv, Deliverable, HonestlyCertified;
    var v, s := OnHello(w, id, input, sig), w.sessions[id];
    if v.sessions[id].phase == AwaitConfirmation {
      DecodedFaithful(input, s.side.options.password, w.ledger);
      NoteKeepsInv(w, id, Decode(BLANK, input, s.side.options.password, w.ledger).m, sig);
    } else {
      if HonestlyCertified(w.honest, s.side) {
        CertifiedHelloOffers(w, id, input);
      }
      EndKeepsInv(w, id, v.sessions[id].phase);
    }
  }

  /** What an accepted confirmation rests on. */
  lemma ConfirmationVerified(input: Octets, key: Octets, password: Octets, local: Metadata, remote: Metadata, l: Ledger)
    requires DecodeConfirmation(input, key, password, local, remote, l).err == None
    ensures Endorsed(l, key, Digest(password, CONFIRMATION_DOMAIN + Transcript(local, remote)))
  {
    assert Verify(l, key, ConfirmationHash(password, local, remote).value, input[4..CONFIRMATION_SIZE]);
  }

  lemma ConfirmationKeepsInv(w: World, id: nat, input: Octets)
    requires Inv(w) && id in w.sessions && w.sessions[id].phase == AwaitConfirmation && w.sessions[id].remote != None
    ensures Inv(OnConfirmation(w, id, input))
  {
    hide DecodeConfirmation, Faithful, Transcript, Endorsed, Accounted;
    var v, s := OnConfirmation(w, id, input), w.sessions[id];
    var remote := s.remote.value;
    if v.sessions[id].phase == Accepted {
      ConfirmationVerified(input, remote.publicKey, s.side.options.password, s.local, remote, w.ledger);
    }
    OneSessionStep(w, v, id);
  }

  lemma ForgeKeepsInv(w: World, key: Octets, digest: Digest, sig: Octets)
    requires Inv(w) && key !in w.honest && MaySign(w.ledger, key, digest, sig)
    ensures Inv(w.(ledger := w.ledger + {Signed(key, digest, sig)}))
  {
    hide SessionOk, Accounted;
    var v := w.(ledger := w.ledger + {Signed(key, digest, sig)});
    SigningStaysIdeal(w.ledger, key, digest, sig);
    forall i | i in v.sessions ensures SessionOk(v, v.sessions[i]) {
      SessionGrows(w, v, w.sessions[i]);
    }
    forall z | z in v.ledger && z.key in v.honest ensures Accounted(v, z) {
      AccountedGrows(w, v, z);
    }
  }

  lemma StepKeepsInv(w: World, e: Event)
    requires Inv(w) && Enabled(w, e)
    ensures Inv(Step(w, e))
  {
    hide Inv, MayOpen, MayConfirm, Deliverable, OnOpen, OnHello, OnConfirmation;
    match e
    case Open(id, side, nonce, ts, ls) => OpenKeepsInv(w, id, side, nonce, ts, ls);
    case ReceiveHello(id, input, sig) => HelloKeepsInv(w, id, input, sig);
    case ReceiveConfirmation(id, input) => ConfirmationKeepsInv(w, id, input);
    case Forge(key, digest, sig) => ForgeKeepsInv(w, key, digest, sig);
  }

  lemma {:induction false} RunKeepsInv(w: World, es: seq<Event>)
    requires Inv(w) && ValidRun(w, es)
    ensures Inv(Run(w, es))
    decreases |es|
  {
    hide Inv, Enabled, Step;
    if es != [] {
      StepKeepsInv(w, es[0]);
      RunKeepsInv(Step(w, es[0]), es[1..]);
    }
  }

  // ----- agreement

  /** Two self-delimiting messages in a row can be cut in one way only. */
  lemma UniqueSplit(a: Octets, b: Octets, c: Octets, d: Octets)
    requires SelfDelimiting(a) && SelfDelimiting(c) && a + b == c + d
    ensures a == c && b == d
  {
    assert a[4..6] == (a + b)[4..6] == c[4..6];
    assert a == (a + b)[..|a|] && c == (c + d)[..|c|];
    assert b == (a + b)[|a|..] && d == (c + d)[|c|..];
  }

  /** Equal transcripts of two parties, one of which takes part under the key
      the other one names as its peer, are the same two hellos with the roles swapped. */
  lemma TranscriptsAgree(la: Metadata, ra: Metadata, lb: Metadata, rb: Metadata)
    requires Faithful(la) && Faithful(ra) && Faithful(lb) && Faithful(rb)
    requires lb.publicKey == ra.publicKey != la.publicKey
    requires Transcript(la, ra) == Transcript(lb, rb)
    ensures lb == ra && rb == la
  {
    hide Reading;
    var x, y := la.publicKey, ra.publicKey;
    GreaterExactlyOne(x, y);
    if Greater(x, y) {
      if Greater(lb.publicKey, rb.publicKey) {
        UniqueSplit(ra.wire, la.wire, rb.wire, lb.wire);
      } else {
        UniqueSplit(ra.wire, la.wire, lb.wire, rb.wire);
      }
    } else {
      if Greater(lb.publicKey, rb.publicKey) {
        UniqueSplit(la.wire, ra.wire, rb.wire, lb.wire);
      } else {
        UniqueSplit(la.wire, ra.wire, lb.wire, rb.wire);
      }
    }
  }

  /** The three things an honest key signs cannot be mistaken for one another. */
  lemma DomainsApart(local: Metadata, remote: Metadata, key: Octets)
    requires SelfDelimiting(local.wire) && SelfDelimiting(remote.wire) && |key| == KEY_SIZE
    ensures var data := CONFIRMATION_DOMAIN + Transcript(local, remote);
            data != key && data[..|HANDSHAKE_DOMAIN|] != HANDSHAKE_DOMAIN
  {
    var data := CONFIRMATION_DOMAIN + Transcript(local, remote);
    assert data[..|HANDSHAKE_DOMAIN|][5] == CONFIRMATION_DOMAIN[5];
  }

  /** Session j is the other end of session i: its node is the peer i names, it
      uses the same password, and each has received exactly the hello the other sent. */
  ghost predicate Partners(w: World, i: nat, j: nat) {
    && i in w.sessions && j in w.sessions
    && var s, t := w.sessions[i], w.sessions[j];
       && s.remote != None && t.remote != None
       && s.remote.value.publicKey == t.side.key && t.remote.value.publicKey == s.side.key
       && s.side.options.password == t.side.options.password
       && s.remote.value == t.local && t.remote.value == s.local
  }

  lemma AcceptedHasPartner(w: World, i: nat) returns (j: nat)
    requires Inv(w) && i in w.sessions && w.sessions[i].phase == Accepted
    requires w.sessions[i].remote.value.publicKey in w.honest
    ensures Partners(w, i, j)
  {
    hide Reading, Transcript;
    var s := w.sessions[i];
    var peer := s.remote.value.publicKey;
    var sig :| Verify(w.ledger, peer, ConfirmationDigest(s), sig);
    var x := Signed(peer, ConfirmationDigest(s), sig);
    assert Accounted(w, x);
    DomainsApart(s.local, s.remote.value, peer);
    j :| SignedIn(w, j, peer, ConfirmationDigest(s));
    var t := w.sessions[j];
    var a, b := Transcript(s.local, s.remote.value), Transcript(t.local, t.remote.value);
    assert (CONFIRMATION_DOMAIN + a)[|CONFIRMATION_DOMAIN|..] == a && (CONFIRMATION_DOMAIN + b)[|CONFIRMATION_DOMAIN|..] == b;
    TranscriptsAgree(s.local, s.remote.value, t.local, t.remote.value);
  }

  /** Partners are matched one to one, and see the same link priority. */
  lemma PartnersUnique(w: World, i: nat, j: nat)
    requires Inv(w) && Partners(w, i, j)
    ensures forall k | Partners(w, i, k) :: k == j
    ensures forall k | Partners(w, k, j) :: k == i
    ensures LinkPriority(w.sessions[i].side, w.sessions[i].remote.value) == LinkPriority(w.sessions[j].side, w.sessions[j].remote.value)
  {
    hide Faithful, Transcript;
    forall k | Partners(w, i, k) ensures k == j {
      assert w.sessions[k].local.nonce == w.sessions[j].local.nonce;
    }
    forall k | Partners(w, k, j) ensures k == i {
      assert w.sessions[k].local.nonce == w.sessions[i].local.nonce;
    }
    assert SessionOk(w, w.sessions[i]) && SessionOk(w, w.sessions[j]);
  }

  /** Session i has exactly one partner, which is nobody else's, and both ends see one priority. */
  ghost predicate HasOnePartner(w: World, i: nat) {
    exists j ::
      && Partners(w, i, j)
      && (forall k | Partners(w, i, k) :: k == j)
      && (forall k | Partners(w, k, j) :: k == i)
      && LinkPriority(w.sessions[i].side, w.sessions[i].remote.value)
         == LinkPriority(w.sessions[j].side, w.sessions[j].remote.value)
  }

  /** The world before anything happened. */
  function Start(honest: set<Octets>): World {
    World(honest, {}, map[])
  }

  /** On every run, against every adversary: a session that accepts the
      confirmation of an honest peer has exactly one partner session there, no
      other session has the same partner, and both ends compute the same link priority. */
  lemma AgreementOnEveryRun(honest: set<Octets>, es: seq<Event>, i: nat)
    requires (forall k | k in honest :: |k| == KEY_SIZE) && ValidRun(Start(honest), es)
    requires var w := Run(Start(honest), es);
             i in w.sessions && w.sessions[i].phase == Accepted && w.sessions[i].remote.Some?
             && w.sessions[i].remote.value.publicKey in honest
    ensures HasOnePartner(Run(Start(honest), es), i)
  {
    hide Enabled, Step, SessionOk, Accounted;
    RunKeepsInv(Start(honest), es);
    RunKeepsHonest(Start(honest), es);
    var w := Run(Start(honest), es);
    var j := AcceptedHasPartner(w, i);
    PartnersUnique(w, i, j);
  }

  // ----- connections

  /** The handler hands the connection over to this peer. */
  predicate ConnectedTo(s: Session, peer: Octets) {
    && Gate(s.side, peer) == None
    && match s.phase
       case Accepted => s.remote != None && s.remote.value.publicKey == peer
       case Unconfirmed(m) => m.publicKey == peer
       case _ => false
  }

  /** A peer taken without confirmation is one the handler hands the connection over to, or refuses only at its gate. */
  lemma UnconfirmedByHandler(w: World, id: nat, input: Octets, sig: Octets)
    requires id in w.sessions && OnHello(w, id, input, sig).sessions[id].phase.Unconfirmed? && w.sessions[id].phase == AwaitHello
    ensures var s := w.sessions[id];
            Handled(s.side, s.local, input, sig, w.ledger).verdict == Admit(s.side, OnHello(w, id, input, sig).sessions[id].phase.peer)
  {
    hide Decode, ConfirmationHash, Gate, Check;
  }

  /** On every run, against every adversary: a session that requires a secure
      handshake or runs over TLS, and is connected to an honest peer, has its one
      partner there. */
  lemma SecureConnectionsAgree(honest: set<Octets>, es: seq<Event>, i: nat, peer: Octets)
    requires (forall k | k in honest :: |k| == KEY_SIZE) && ValidRun(Start(honest), es) && peer in honest
    requires i in Run(Start(honest), es).sessions && ConnectedTo(Run(Start(honest), es).sessions[i], peer)
    requires Run(Start(honest), es).sessions[i].side.options.requireSecure || Run(Start(honest), es).sessions[i].side.transport.Tls?
    ensures HasOnePartner(Run(Start(honest), es), i)
  {
    hide Enabled, Step, Accounted, Faithful, Partners, LinkPriority;
    RunKeepsInv(Start(honest), es);
    RunKeepsHonest(Start(honest), es);
    assert SessionOk(Run(Start(honest), es), Run(Start(honest), es).sessions[i]);
    AgreementOnEveryRun(honest, es, i);
  }

  lemma {:induction false} RunKeepsHonest(w: World, es: seq<Event>)
    requires ValidRun(w, es)
    ensures Run(w, es).honest == w.honest
    decreases |es|
  {
    hide Enabled, Decode, ConfirmationHash, DecodeConfirmation;
    if es != [] {
      RunKeepsHonest(Step(w, es[0]), es[1..]);
    }
  }
}
