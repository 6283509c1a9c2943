/** The run of a peering handshake: the confirmation flight (src/core/version.go)
and the handler that drives both flights and the checks around them (src/core/link.go). */
module Handshake {
  import opened Constants
  import opened Octets
  import opened Crypto
  import opened Results
  import opened Hello
  import opened HelloCode
  import HelloLaws

  const CONFIRMATION_DOMAIN: Octets :=
    [0x55, 0x51, 0x44, 0x41, 0x2d, 0x43, 0x4f, 0x4e, 0x46, 0x49, 0x52, 0x4d, 0x2d, 0x56, 0x31, 0] // "UQDA-CONFIRM-V1\0"
  const CONFIRM: Octets := [0x63, 0x6f, 0x6e, 0x66]                                                // "conf"
  const CONFIRMATION_SIZE: nat := 68

  // ----- confirmations

  /** Both hellos, the one with the smaller key first. */
  function Transcript(local: Metadata, remote: Metadata): Octets {
    if Greater(local.publicKey, remote.publicKey) then remote.wire + local.wire else local.wire + remote.wire
  }

  function ConfirmationHash(password: Octets, local: Metadata, remote: Metadata): Option<Digest> {
    if local.wire == [] || remote.wire == [] then None
    else Blake2b(password, CONFIRMATION_DOMAIN + Transcript(local, remote))
  }

  function PrintConfirmation(sig: Octets): Octets {
    CONFIRM + sig
  }

  datatype Confirmed = Confirmed(err: Option<Error>, rest: Octets)

  /** What decodeConfirmation makes of a stream that holds `input` and then ends. */
  function DecodeConfirmation(input: Octets, publicKey: Octets, password: Octets,
                              local: Metadata, remote: Metadata, l: Ledger): Confirmed
  {
    if |publicKey| != KEY_SIZE then Confirmed(Some(InvalidConfirmation), input)
    else if |input| < CONFIRMATION_SIZE then Confirmed(Some(if input == [] then Eof else UnexpectedEof), [])
    else
      var rest := input[CONFIRMATION_SIZE..];
      if input[..4] != CONFIRM then Confirmed(Some(InvalidConfirmation), rest)
      else match ConfirmationHash(password, local, remote)
        case None => Confirmed(Some(InvalidConfirmation), rest)
        case Some(h) =>
          Confirmed(if Verify(l, publicKey, h, input[4..CONFIRMATION_SIZE]) then None else Some(InvalidConfirmation), rest)
  }

  // ----- the checks around the flights

  /** The transport below: plain, or TLS with the certificates the peer showed,
      each an Ed25519 key or some other kind. */
  datatype Transport = Plain | Tls(certificates: seq<Option<Octets>>)

  datatype Options = Options(password: Octets, priority: Octet, requireSecure: bool, pinned: set<Octets>)

  /** One side of a connection: its key and the settings that apply to it. */
  datatype Side = Side(
    key: Octets, options: Options, incoming: bool, local: bool, allowed: set<Octets>, transport: Transport)

  datatype Reason =
    | BadPassword | BadHello(error: Error) | IncompatibleVersion | ToSelf | BadConfirmation(error: Error)
    | NotSecure | WrongCertificate | NotPinned | NotAllowed | DeadlineFailed | WriteFailed

  function LocalMetadata(side: Side): Metadata {
    BLANK.(majorVer := VERSION_MAJOR, minorVer := VERSION_MINOR, publicKey := side.key, priority := side.options.priority)
  }

  /** The verdict on the peer's hello. */
  function JudgeHello(side: Side, d: Decoded): Option<Reason> {
    if d.err != None then Some(BadHello(d.err.value))
    else if !Check(d.m) then Some(IncompatibleVersion)
    else if d.m.publicKey == side.key then Some(ToSelf)
    else if !Supports(d.m) && side.options.requireSecure then Some(NotSecure)
    else None
  }

  predicate WrongTransport(side: Side, peer: Octets) {
    side.transport.Tls? && side.transport.certificates != [Some(peer)]
  }

  /** The transport identity, the pinned keys and the allow list, in that order. */
  function Gate(side: Side, peer: Octets): Option<Reason> {
    if WrongTransport(side, peer) then Some(WrongCertificate)
    else if side.options.pinned != {} && peer !in side.options.pinned then Some(NotPinned)
    else if !side.local && side.incoming && side.allowed != {} && peer !in side.allowed then Some(NotAllowed)
    else None
  }

  /** The priority the connection is handed over with. */
  function LinkPriority(side: Side, remote: Metadata): Octet {
    if remote.priority > side.options.priority then remote.priority else side.options.priority
  }

  datatype Verdict = Refused(reason: Reason) | Connected(peer: Octets, priority: Octet)

  /** What a handler does after sending its hello: what it writes, what it leaves unread, and how it ends. */
  datatype Outcome = Outcome(written: Octets, rest: Octets, verdict: Verdict)

  function Admit(side: Side, remote: Metadata): Verdict {
    match Gate(side, remote.publicKey)
    case Some(reason) => Refused(reason)
    case None => Connected(remote.publicKey, LinkPriority(side, remote))
  }

  /** The handler from its own hello on, given all the peer will ever send and the signature it will put on its confirmation. */
  function Handled(side: Side, local: Metadata, input: Octets, sig: Octets, l: Ledger): Outcome {
    var d := Decode(BLANK, input, side.options.password, l);
    match JudgeHello(side, d)
    case Some(reason) => Outcome([], d.rest, Refused(reason))
    case None =>
      if !Supports(d.m) then Outcome([], d.rest, Admit(side, d.m))
      else
        var c := DecodeConfirmation(d.rest, d.m.publicKey, side.options.password, local, d.m, l);
        var written := PrintConfirmation(sig);
        if c.err != None then Outcome(written, c.rest, Refused(BadConfirmation(c.err.value)))
        else Outcome(written, c.rest, Admit(side, d.m))
  }

  /** The peer's confirmation is there, of the right length and under the right
      signature over both hellos. */
  ghost predicate ConfirmationFollows(bs: Octets, key: Octets, password: Octets, local: Metadata, remote: Metadata, l: Ledger) {
    && |bs| >= 68 && bs[..4] == CONFIRM && ConfirmationHash(password, local, remote) != None
    && Verify(l, key, ConfirmationHash(password, local, remote).value, bs[4..68])
  }

  /** The handler connects to a key with a priority exactly if all of this
      holds: the peer's hello decodes, to that key, which is not the node's own,
      and to version 0.5; it offers confirmation with a nonce that is not zero and
      its confirmation follows, or offers none and none is required; TLS, if there
      is any, shows exactly that key; the key is pinned, or nothing is; the link is
      local or was dialled, or the allow list is empty or holds the key; and the
      priority is the greater of the two. */
  lemma ConnectedExactly(side: Side, local: Metadata, input: Octets, sig: Octets, l: Ledger, k: Octets, p: Octet)
    ensures var d := Decode(BLANK, input, side.options.password, l);
            var m := d.m;
            Handled(side, local, input, sig, l).verdict == Connected(k, p) <==>
              && d.err == None && m.publicKey == k && |k| == 32 && k != side.key && m.majorVer == 0 && m.minorVer == 5
              && (if m.capabilities % 2 == 1
                  then (exists i | 0 <= i < |m.nonce| :: m.nonce[i] != 0) && ConfirmationFollows(d.rest, k, side.options.password, local, m, l)
                  else !side.options.requireSecure)
              && (side.transport == Plain || side.transport == Tls([Some(k)]))
              && (side.options.pinned == {} || k in side.options.pinned)
              && (side.local || !side.incoming || side.allowed == {} || k in side.allowed)
              && p >= m.priority && p >= side.options.priority && (p == m.priority || p == side.options.priority)
  {
    hide Decode, ConfirmationHash;
    var d := Decode(BLANK, input, side.options.password, l);
    HelloLaws.DecodedNonce(input, side.options.password, l);
    NotZero(d.m.nonce);
    if d.err == None {
      ConfirmationExactly(d.rest, d.m.publicKey, side.options.password, local, d.m, l);
    }
  }

  /** What the handler writes and reads after its hello: a confirmation exactly
      after a hello that decodes, to version 0.5 and another key, and offers
      confirmation with a nonce that is not zero; then, and only then, it reads on
      for 68 bytes. It meets itself exactly if such a hello, or one that offers
      no confirmation, has its own key. */
  lemma HandlerExactly(side: Side, local: Metadata, input: Octets, sig: Octets, l: Ledger)
    ensures var d := Decode(BLANK, input, side.options.password, l);
            var m, o := d.m, Handled(side, local, input, sig, l);
            var offers := m.capabilities % 2 == 1;
            var good := && d.err == None && m.majorVer == 0 && m.minorVer == 5 && |m.publicKey| == 32
                        && (offers ==> exists i | 0 <= i < |m.nonce| :: m.nonce[i] != 0);
            && (o.verdict == Refused(ToSelf) <==> good && m.publicKey == side.key)
            && (if good && m.publicKey != side.key && offers
                then o.written == [0x63, 0x6f, 0x6e, 0x66] + sig && o.rest == if |d.rest| >= 68 then d.rest[68..] else []
                else o.written == [] && o.rest == d.rest)
  {
    hide Decode, ConfirmationHash;
    var d := Decode(BLANK, input, side.options.password, l);
    HelloLaws.DecodedNonce(input, side.options.password, l);
    NotZero(d.m.nonce);
  }

  lemma NotZero(nonce: Octets)
    requires |nonce| == NONCE_SIZE
    ensures nonce != Zeros(NONCE_SIZE) <==> exists i | 0 <= i < |nonce| :: nonce[i] != 0
  {
    if nonce != Zeros(NONCE_SIZE) {
      assert exists i | 0 <= i < |nonce| :: nonce[i] != Zeros(NONCE_SIZE)[i];
    }
  }

  /** decodeConfirmation accepts exactly that. */
  lemma ConfirmationExactly(bs: Octets, key: Octets, password: Octets, local: Metadata, remote: Metadata, l: Ledger)
    ensures DecodeConfirmation(bs, key, password, local, remote, l).err == None <==>
            |key| == 32 && ConfirmationFollows(bs, key, password, local, remote, l)
  {
    hide ConfirmationHash;
  }

  // ----- connections that fail

  /** What may go wrong below the handler: setting or clearing the deadline, and
      writing the hello or the confirmation, of which then only some bytes get out. */
  datatype Faults = Faults(setDeadline: bool, hello: Option<nat>, confirmation: Option<nat>, clearDeadline: bool)

  const FAULTLESS := Faults(false, None, None, false)

  function Cut(bs: Octets, n: nat): Octets {
    if n < |bs| then bs[..n] else bs
  }

  /** The whole handler on such a connection, its own hello included; and whether it closes the connection itself. */
  function HandledWith(side: Side, local: Metadata, input: Octets, sig: Octets, l: Ledger, f: Faults): (Outcome, bool) {
    if f.setDeadline then (Outcome([], input, Refused(DeadlineFailed)), false)
    else if f.hello != None then (Outcome(Cut(local.wire, f.hello.value), input, Refused(WriteFailed)), false)
    else
      var (o, closed) := ConversedWith(side, local, input, sig, l, f);
      (o.(written := local.wire + o.written), closed)
  }

  function ConversedWith(side: Side, local: Metadata, input: Octets, sig: Octets, l: Ledger, f: Faults): (Outcome, bool) {
    var d := Decode(BLANK, input, side.options.password, l);
    var o := Handled(side, local, input, sig, l);
    if d.err != None then (o, true)
    else if JudgeHello(side, d) != None then (o, false)
    else if Supports(d.m) && f.confirmation != None then
      (Outcome(Cut(PrintConfirmation(sig), f.confirmation.value), d.rest, Refused(WriteFailed)), false)
    else if Supports(d.m) && DecodeConfirmation(d.rest, d.m.publicKey, side.options.password, local, d.m, l).err != None then (o, false)
    else if f.clearDeadline && !WrongTransport(side, d.m.publicKey) then (o.(verdict := Refused(DeadlineFailed)), false)
    else (o, false)
  }

  function Least(x: nat, y: nat): nat {
    if x < y then x else y
  }

  /** Faults only ever refuse: a connection that comes about in spite of them is
      the one that comes about without, and one comes about exactly if it would
      without and nothing fails on the way; what is written is a beginning of
      what would be. The handler closes the connection itself exactly after a bad hello. */
  lemma FaultsOnlyRefuse(side: Side, local: Metadata, input: Octets, sig: Octets, l: Ledger, f: Faults)
    ensures var (o, closed) := HandledWith(side, local, input, sig, l, f);
            var clean := Handled(side, local, input, sig, l);
            && (o.verdict.Connected? ==> o == clean.(written := local.wire + clean.written))
            && o.written <= local.wire + clean.written
            && (closed <==> o.verdict.Refused? && o.verdict.reason.BadHello?)
            && (f == FAULTLESS ==> o == clean.(written := local.wire + clean.written))
            && (o.verdict.Connected? <==>
                  && clean.verdict.Connected? && !f.setDeadline && f.hello == None && !f.clearDeadline
                  && (Supports(Decode(BLANK, input, side.options.password, l).m) ==> f.confirmation == None))
            && (f.setDeadline ==> o.written == [] && o.rest == input)
            && (!f.setDeadline && f.hello != None ==> o.rest == input && |o.written| == Least(f.hello.value, |local.wire|))
  {
    hide Decode, DecodeConfirmation, PrintConfirmation;
    var c := PrintConfirmation(sig);
    if f.hello != None {
      assert Cut(local.wire, f.hello.value) <= local.wire;
    } else if f.confirmation != None {
      assert local.wire + Cut(c, f.confirmation.value) <= local.wire + c;
    }
  }

  /** A connection: what is still to be read, what has been written, and whether this side has closed it. */
  class Connection {
    const reader: Reader
    var written: Octets
    var closed: bool

    constructor (input: Octets)
      ensures reader.data == input && written == [] && !closed && fresh(reader)
    {
      reader := new Reader(input);
      written, closed := [], false;
    }

    /** Write: all of it, or on a fault only so many bytes. */
    method Write(bs: Octets, fault: Option<nat>) returns (ok: bool)
      modifies this`written
      ensures ok == (fault == None) && written == old(written) + if ok then bs else Cut(bs, fault.value)
    {
      match fault {
        case None =>
          written := written + bs;
          ok := true;
        case Some(n) =>
          written := written + Cut(bs, n);
          ok := false;
      }
    }
  }

  /** decodeConfirmation on a reader. */
  method ReadConfirmation(r: Reader, publicKey: Octets, password: Octets, local: Metadata, remote: Metadata, l: Ledger)
    returns (err: Option<Error>)
    modifies r
    ensures var c := DecodeConfirmation(old(r.data), publicKey, password, local, remote, l);
            err == c.err && r.data == c.rest
  {
    if |publicKey| != KEY_SIZE {
      return Some(InvalidConfirmation);
    }
    ghost var input := r.data;
    var e, bs := r.ReadFull(CONFIRMATION_SIZE);
    if e != None {
      return e;
    }
    assert bs[..4] == input[..4] && bs[4..] == input[4..CONFIRMATION_SIZE];
    if bs[..4] != CONFIRM {
      return Some(InvalidConfirmation);
    }
    var hash := ConfirmationHash(password, local, remote);
    if hash == None {
      return Some(InvalidConfirmation);
    }
    return if Verify(l, publicKey, hash.value, bs[4..]) then None else Some(InvalidConfirmation);
  }

  /** What the private key signs when the peer's hello is `remote`; nothing if there is nothing to confirm. */
  function ConfirmationSignature(sign: Digest -> Octets, password: Octets, local: Metadata, remote: Metadata): Octets {
    match ConfirmationHash(password, local, remote)
    case None => []
    case Some(h) => sign(h)
  }

  /** The handler once its own hello is written: read the peer's, judge it, exchange confirmations, and pass the gate. */
  method Converse(side: Side, conn: Connection, local: Metadata, sign: Digest -> Octets, faults: Faults, l: Ledger)
    returns (verdict: Verdict)
    requires |side.options.password| <= MAX_PASSWORD && local.wire != []
    modifies conn, conn.reader
    ensures var remote := Decode(BLANK, old(conn.reader.data), side.options.password, l).m;
            var sig := ConfirmationSignature(sign, side.options.password, local, remote);
            var (o, closed) := ConversedWith(side, local, old(conn.reader.data), sig, l, faults);
            && verdict == o.verdict && conn.reader.data == o.rest && conn.written == old(conn.written) + o.written
            && conn.closed == (old(conn.closed) || closed)
  {
    hide Decode, DecodeConfirmation, Gate, Check, WrongTransport, PrintConfirmation;
    var remoteMeta := new VersionMetadata.Blank();
    var err := remoteMeta.Decode(conn.reader, side.options.password, l);
    var remote := remoteMeta.View();
    if err != None {
      conn.closed := true;
      return Refused(BadHello(err.value));
    }
    if !Check(remote) {
      return Refused(IncompatibleVersion);
    }
    if remote.publicKey == side.key {
      return Refused(ToSelf);
    }
    if Supports(remote) {
      var hash := ConfirmationHash(side.options.password, local, remote);
      ConfirmationPossible(side, local, old(conn.reader.data), l);
      var sent := conn.Write(PrintConfirmation(sign(hash.value)), faults.confirmation);
      if !sent {
        return Refused(WriteFailed);
      }
      var e := ReadConfirmation(conn.reader, remote.publicKey, side.options.password, local, remote, l);
      if e != None {
        return Refused(BadConfirmation(e.value));
      }
    } else if side.options.requireSecure {
      return Refused(NotSecure);
    }
    verdict := PassGate(side, remote, faults);
  }

  /** The transport identity, then the deadline is cleared, then the pins and the allow list. */
  method PassGate(side: Side, remote: Metadata, faults: Faults) returns (verdict: Verdict)
    ensures verdict == if faults.clearDeadline && !WrongTransport(side, remote.publicKey) then Refused(DeadlineFailed) else Admit(side, remote)
  {
    if WrongTransport(side, remote.publicKey) {
      return Refused(WrongCertificate);
    }
    if faults.clearDeadline {
      return Refused(DeadlineFailed);
    }
    if side.options.pinned != {} && remote.publicKey !in side.options.pinned {
      return Refused(NotPinned);
    }
    if !side.local {
      var isallowed := side.allowed == {} || remote.publicKey in side.allowed;
      if side.incoming && !isallowed {
        return Refused(NotAllowed);
      }
    }
    return Connected(remote.publicKey, LinkPriority(side, remote));
  }

  /** The metadata and bytes of a node's own hello. */
  function LocalHello(side: Side, sign: Digest -> Octets, random: Octets): (e: Metadata)
    requires |side.key| == KEY_SIZE && |random| == NONCE_SIZE && |side.options.password| <= MAX_PASSWORD
    requires forall d :: |sign(d)| == SIGNATURE_SIZE
  {
    var m := LocalMetadata(side).(nonce := random, capabilities := CAPABILITY_CONFIRMATION);
    Encoded(LocalMetadata(side), random,
            sign(HandshakeHash(side.options.password, PrintFields(SignedFields(m))).value),
            sign(LegacyHash(side.options.password, side.key).value))
  }

  /** The handler up to the point where the connection is handed over. */
  method Handler(side: Side, conn: Connection, sign: Digest -> Octets, random: Octets, faults: Faults, l: Ledger)
    returns (verdict: Verdict)
    requires |side.key| == KEY_SIZE && |random| == NONCE_SIZE && forall d :: |sign(d)| == SIGNATURE_SIZE
    modifies conn, conn.reader
    ensures |side.options.password| > MAX_PASSWORD ==>
              && verdict == Refused(BadPassword) && conn.written == old(conn.written) && conn.reader.data == old(conn.reader.data)
              && conn.closed == old(conn.closed)
    ensures |side.options.password| <= MAX_PASSWORD ==>
              var local := LocalHello(side, sign, random);
              var remote := Decode(BLANK, old(conn.reader.data), side.options.password, l).m;
              var sig := ConfirmationSignature(sign, side.options.password, local, remote);
              var (o, closed) := HandledWith(side, local, old(conn.reader.data), sig, l, faults);
              && verdict == o.verdict && conn.reader.data == o.rest && conn.written == old(conn.written) + o.written
              && conn.closed == (old(conn.closed) || closed)
  {
    hide Decode, PrintFields, SignedFields, HandledWith, ConfirmationSignature;
    var localMeta := new VersionMetadata.Blank();
    localMeta.majorVer, localMeta.minorVer := VERSION_MAJOR, VERSION_MINOR;
    localMeta.publicKey, localMeta.priority := side.key, side.options.priority;
    assert localMeta.View() == LocalMetadata(side);
    var metaBytes := localMeta.Encode(sign, random, side.options.password);
    if metaBytes == None {
      return Refused(BadPassword);
    }
    verdict := Greet(side, conn, localMeta.View(), sign, faults, l);
  }

  /** The handler once its own hello is made. */
  method Greet(side: Side, conn: Connection, local: Metadata, sign: Digest -> Octets, faults: Faults, l: Ledger)
    returns (verdict: Verdict)
    requires |side.options.password| <= MAX_PASSWORD && local.wire != []
    modifies conn, conn.reader
    ensures var remote := Decode(BLANK, old(conn.reader.data), side.options.password, l).m;
            var sig := ConfirmationSignature(sign, side.options.password, local, remote);
            var (o, closed) := HandledWith(side, local, old(conn.reader.data), sig, l, faults);
            && verdict == o.verdict && conn.reader.data == o.rest && conn.written == old(conn.written) + o.written
            && conn.closed == (old(conn.closed) || closed)
  {
    hide Decode, ConversedWith, ConfirmationSignature;
    if faults.setDeadline {
      return Refused(DeadlineFailed);
    }
    var sent := conn.Write(local.wire, faults.hello);
    if !sent {
      return Refused(WriteFailed);
    }
    verdict := Converse(side, conn, local, sign, faults, l);
  }

  /** Once both hellos are there, the confirmation hash cannot fail. */
  lemma ConfirmationPossible(side: Side, local: Metadata, input: Octets, l: Ledger)
    requires |side.options.password| <= MAX_PASSWORD && local.wire != []
    requires Decode(BLANK, input, side.options.password, l).err == None
    ensures ConfirmationHash(side.options.password, local, Decode(BLANK, input, side.options.password, l).m) != None
  {
    HelloLaws.DecodeAccepts(input, side.options.password, l);
  }
}
