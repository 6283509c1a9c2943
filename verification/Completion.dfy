/** Two honest current nodes meet: whatever the interleaving and however the
transport cuts their bytes, both handlers of src/core/link.go run to the end. */
module Completion {
  import opened Constants
  import opened Octets
  import opened Crypto
  import opened Results
  import opened Hello
  import opened HelloLaws
  import opened Handshake

  // ----- one end of a connection

  /** Where the handler stands: before its hello, in one of its blocking reads,
      before its confirmation, or at the point where it hands over or gives up. */
  datatype Phase =
    | Start
    | Head
    | Body(head: Octets)
    | Confirming(remote: Metadata)
    | Confirmation(remote: Metadata)
    | Ended(verdict: Verdict)

  /** `acc` is what the current read has so far; `read` and `sent` are everything ever taken from and put on the wire. */
  datatype Endpoint = Endpoint(phase: Phase, acc: Octets, read: Octets, sent: Octets)

  const INITIAL := Endpoint(Start, [], [], [])

  /** A node's settings, its hello, and the signature its confirmation will carry. */
  datatype Party = Party(side: Side, local: Metadata, sig: Octets)

  /** Everything a party sends before traffic. */
  function Stream(p: Party): Octets {
    p.local.wire + PrintConfirmation(p.sig)
  }

  /** How many bytes the current read asks for. */
  function Needed(x: Endpoint): nat {
    match x.phase
    case Head => 6
    case Body(head) => if |head| == 6 then GetU16(head[4..6]) else 0
    case Confirmation(_) => CONFIRMATION_SIZE
    case _ => 0
  }

  function End(x: Endpoint, v: Verdict): Endpoint {
    x.(phase := Ended(v), acc := [])
  }

  /** A read is complete: act on it. */
  function Complete(p: Party, x: Endpoint, l: Ledger): Endpoint {
    match x.phase
    case Head =>
      if |x.acc| != 6 then x
      else if x.acc[..4] != PREAMBLE then End(x, Refused(BadHello(InvalidPreamble)))
      else if GetU16(x.acc[4..6]) < SIGNATURE_SIZE then End(x, Refused(BadHello(InvalidLength)))
      else x.(phase := Body(x.acc), acc := [])
    case Body(head) =>
      var d := Decode(BLANK, head + x.acc, p.side.options.password, l);
      (match JudgeHello(p.side, d)
       case Some(reason) => End(x, Refused(reason))
       case None => if Supports(d.m) then x.(phase := Confirming(d.m), acc := []) else End(x, Admit(p.side, d.m)))
    case Confirmation(remote) =>
      var c := DecodeConfirmation(x.acc, remote.publicKey, p.side.options.password, p.local, remote, l);
      if c.err != None then End(x, Refused(BadConfirmation(c.err.value))) else End(x, Admit(p.side, remote))
    case _ => x
  }

  /** Some bytes arrive for the current read. */
  function Receive(p: Party, x: Endpoint, bs: Octets, l: Ledger): Endpoint {
    var x' := x.(acc := x.acc + bs, read := x.read + bs);
    if |x'.acc| == Needed(x) then Complete(p, x', l) else x'
  }

  predicate Writing(x: Endpoint) {
    x.phase.Start? || x.phase.Confirming?
  }

  function Write(p: Party, x: Endpoint): Endpoint
    requires Writing(x)
  {
    match x.phase
    case Start => x.(phase := Head, sent := x.sent + p.local.wire)
    case Confirming(remote) => x.(phase := Confirmation(remote), sent := x.sent + PrintConfirmation(p.sig))
  }

  // ----- however the bytes are cut, one end does what the handler does on the whole stream

  /** One end on its own, against any peer: it writes when it has to and otherwise takes some bytes. */
  datatype Move = Send | Take(bs: Octets)

  predicate MoveEnabled(x: Endpoint, m: Move) {
    match m
    case Send => Writing(x)
    case Take(bs) => 0 < |bs| && |x.acc| + |bs| <= Needed(x)
  }

  function MoveOn(p: Party, x: Endpoint, m: Move, l: Ledger): Endpoint
    requires MoveEnabled(x, m)
  {
    match m
    case Send => Write(p, x)
    case Take(bs) => Receive(p, x, bs, l)
  }

  ghost predicate ValidMoves(p: Party, x: Endpoint, ms: seq<Move>, l: Ledger)
    decreases |ms|
  {
    ms == [] || (MoveEnabled(x, ms[0]) && ValidMoves(p, MoveOn(p, x, ms[0], l), ms[1..], l))
  }

  ghost function Moved(p: Party, x: Endpoint, ms: seq<Move>, l: Ledger): Endpoint
    requires ValidMoves(p, x, ms, l)
    decreases |ms|
  {
    if ms == [] then x else Moved(p, MoveOn(p, x, ms[0], l), ms[1..], l)
  }

  /** A head that promises a body. */
  predicate GoodHead(head: Octets) {
    |head| == 6 && head[..4] == PREAMBLE && GetU16(head[4..6]) >= SIGNATURE_SIZE
  }

  /** The decoder looks no further than the message it reads. */
  lemma DecodeLooksNoFurther(w: Octets, rest: Octets, password: Octets, l: Ledger)
    requires |w| >= 6
    requires if GoodHead(w[..6]) then |w| == 6 + GetU16(w[4..6]) else |w| == 6
    ensures var d := Decode(BLANK, w, password, l);
            d.rest == [] && Decode(BLANK, w + rest, password, l) == d.(rest := rest)
    ensures Decode(BLANK, w, password, l).err == None ==> GoodHead(w[..6]) && Decode(BLANK, w, password, l).m.wire == w
  {
    hide ParseFields, Authenticate;
    var input := w + rest;
    assert w[..6][..4] == w[..4] == input[..4] && w[..6][4..6] == w[4..6] == input[4..6];
    if GoodHead(w[..6]) {
      var hl := GetU16(w[4..6]);
      assert input[..6 + hl] == w == w[..6 + hl] && input[6..6 + hl] == w[6..6 + hl] && input[6 + hl..] == rest;
      ParseKeepsWire(BLANK.(wire := w), [], w[6..6 + hl][..hl - SIGNATURE_SIZE], None);
    } else {
      assert input[6..] == rest;
    }
  }

  /** This end has taken in the peer's hello and found nothing wrong with it. */
  ghost predicate HelloTaken(p: Party, remote: Metadata, l: Ledger) {
    && |remote.wire| >= 6 && GoodHead(remote.wire[..6]) && |remote.wire| == 6 + GetU16(remote.wire[4..6])
    && Decode(BLANK, remote.wire, p.side.options.password, l) == Decoded(None, remote, [])
    && JudgeHello(p.side, Decoded(None, remote, [])) == None && Supports(remote)
  }

  /** How one end stands against any peer. */
  ghost predicate Solo(p: Party, x: Endpoint, l: Ledger) {
    match x.phase
    case Start => x.acc == x.read == x.sent == []
    case Head => x.acc == x.read && |x.acc| < 6 && x.sent == p.local.wire
    case Body(head) => GoodHead(head) && x.read == head + x.acc && |x.acc| < Needed(x) && x.sent == p.local.wire
    case Confirming(remote) => HelloTaken(p, remote, l) && x.read == remote.wire && x.acc == [] && x.sent == p.local.wire
    case Confirmation(remote) =>
      && HelloTaken(p, remote, l) && x.read == remote.wire + x.acc && |x.acc| < CONFIRMATION_SIZE && x.sent == Stream(p)
    case Ended(v) => Sequential(p, x, l)
  }

  /** The handler, run on what this end has read and anything after it, ends the
      same way, leaves exactly the rest unread, and has written the same bytes. */
  ghost predicate Sequential(p: Party, x: Endpoint, l: Ledger) {
    x.phase.Ended? && forall rest :: SequentialOn(p, x, rest, l)
  }

  predicate SequentialOn(p: Party, x: Endpoint, rest: Octets, l: Ledger)
    requires x.phase.Ended?
  {
    var o := Handled(p.side, p.local, x.read + rest, p.sig, l);
    o.verdict == x.phase.verdict && o.rest == rest && x.sent == p.local.wire + o.written
  }

  lemma HeadKeepsSolo(p: Party, x: Endpoint, l: Ledger)
    requires x.phase.Head? && x.acc == x.read && |x.acc| == 6 && x.sent == p.local.wire
    ensures Solo(p, Complete(p, x, l), l)
  {
    hide Handled, Decode;
    var y := Complete(p, x, l);
    if y.phase.Ended? {
      forall rest ensures SequentialOn(p, y, rest, l) {
        BadHeadRefused(p, x.read, rest, l);
      }
    }
  }

  lemma BadHeadRefused(p: Party, head: Octets, rest: Octets, l: Ledger)
    requires |head| == 6 && !GoodHead(head)
    ensures Handled(p.side, p.local, head + rest, p.sig, l) ==
            Outcome([], rest, Refused(BadHello(if head[..4] != PREAMBLE then InvalidPreamble else InvalidLength)))
  {
    var input := head + rest;
    assert input[..4] == head[..4] && input[4..6] == head[4..6] && input[6..] == rest;
  }

  lemma BodyKeepsSolo(p: Party, x: Endpoint, l: Ledger)
    requires x.phase.Body? && GoodHead(x.phase.head) && x.read == x.phase.head + x.acc && |x.acc| == Needed(x)
    requires x.sent == p.local.wire
    ensures Solo(p, Complete(p, x, l), l)
  {
    hide Decode, Check, Supports, Admit, GetU16;
    var w := x.read;
    assert w[..6] == x.phase.head && w[4..6] == x.phase.head[4..6];
    DecodeLooksNoFurther(w, [], p.side.options.password, l);
    var y := Complete(p, x, l);
    if y.phase.Ended? {
      forall rest ensures SequentialOn(p, y, rest, l) {
        DecodeLooksNoFurther(w, rest, p.side.options.password, l);
        JudgeIgnoresRest(p.side, Decode(BLANK, w, p.side.options.password, l), rest);
      }
    }
  }

  lemma JudgeIgnoresRest(side: Side, d: Decoded, rest: Octets)
    ensures JudgeHello(side, d.(rest := rest)) == JudgeHello(side, d)
  {
  }

  lemma ConfirmationKeepsSolo(p: Party, x: Endpoint, l: Ledger)
    requires x.phase.Confirmation? && HelloTaken(p, x.phase.remote, l) && x.read == x.phase.remote.wire + x.acc
    requires |x.acc| == CONFIRMATION_SIZE && x.sent == Stream(p)
    ensures Solo(p, Complete(p, x, l), l)
  {
    hide Decode, JudgeHello, Supports, Admit, DecodeConfirmation, GetU16;
    var remote := x.phase.remote;
    var y := Complete(p, x, l);
    forall rest ensures SequentialOn(p, y, rest, l) {
      assert x.read + rest == remote.wire + (x.acc + rest);
      DecodeLooksNoFurther(remote.wire, x.acc + rest, p.side.options.password, l);
      JudgeIgnoresRest(p.side, Decoded(None, remote, []), x.acc + rest);
      ConfirmationLooksNoFurther(x.acc, rest, remote.publicKey, p.side.options.password, p.local, remote, l);
      KeyTaken(p, remote, l);
    }
  }

  lemma KeyTaken(p: Party, remote: Metadata, l: Ledger)
    requires HelloTaken(p, remote, l)
    ensures |remote.publicKey| == KEY_SIZE
  {
    DecodeAccepts(remote.wire, p.side.options.password, l);
  }

  lemma ConfirmationLooksNoFurther(bs: Octets, rest: Octets, key: Octets, password: Octets, local: Metadata, remote: Metadata, l: Ledger)
    requires |bs| == CONFIRMATION_SIZE
    ensures var c := DecodeConfirmation(bs, key, password, local, remote, l);
            |key| == KEY_SIZE ==> DecodeConfirmation(bs + rest, key, password, local, remote, l) == c.(rest := rest)
  {
    var input := bs + rest;
    assert input[..4] == bs[..4] && input[4..CONFIRMATION_SIZE] == bs[4..CONFIRMATION_SIZE] && input[CONFIRMATION_SIZE..] == rest;
  }

  lemma MoveKeepsSolo(p: Party, x: Endpoint, m: Move, l: Ledger)
    requires Solo(p, x, l) && MoveEnabled(x, m)
    ensures Solo(p, MoveOn(p, x, m, l), l)
  {
    hide HelloTaken, Sequential, Complete, GoodHead;
    if m.Take? {
      var x' := x.(acc := x.acc + m.bs, read := x.read + m.bs);
      if |x'.acc| == Needed(x) {
        match x.phase
        case Head => HeadKeepsSolo(p, x', l);
        case Body(head) => BodyKeepsSolo(p, x', l);
        case Confirmation(remote) => ConfirmationKeepsSolo(p, x', l);
      }
    }
  }

  lemma {:induction false} MovesKeepSolo(p: Party, x: Endpoint, ms: seq<Move>, l: Ledger)
    requires Solo(p, x, l) && ValidMoves(p, x, ms, l)
    ensures Solo(p, Moved(p, x, ms, l), l)
    decreases |ms|
  {
    hide Solo, MoveEnabled, MoveOn;
    if ms != [] {
      MoveKeepsSolo(p, x, ms[0], l);
      MovesKeepSolo(p, MoveOn(p, x, ms[0], l), ms[1..], l);
    }
  }

  /** Against every peer, honest or not, and for every way of cutting its bytes:
      an end that is done has done what the handler does on the whole stream. */
  lemma FragmentationIrrelevant(p: Party, ms: seq<Move>, l: Ledger, rest: Octets)
    requires ValidMoves(p, INITIAL, ms, l) && Moved(p, INITIAL, ms, l).phase.Ended?
    ensures var x := Moved(p, INITIAL, ms, l);
            var o := Handled(p.side, p.local, x.read + rest, p.sig, l);
            o.verdict == x.phase.verdict && o.rest == rest && x.sent == p.local.wire + o.written
  {
    hide ValidMoves, Moved, Handled;
    MovesKeepSolo(p, INITIAL, ms, l);
    assert SequentialOn(p, Moved(p, INITIAL, ms, l), rest, l);
  }

  // ----- both ends

  datatype System = System(left: Endpoint, right: Endpoint)

  datatype Pair = Pair(left: Party, right: Party, ledger: Ledger)

  datatype Event = WriteStep(left: bool) | ReceiveStep(left: bool, count: nat) | TrafficStep(left: bool, data: Octets)

  function Own(s: System, left: bool): Endpoint { if left then s.left else s.right }
  function Other(s: System, left: bool): Endpoint { Own(s, !left) }
  function With(s: System, left: bool, x: Endpoint): System { if left then s.(left := x) else s.(right := x) }
  function PartyOf(c: Pair, left: bool): Party { if left then c.left else c.right }

  /** Bytes on their way to this end. */
  function InFlight(s: System, left: bool): nat {
    var have, read := |Other(s, left).sent|, |Own(s, left).read|;
    if have < read then 0 else have - read
  }

  predicate Enabled(s: System, e: Event) {
    match e
    case WriteStep(left) => Writing(Own(s, left))
    case ReceiveStep(left, n) => 0 < n <= InFlight(s, left) && |Own(s, left).acc| + n <= Needed(Own(s, left))
    case TrafficStep(left, _) => Own(s, left).phase.Ended? && Own(s, left).phase.verdict.Connected?
  }

  function Step(c: Pair, s: System, e: Event): System
    requires Enabled(s, e)
  {
    match e
    case WriteStep(left) => With(s, left, Write(PartyOf(c, left), Own(s, left)))
    case ReceiveStep(left, n) =>
      var x, from := Own(s, left), |Own(s, left).read|;
      With(s, left, Receive(PartyOf(c, left), x, Other(s, left).sent[from..from + n], c.ledger))
    case TrafficStep(left, data) => With(s, left, Own(s, left).(sent := Own(s, left).sent + data))
  }

  ghost predicate ValidRun(c: Pair, s: System, es: seq<Event>)
    decreases |es|
  {
    es == [] || (Enabled(s, es[0]) && ValidRun(c, Step(c, s, es[0]), es[1..]))
  }

  ghost function Run(c: Pair, s: System, es: seq<Event>): System
    requires ValidRun(c, s, es)
    decreases |es|
  {
    if es == [] then s else Run(c, Step(c, s, es[0]), es[1..])
  }

  // ----- honest pairs

  /** A current node's hello, signed by its key. */
  ghost predicate Greets(p: Party, l: Ledger) {
    && |p.side.key| == KEY_SIZE && |p.side.options.password| <= MAX_PASSWORD && |p.sig| == SIGNATURE_SIZE
    && exists nonce, ts, ls :: GreetsWith(p, l, nonce, ts, ls)
  }

  ghost predicate GreetsWith(p: Party, l: Ledger, nonce: Octets, ts: Octets, ls: Octets)
    requires |p.side.key| == KEY_SIZE && |p.side.options.password| <= MAX_PASSWORD
  {
    && |nonce| == NONCE_SIZE && nonce != Zeros(NONCE_SIZE) && |ts| == |ls| == SIGNATURE_SIZE
    && p.local == Encoded(LocalMetadata(p.side), nonce, ts, ls)
    && SignedBy(l, p.local, ls, p.side.options.password)
  }

  /** Two current nodes with different keys and one password; each confirmation is signed by its sender's key. */
  ghost predicate Honest(c: Pair) {
    && Ideal(c.ledger) && Greets(c.left, c.ledger) && Greets(c.right, c.ledger)
    && c.left.side.key != c.right.side.key && c.left.side.options.password == c.right.side.options.password
    && Confirms(c.left, c.right, c.ledger) && Confirms(c.right, c.left, c.ledger)
  }

  predicate Confirms(p: Party, q: Party, l: Ledger) {
    var h := ConfirmationHash(p.side.options.password, p.local, q.local);
    h == None || Verify(l, p.side.key, h.value, p.sig)
  }

  /** What two honest nodes know of each other's hello. */
  ghost predicate Reads(p: Party, q: Party, l: Ledger) {
    && |q.local.wire| == HELLO_SIZE && |q.sig| == SIGNATURE_SIZE && |Stream(q)| == HELLO_SIZE + CONFIRMATION_SIZE
    && q.local.wire[..4] == PREAMBLE && GetU16(q.local.wire[4..6]) == HELLO_SIZE - 6
    && Decode(BLANK, q.local.wire, p.side.options.password, l) == Decoded(None, q.local, [])
    && JudgeHello(p.side, Decoded(None, q.local, [])) == None && Supports(q.local)
    && DecodeConfirmation(PrintConfirmation(q.sig), q.local.publicKey, p.side.options.password, p.local, q.local, l).err == None
    && q.local.priority == q.side.options.priority && q.local.publicKey == q.side.key
  }

  lemma TranscriptSymmetric(m: Metadata, n: Metadata)
    requires m.publicKey != n.publicKey
    ensures Transcript(m, n) == Transcript(n, m)
  {
    GreaterExactlyOne(m.publicKey, n.publicKey);
  }

  lemma HelloRead(p: Party, q: Party, l: Ledger)
    requires Ideal(l) && Greets(q, l) && p.side.key != q.side.key && p.side.options.password == q.side.options.password
    ensures |q.local.wire| == HELLO_SIZE && q.local.wire[..4] == PREAMBLE && GetU16(q.local.wire[4..6]) == HELLO_SIZE - 6
    ensures Decode(BLANK, q.local.wire, p.side.options.password, l) == Decoded(None, q.local, [])
    ensures JudgeHello(p.side, Decoded(None, q.local, [])) == None && Supports(q.local)
    ensures q.local.priority == q.side.options.priority && q.local.publicKey == q.side.key
  {
    hide ParseFields, PrintFields, Decode, SignedBy;
    var nonce, ts, ls :| GreetsWith(q, l, nonce, ts, ls);
    HelloRoundTrip(LocalMetadata(q.side), nonce, ts, ls, [], q.side.options.password, p.side.options.password, l);
    PrintSizes(q.local);
    FrameParts(PrintFields(HelloFields(q.local)), ls, []);
    assert q.local.wire + [] == q.local.wire;
  }

  lemma HonestReads(p: Party, q: Party, l: Ledger)
    requires Ideal(l) && Greets(p, l) && Greets(q, l) && p.side.key != q.side.key
    requires p.side.options.password == q.side.options.password && Confirms(q, p, l)
    ensures Reads(p, q, l)
  {
    hide Greets, Decode, Transcript, JudgeHello;
    HelloRead(p, q, l);
    HelloRead(q, p, l);
    TranscriptSymmetric(p.local, q.local);
    var bs := PrintConfirmation(q.sig);
    SignatureLength(p, l);
    SignatureLength(q, l);
    assert bs[..4] == CONFIRM && bs[4..CONFIRMATION_SIZE] == q.sig;
  }

  lemma SignatureLength(q: Party, l: Ledger)
    requires Greets(q, l)
    ensures |q.sig| == SIGNATURE_SIZE && |q.side.options.password| <= MAX_PASSWORD && |q.side.key| == KEY_SIZE
  {
  }

  // ----- invariant

  /** Where in the peer's stream the current read began. */
  function Base(x: Endpoint): nat {
    match x.phase
    case Body(_) => 6
    case Confirmation(_) => HELLO_SIZE
    case _ => 0
  }

  /** How one honest end stands: exactly what it has sent and consumed at each point. */
  ghost predicate Track(p: Party, q: Party, x: Endpoint) {
    && |x.read| <= |Stream(q)| && x.read == Stream(q)[..|x.read|]
    && (x.phase.Head? || x.phase.Body? || x.phase.Confirmation? ==>
          Base(x) <= |x.read| < Base(x) + Needed(x) && x.acc == x.read[Base(x)..])
    && match x.phase
       case Start => x.sent == [] && x.read == [] && x.acc == []
       case Head => x.sent == p.local.wire
       case Body(head) => x.sent == p.local.wire && head == Stream(q)[..6]
       case Confirming(remote) => x.sent == p.local.wire && remote == q.local && |x.read| == HELLO_SIZE && x.acc == []
       case Confirmation(remote) => x.sent == Stream(p) && remote == q.local
       case Ended(v) =>
         && |x.sent| >= |Stream(p)| && x.sent[..|Stream(p)|] == Stream(p)
         && v == Admit(p.side, q.local) && x.read == Stream(q)
  }

  ghost predicate Inv(c: Pair, s: System) {
    && Track(c.left, c.right, s.left) && Track(c.right, c.left, s.right)
    && |s.left.read| <= |s.right.sent| && |s.right.read| <= |s.left.sent|
  }

  /** What an honest end has put on the wire agrees with its stream as far as both go. */
  lemma SentFollowsStream(q: Party, p: Party, y: Endpoint, n: nat)
    requires Track(q, p, y) && n <= |y.sent| && n <= |Stream(q)|
    ensures y.sent[..n] == Stream(q)[..n]
  {
    if y.phase.Ended? {
      assert y.sent[..n] == y.sent[..|Stream(q)|][..n];
    } else {
      assert y.sent == Stream(q)[..|y.sent|];
    }
  }

  lemma WriteKeepsTrack(p: Party, q: Party, x: Endpoint)
    requires Track(p, q, x) && Writing(x) && |q.local.wire| == HELLO_SIZE
    ensures Track(p, q, Write(p, x))
    ensures |Write(p, x).sent| >= |x.sent| && Write(p, x).read == x.read
  {
  }

  /** A completed read of an honest peer's bytes moves on as it should. */
  lemma CompleteKeepsTrack(p: Party, q: Party, x: Endpoint, l: Ledger)
    requires Reads(p, q, l)
    requires x.phase.Head? || x.phase.Body? || x.phase.Confirmation?
    requires |x.read| == Base(x) + Needed(x) <= |Stream(q)| && x.read == Stream(q)[..|x.read|] && x.acc == x.read[Base(x)..]
    requires x.phase.Head? || x.phase.Body? ==> x.sent == p.local.wire
    requires x.phase.Body? ==> x.phase.head == Stream(q)[..6]
    requires x.phase.Confirmation? ==> x.sent == Stream(p) && x.phase.remote == q.local
    ensures Track(p, q, Complete(p, x, l))
    ensures Complete(p, x, l).sent == x.sent && Complete(p, x, l).read == x.read
  {
    hide Decode, DecodeConfirmation, JudgeHello, Admit, Supports, PrintConfirmation;
    var w := q.local.wire;
    assert Stream(q)[..HELLO_SIZE] == w && Stream(q)[HELLO_SIZE..] == PrintConfirmation(q.sig);
    assert w[..6][..4] == w[..4] && w[..6][4..6] == w[4..6] && Stream(q)[..6] == w[..6];
    match x.phase
    case Head =>
      assert x.acc == w[..6];
    case Body(head) =>
      assert x.read == w && head + x.acc == w;
    case Confirmation(remote) =>
      assert x.read == Stream(q) && x.acc == PrintConfirmation(q.sig);
  }

  lemma ReceiveKeepsTrack(p: Party, q: Party, x: Endpoint, y: Endpoint, n: nat, l: Ledger)
    requires Reads(p, q, l) && Track(p, q, x) && Track(q, p, y)
    requires 0 < n && |x.read| + n <= |y.sent| && |x.acc| + n <= Needed(x)
    ensures var x' := Receive(p, x, y.sent[|x.read|..|x.read| + n], l);
            Track(p, q, x') && x'.sent == x.sent && |x'.read| == |x.read| + n
  {
    hide Decode, DecodeConfirmation, JudgeHello, Admit, Supports, PrintConfirmation, Complete;
    var bs := y.sent[|x.read|..|x.read| + n];
    var m := |x.read| + n;
    NeededFits(p, q, x, l);
    SentFollowsStream(q, p, y, m);
    assert x.read + bs == Stream(q)[..m] by {
      assert bs == y.sent[..m][|x.read|..];
    }
    var x' := x.(acc := x.acc + bs, read := x.read + bs);
    assert x'.acc == x'.read[Base(x)..];
    if |x'.acc| == Needed(x) {
      CompleteKeepsTrack(p, q, x', l);
    }
  }

  lemma NeededFits(p: Party, q: Party, x: Endpoint, l: Ledger)
    requires Reads(p, q, l) && Track(p, q, x) && Needed(x) > 0
    ensures Base(x) + Needed(x) <= |Stream(q)|
    ensures x.phase.Body? ==> Base(x) + Needed(x) == HELLO_SIZE
  {
    if x.phase.Body? {
      assert x.phase.head[4..6] == q.local.wire[4..6];
    }
  }

  lemma StepKeepsInv(c: Pair, s: System, e: Event)
    requires Reads(c.left, c.right, c.ledger) && Reads(c.right, c.left, c.ledger)
    requires Inv(c, s) && Enabled(s, e)
    ensures Inv(c, Step(c, s, e))
  {
    hide Track, Receive, Reads;
    var p, q := PartyOf(c, e.left), PartyOf(c, !e.left);
    var x, y := Own(s, e.left), Other(s, e.left);
    match e
    case WriteStep(_) =>
      WireLength(p, q, c.ledger);
      WriteKeepsTrack(p, q, x);
    case ReceiveStep(_, n) =>
      ReceiveKeepsTrack(p, q, x, y, n, c.ledger);
    case TrafficStep(_, data) =>
      TrafficKeepsTrack(p, q, x, data);
  }

  lemma WireLength(p: Party, q: Party, l: Ledger)
    requires Reads(p, q, l)
    ensures |q.local.wire| == HELLO_SIZE && |Stream(q)| == HELLO_SIZE + CONFIRMATION_SIZE
  {
  }

  lemma TrafficKeepsTrack(p: Party, q: Party, x: Endpoint, data: Octets)
    requires Track(p, q, x) && x.phase.Ended?
    ensures Track(p, q, x.(sent := x.sent + data))
  {
    assert (x.sent + data)[..|Stream(p)|] == x.sent[..|Stream(p)|];
  }

  // ----- progress

  /** Handshake work left at one end: bytes to read and messages to write. */
  function Left(x: Endpoint): int {
    HELLO_SIZE + CONFIRMATION_SIZE - |x.read|
    + match x.phase case Start => 2 case Confirmation(_) => 0 case Ended(_) => 0 case _ => 1
  }

  function Work(s: System): int {
    Left(s.left) + Left(s.right)
  }

  /** Every step that is not traffic uses up work; traffic uses none. */
  lemma StepUsesWork(c: Pair, s: System, e: Event)
    requires Enabled(s, e)
    ensures if e.TrafficStep? then Work(Step(c, s, e)) == Work(s) else Work(Step(c, s, e)) < Work(s)
  {
    hide Receive;
    if e.ReceiveStep? {
      var x, y := Own(s, e.left), Other(s, e.left);
      ReceiveNeverWrites(PartyOf(c, e.left), x, y.sent[|x.read|..|x.read| + e.count], c.ledger);
    }
  }

  lemma ReceiveNeverWrites(p: Party, x: Endpoint, bs: Octets, l: Ledger)
    requires Needed(x) > 0
    ensures var x' := Receive(p, x, bs, l);
            |x'.read| == |x.read| + |bs| && !x'.phase.Start? && (x.phase.Confirmation? ==> x'.phase.Confirmation? || x'.phase.Ended?)
  {
    hide Decode, DecodeConfirmation, JudgeHello, Admit;
  }

  predicate BothEnded(s: System) {
    s.left.phase.Ended? && s.right.phase.Ended?
  }

  /** An end that is not finished can move, or its peer can. */
  lemma EndCanMove(c: Pair, s: System, left: bool) returns (e: Event)
    requires Reads(c.left, c.right, c.ledger) && Reads(c.right, c.left, c.ledger)
    requires Inv(c, s) && !Own(s, left).phase.Ended?
    ensures Enabled(s, e) && !e.TrafficStep?
  {
    hide Decode, DecodeConfirmation, JudgeHello, PrintConfirmation, Admit;
    var p, q := PartyOf(c, left), PartyOf(c, !left);
    var x, y := Own(s, left), Other(s, left);
    if Writing(x) {
      e := WriteStep(left);
    } else if Writing(y) {
      e := WriteStep(!left);
    } else if x.phase.Confirmation? && (y.phase.Head? || y.phase.Body?) {
      NeededFits(q, p, y, c.ledger);
      e := ReceiveStep(!left, 1);
    } else {
      NeededFits(p, q, x, c.ledger);
      e := ReceiveStep(left, 1);
    }
  }

  function HandshakeSteps(es: seq<Event>): nat {
    if es == [] then 0 else (if es[0].TrafficStep? then 0 else 1) + HandshakeSteps(es[1..])
  }

  lemma {:induction false} RunKeepsInv(c: Pair, s: System, es: seq<Event>)
    requires Reads(c.left, c.right, c.ledger) && Reads(c.right, c.left, c.ledger)
    requires Inv(c, s) && ValidRun(c, s, es)
    ensures Inv(c, Run(c, s, es)) && HandshakeSteps(es) + Work(Run(c, s, es)) <= Work(s)
    decreases |es|
  {
    hide Inv, Reads, Work, Step, Enabled;
    if es != [] {
      StepKeepsInv(c, s, es[0]);
      StepUsesWork(c, s, es[0]);
      RunKeepsInv(c, Step(c, s, es[0]), es[1..]);
    }
  }

  /** In every interleaving and fragmentation: as long as one end is not done,
      some handshake step is possible, and there are at most 610 of them in all.
      An end that is done has consumed exactly the peer's hello and confirmation,
      and its verdict depends on its own gate alone. Two connected ends hand over
      the same priority. */
  lemma HandshakeCompletes(c: Pair, es: seq<Event>)
    requires Honest(c) && ValidRun(c, System(INITIAL, INITIAL), es)
    ensures var s := Run(c, System(INITIAL, INITIAL), es);
            && HandshakeSteps(es) <= 610
            && (!BothEnded(s) ==> exists e :: Enabled(s, e) && !e.TrafficStep?)
            && (s.left.phase.Ended? ==> s.left.phase.verdict == Admit(c.left.side, c.right.local) && s.left.read == Stream(c.right))
            && (s.right.phase.Ended? ==> s.right.phase.verdict == Admit(c.right.side, c.left.local) && s.right.read == Stream(c.left))
    ensures LinkPriority(c.left.side, c.right.local) == LinkPriority(c.right.side, c.left.local)
  {
    hide Greets, Decode, DecodeConfirmation, JudgeHello, PrintConfirmation, Admit, Step, Enabled;
    HonestReads(c.left, c.right, c.ledger);
    HonestReads(c.right, c.left, c.ledger);
    var start := System(INITIAL, INITIAL);
    assert Stream(c.left)[..0] == [] && Stream(c.right)[..0] == [];
    RunKeepsInv(c, start, es);
    var s := Run(c, start, es);
    WorkNonNegative(c, s);
    if !s.left.phase.Ended? {
      var e := EndCanMove(c, s, true);
    } else if !s.right.phase.Ended? {
      var e := EndCanMove(c, s, false);
    }
  }

  lemma WorkNonNegative(c: Pair, s: System)
    requires Reads(c.left, c.right, c.ledger) && Reads(c.right, c.left, c.ledger) && Inv(c, s)
    ensures Work(s) >= 0
  {
  }

  /** Every run of two honest ends can be carried on to one in which both are done. */
  lemma EveryRunCanFinish(c: Pair, es: seq<Event>) returns (more: seq<Event>)
    requires Honest(c) && ValidRun(c, System(INITIAL, INITIAL), es)
    ensures var s := Run(c, System(INITIAL, INITIAL), es);
            ValidRun(c, s, more) && BothEnded(Run(c, s, more))
  {
    hide Greets, Decode, DecodeConfirmation, JudgeHello, PrintConfirmation, Admit, Step, Enabled;
    HonestReads(c.left, c.right, c.ledger);
    HonestReads(c.right, c.left, c.ledger);
    assert Stream(c.left)[..0] == [] && Stream(c.right)[..0] == [];
    RunKeepsInv(c, System(INITIAL, INITIAL), es);
    more := Finish(c, Run(c, System(INITIAL, INITIAL), es));
  }

  lemma {:induction false} Finish(c: Pair, s: System) returns (more: seq<Event>)
    requires Reads(c.left, c.right, c.ledger) && Reads(c.right, c.left, c.ledger) && Inv(c, s)
    ensures ValidRun(c, s, more) && BothEnded(Run(c, s, more))
    decreases Work(s)
  {
    hide Inv, Reads, Work, Step, Enabled;
    WorkNonNegative(c, s);
    if BothEnded(s) {
      more := [];
    } else {
      var e := EndCanMove(c, s, !s.left.phase.Ended?);
      StepKeepsInv(c, s, e);
      StepUsesWork(c, s, e);
      var rest := Finish(c, Step(c, s, e));
      more := [e] + rest;
      assert more[1..] == rest;
    }
  }

  /** There are such pairs: any two settings with different keys and one
      password, any fresh nonces, and any three different signatures from each key. */
  lemma HonestPairsExist(left: Side, right: Side, n: Octets, m: Octets, a: seq<Octets>, b: seq<Octets>) returns (c: Pair)
    requires |left.key| == |right.key| == KEY_SIZE && left.key != right.key
    requires left.options.password == right.options.password && |left.options.password| <= MAX_PASSWORD
    requires |n| == |m| == NONCE_SIZE && n != Zeros(NONCE_SIZE) && m != Zeros(NONCE_SIZE)
    requires ThreeSignatures(a) && ThreeSignatures(b)
    ensures Honest(c) && c.left.side == left && c.right.side == right && c.left.local.nonce == n && c.right.local.nonce == m
  {
    hide PrintFields, SignedFields, Frame, ConfirmationHash, HandshakeHash, LegacyHash, Zeros;
    var x, y := Encoded(LocalMetadata(left), n, a[0], a[1]), Encoded(LocalMetadata(right), m, b[0], b[1]);
    var p, q := Party(left, x, a[2]), Party(right, y, b[2]);
    var l := Ledgered(p, q, a) + Ledgered(q, p, b);
    LedgeredSigns(p, q, n, a, Ledgered(q, p, b));
    LedgeredSigns(q, p, m, b, Ledgered(p, q, a));
    assert l == Ledgered(q, p, b) + Ledgered(p, q, a);
    c := Pair(p, q, l);
  }

  predicate ThreeSignatures(a: seq<Octets>) {
    |a| == 3 && (forall i | 0 <= i < 3 :: |a[i]| == SIGNATURE_SIZE) && a[0] != a[1] && a[0] != a[2] && a[1] != a[2]
  }

  /** What the key of one party signs on the way. */
  function Ledgered(p: Party, q: Party, a: seq<Octets>): Ledger
    requires |a| == 3 && |p.side.key| == KEY_SIZE && |p.local.publicKey| == KEY_SIZE && |p.local.nonce| == NONCE_SIZE
    requires |p.side.options.password| <= MAX_PASSWORD
  {
    var password, h := p.side.options.password, ConfirmationHash(p.side.options.password, p.local, q.local);
    {Signed(p.side.key, HandshakeHash(password, PrintFields(SignedFields(p.local))).value, a[0]),
     Signed(p.side.key, LegacyHash(password, p.side.key).value, a[1])} +
    if h == None then {} else {Signed(p.side.key, h.value, a[2])}
  }

  lemma LedgeredSigns(p: Party, q: Party, nonce: Octets, a: seq<Octets>, others: Ledger)
    requires |p.side.key| == KEY_SIZE && |p.side.options.password| <= MAX_PASSWORD && ThreeSignatures(a)
    requires |nonce| == NONCE_SIZE && nonce != Zeros(NONCE_SIZE)
    requires p.local == Encoded(LocalMetadata(p.side), nonce, a[0], a[1]) && p.sig == a[2]
    ensures |p.local.publicKey| == KEY_SIZE && |p.local.nonce| == NONCE_SIZE
    ensures var l := Ledgered(p, q, a);
            && Ideal(l) && (forall s | s in l :: s.key == p.side.key)
            && Greets(p, l + others) && Confirms(p, q, l + others)
  {
    hide PrintFields, SignedFields, Frame, ConfirmationHash, HandshakeHash, LegacyHash, Zeros;
    assert GreetsWith(p, Ledgered(p, q, a) + others, nonce, a[0], a[1]);
  }
}
