/** The hello that opens a peering connection (src/core/version.go): a preamble,
a list of type-length-value fields, and a trailing signature.

The functions say what the encoder writes and what the decoder makes of any
byte stream, failures included. */
module Hello {
  import opened Constants
  import opened Octets
  import opened Crypto
  import opened Results

  const PREAMBLE: Octets := [0x6d, 0x65, 0x74, 0x61]               // "meta"
  const HANDSHAKE_DOMAIN: Octets :=
    [0x55, 0x51, 0x44, 0x41, 0x2d, 0x48, 0x41, 0x4e, 0x44, 0x53, 0x48, 0x41, 0x4b, 0x45, 0x2d, 0x56, 0x31, 0] // "UQDA-HANDSHAKE-V1\0"
  const NONCE_SIZE: nat := 32
  const CAPABILITY_CONFIRMATION: U32 := 1
  const VERSION_MAJOR: U16 := 0
  const VERSION_MINOR: U16 := 5

  // Field numbers. Numbers a decoder does not know are skipped.
  const MAJOR: U16 := 0
  const MINOR: U16 := 1
  const PUBLIC_KEY: U16 := 2
  const PRIORITY: U16 := 3
  const NONCE: U16 := 4
  const CAPABILITIES: U16 := 5
  const TRANSCRIPT_SIGNATURE: U16 := 6

  datatype Error =
    | Eof | UnexpectedEof | InvalidPreamble | InvalidLength | InvalidPassword | InvalidSignature | InvalidConfirmation

  datatype Metadata = Metadata(
    majorVer: U16, minorVer: U16, publicKey: Octets, priority: Octet, nonce: Octets,
    capabilities: U32, transcriptSignature: Octets, wire: Octets)

  function Zeros(n: nat): (z: Octets)
    ensures |z| == n
  {
    seq(n, i => 0)
  }

  /** The zero value of the struct. */
  const BLANK := Metadata(0, 0, [], 0, Zeros(NONCE_SIZE), 0, [], [])

  predicate Supports(m: Metadata) {
    m.capabilities % 2 == 1
  }

  /** check: right version, a key, and a nonce if confirmation is offered. */
  predicate Check(m: Metadata) {
    && m.majorVer == VERSION_MAJOR && m.minorVer == VERSION_MINOR && |m.publicKey| == KEY_SIZE
    && !(Supports(m) && m.nonce == Zeros(NONCE_SIZE))
  }

  // ----- hashes

  function LegacyHash(password: Octets, publicKey: Octets): Option<Digest> {
    Blake2b(password, publicKey)
  }

  function HandshakeHash(password: Octets, payload: Octets): Option<Digest> {
    Blake2b(password, HANDSHAKE_DOMAIN + payload)
  }

  // ----- fields

  datatype Field = Field(op: U16, value: Octets)

  predicate Printable(f: Field) {
    |f.value| < 0x1_0000
  }

  function PrintField(f: Field): (b: Octets)
    requires Printable(f)
    ensures |b| == 4 + |f.value|
  {
    PutU16(f.op) + PutU16(|f.value|) + f.value
  }

  /** One decoded field. Nothing if a known field has the wrong length. */
  function Store(m: Metadata, f: Field): Option<Metadata> {
    if f.op == MAJOR then
      if |f.value| != 2 then None else Some(m.(majorVer := GetU16(f.value)))
    else if f.op == MINOR then
      if |f.value| != 2 then None else Some(m.(minorVer := GetU16(f.value)))
    else if f.op == PUBLIC_KEY then
      if |f.value| != KEY_SIZE then None else Some(m.(publicKey := f.value))
    else if f.op == PRIORITY then
      if |f.value| != 1 then None else Some(m.(priority := f.value[0]))
    else if f.op == NONCE then
      if |f.value| != NONCE_SIZE then None else Some(m.(nonce := f.value))
    else if f.op == CAPABILITIES then
      if |f.value| != 4 then None else Some(m.(capabilities := GetU32(f.value)))
    else if f.op == TRANSCRIPT_SIGNATURE then
      if |f.value| != SIGNATURE_SIZE then None else Some(m.(transcriptSignature := f.value))
    else Some(m)
  }

  /** The first field of a byte string that has a whole one. */
  predicate HasField(bs: Octets) {
    |bs| >= 4 && |bs| - 4 >= GetU16(bs[2..4])
  }

  function FirstField(bs: Octets): (f: Field)
    requires HasField(bs)
    ensures Printable(f) && |bs| >= 4 + |f.value|
  {
    Field(GetU16(bs[..2]), bs[4..4 + GetU16(bs[2..4])])
  }

  /** What the field loop leaves: whether it ran to the end, the receiver, and
      the signed bytes. Nothing signed is Go's nil slice. */
  datatype Parsed = Parsed(ok: bool, m: Metadata, signed: Option<Octets>)

  /** The signed bytes a transcript signature closes. Copying no bytes gives nil, so at offset 0 there are none. */
  function Closed(before: Octets): Option<Octets> {
    if before == [] then None else Some(before)
  }

  /** The field loop, with `before` already consumed and `bs` to go. */
  function ParseFields(m: Metadata, before: Octets, bs: Octets, signed: Option<Octets>): (p: Parsed)
    decreases |bs|
  {
    if |bs| < 4 then Parsed(bs == [], m, signed)
    else if signed != None || !HasField(bs) then Parsed(false, m, signed)
    else
      var f := FirstField(bs);
      match Store(m, f)
      case None => Parsed(false, m, signed)
      case Some(m') =>
        var n := 4 + |f.value|;
        ParseFields(m', before + bs[..n], bs[n..], if f.op == TRANSCRIPT_SIGNATURE then Closed(before) else signed)
  }

  // ----- decode

  datatype Decoded = Decoded(err: Option<Error>, m: Metadata, rest: Octets)

  /** The signature checks after the fields. */
  function Authenticate(m: Metadata, signed: Option<Octets>, sig: Octets, password: Octets, l: Ledger): Option<Error> {
    if |m.publicKey| != KEY_SIZE then Some(InvalidLength)
    else if LegacyHash(password, m.publicKey) == None then Some(InvalidPassword)
    else if !Verify(l, m.publicKey, LegacyHash(password, m.publicKey).value, sig) then Some(InvalidSignature)
    else if !Supports(m) then None
    else if signed == None || |m.transcriptSignature| != SIGNATURE_SIZE then Some(InvalidSignature)
    else if HandshakeHash(password, signed.value) == None then Some(InvalidPassword)
    else if !Verify(l, m.publicKey, HandshakeHash(password, signed.value).value, m.transcriptSignature) then Some(InvalidSignature)
    else None
  }

  /** What decode does to a receiver and a stream that holds `input` and then ends. */
  function Decode(m: Metadata, input: Octets, password: Octets, l: Ledger): (d: Decoded) {
    if |input| < 6 then Decoded(Some(if input == [] then Eof else UnexpectedEof), m, [])
    else if input[..4] != PREAMBLE then Decoded(Some(InvalidPreamble), m, input[6..])
    else
      var hl := GetU16(input[4..6]);
      if hl < SIGNATURE_SIZE then Decoded(Some(InvalidLength), m, input[6..])
      else if |input| - 6 < hl then Decoded(Some(if |input| == 6 then Eof else UnexpectedEof), m, [])
      else
        var body := input[6..6 + hl];
        var p := ParseFields(m.(wire := input[..6 + hl]), [], body[..hl - SIGNATURE_SIZE], None);
        var err := if !p.ok then Some(InvalidLength) else Authenticate(p.m, p.signed, body[hl - SIGNATURE_SIZE..], password, l);
        Decoded(err, p.m, input[6 + hl..])
  }

  // ----- encode

  function PrintFields(fs: seq<Field>): (b: Octets)
    requires forall f | f in fs :: Printable(f)
  {
    if fs == [] then [] else PrintField(fs[0]) + PrintFields(fs[1..])
  }

  /** The fields a 0.5 node writes. */
  function LegacyFields(m: Metadata): (fs: seq<Field>)
    requires |m.publicKey| == KEY_SIZE
    ensures forall f | f in fs :: Printable(f)
  {
    [Field(MAJOR, PutU16(m.majorVer)), Field(MINOR, PutU16(m.minorVer)),
     Field(PUBLIC_KEY, m.publicKey), Field(PRIORITY, [m.priority])]
  }

  /** The fields a current node signs. */
  function SignedFields(m: Metadata): (fs: seq<Field>)
    requires |m.publicKey| == KEY_SIZE && |m.nonce| == NONCE_SIZE
    ensures forall f | f in fs :: Printable(f)
  {
    LegacyFields(m) + [Field(NONCE, m.nonce), Field(CAPABILITIES, PutU32(m.capabilities))]
  }

  /** A message: the preamble, the length, the fields and the trailing signature. */
  function Frame(fields: Octets, sig: Octets): Octets
    requires |fields| + |sig| < 0x1_0000
  {
    PREAMBLE + PutU16(|fields| + |sig|) + fields + sig
  }

  /** The hello of a current node: the signed fields, their signature as one more field, and the legacy signature. */
  function HelloFields(m: Metadata): (fs: seq<Field>)
    requires |m.publicKey| == KEY_SIZE && |m.nonce| == NONCE_SIZE && |m.transcriptSignature| == SIGNATURE_SIZE
    ensures forall f | f in fs :: Printable(f)
  {
    SignedFields(m) + [Field(TRANSCRIPT_SIGNATURE, m.transcriptSignature)]
  }

  const SIGNED_SIZE: nat := 97
  const HELLO_SIZE: nat := 235

  /** What encode makes of a receiver: a fresh nonce, the capability bit, both signatures, and the bytes sent. */
  function Encoded(m: Metadata, nonce: Octets, transcriptSignature: Octets, legacySignature: Octets): (e: Metadata)
    requires |m.publicKey| == KEY_SIZE && |nonce| == NONCE_SIZE
    requires |transcriptSignature| == |legacySignature| == SIGNATURE_SIZE
  {
    var e := m.(nonce := nonce, capabilities := CAPABILITY_CONFIRMATION, transcriptSignature := transcriptSignature);
    PrintSizes(e);
    e.(wire := Frame(PrintFields(HelloFields(e)), legacySignature))
  }

  lemma PrintSizes(m: Metadata)
    requires |m.publicKey| == KEY_SIZE && |m.nonce| == NONCE_SIZE && |m.transcriptSignature| == SIGNATURE_SIZE
    ensures |PrintFields(SignedFields(m))| == SIGNED_SIZE
    ensures PrintFields(HelloFields(m)) == PrintFields(SignedFields(m)) + PrintField(Field(TRANSCRIPT_SIGNATURE, m.transcriptSignature))
    ensures |PrintFields(HelloFields(m))| + SIGNATURE_SIZE + 6 == HELLO_SIZE
  {
    PrintLegacy(m);
    var tail := [Field(NONCE, m.nonce), Field(CAPABILITIES, PutU32(m.capabilities))];
    var last := [Field(TRANSCRIPT_SIGNATURE, m.transcriptSignature)];
    PrintAppend(LegacyFields(m), tail);
    PrintAppend(SignedFields(m), last);
    PrintTwo(tail[0], tail[1]);
    PrintOne(last[0]);
  }

  lemma PrintOne(f: Field)
    requires Printable(f)
    ensures PrintFields([f]) == PrintField(f)
  {
    assert [f][1..] == [];
  }

  lemma PrintTwo(f: Field, g: Field)
    requires Printable(f) && Printable(g)
    ensures PrintFields([f, g]) == PrintField(f) + PrintField(g)
  {
    assert [f, g][1..] == [g];
    PrintOne(g);
  }

  lemma PrintLegacy(m: Metadata)
    requires |m.publicKey| == KEY_SIZE
    ensures PrintFields(LegacyFields(m)) ==
            PrintField(Field(MAJOR, PutU16(m.majorVer))) + PrintField(Field(MINOR, PutU16(m.minorVer))) +
            PrintField(Field(PUBLIC_KEY, m.publicKey)) + PrintField(Field(PRIORITY, [m.priority]))
  {
    var fs := LegacyFields(m);
    PrintAppend([fs[0], fs[1]], [fs[2], fs[3]]);
    assert fs == [fs[0], fs[1]] + [fs[2], fs[3]];
    PrintTwo(fs[0], fs[1]);
    PrintTwo(fs[2], fs[3]);
  }

  lemma {:induction false} PrintAppend(fs: seq<Field>, gs: seq<Field>)
    requires forall f | f in fs + gs :: Printable(f)
    ensures forall f | f in fs :: Printable(f)
    ensures forall f | f in gs :: Printable(f)
    ensures PrintFields(fs + gs) == PrintFields(fs) + PrintFields(gs)
  {
    assert forall f | f in fs :: f in fs + gs;
    assert forall f | f in gs :: f in fs + gs;
    if fs == [] {
      assert fs + gs == gs;
    } else {
      assert (fs + gs)[0] == fs[0] && (fs + gs)[1..] == fs[1..] + gs;
      PrintAppend(fs[1..], gs);
    }
  }
}
