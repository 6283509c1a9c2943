/** What the hello format promises: the decoder accepts exactly the well-formed
field lists, the last field of a kind counts, the signature covers everything a
confirming peer says, and every hello survives the trip to a peer with the same
password, old or new. */
module HelloLaws {
  import opened Constants
  import opened Octets
  import opened Crypto
  import opened Results
  import opened Hello

  // ----- field lists, the reference the decoder is measured against

  /** Known fields have the length their kind asks for. */
  predicate Sized(f: Field) {
    && Printable(f)
    && (f.op == MAJOR || f.op == MINOR ==> |f.value| == 2)
    && (f.op == PUBLIC_KEY ==> |f.value| == KEY_SIZE)
    && (f.op == PRIORITY ==> |f.value| == 1)
    && (f.op == NONCE ==> |f.value| == NONCE_SIZE)
    && (f.op == CAPABILITIES ==> |f.value| == 4)
    && (f.op == TRANSCRIPT_SIGNATURE ==> |f.value| == SIGNATURE_SIZE)
  }

  predicate AllSized(fs: seq<Field>) {
    forall f | f in fs :: Sized(f)
  }

  /** A transcript signature is the last field, or the very first of the message. */
  predicate Placed(fs: seq<Field>, atStart: bool) {
    forall i | 0 <= i < |fs| && fs[i].op == TRANSCRIPT_SIGNATURE :: i == |fs| - 1 || (i == 0 && atStart)
  }

  /** The value of the last field of a kind. */
  function Last(fs: seq<Field>, op: U16): Option<Octets> {
    if fs == [] then None
    else if fs[|fs| - 1].op == op then Some(fs[|fs| - 1].value)
    else Last(fs[..|fs| - 1], op)
  }

  /** A receiver after a list of fields, one after the other. */
  function StoreAll(m: Metadata, fs: seq<Field>): Metadata
    requires AllSized(fs)
    decreases |fs|
  {
    if fs == [] then m
    else
      assert Sized(fs[0]) && forall f | f in fs[1..] :: f in fs;
      StoreAll(Store(m, fs[0]).value, fs[1..])
  }

  lemma InitSized(fs: seq<Field>)
    requires AllSized(fs) && fs != []
    ensures AllSized(fs[..|fs| - 1]) && forall f | f in fs[..|fs| - 1] :: Printable(f)
  {
    forall f | f in fs[..|fs| - 1] ensures Sized(f) {
      assert f in fs;
    }
  }

  /** The bytes the closing signature covers. */
  function SignedBytes(before: Octets, fs: seq<Field>): Option<Octets>
    requires AllSized(fs)
  {
    if fs != [] && fs[|fs| - 1].op == TRANSCRIPT_SIGNATURE
    then
      InitSized(fs);
      Closed(before + PrintFields(fs[..|fs| - 1]))
    else None
  }

  lemma StoreSized(m: Metadata, f: Field)
    requires Printable(f)
    ensures Store(m, f) != None <==> Sized(f)
  {
  }

  lemma FirstOfPrinted(f: Field, rest: Octets)
    requires Printable(f)
    ensures HasField(PrintField(f) + rest) && FirstField(PrintField(f) + rest) == f
    ensures (PrintField(f) + rest)[..4 + |f.value|] == PrintField(f)
    ensures (PrintField(f) + rest)[4 + |f.value|..] == rest
  {
    var bs := PrintField(f) + rest;
    assert bs[..2] == PutU16(f.op) && bs[2..4] == PutU16(|f.value|) && bs[4..4 + |f.value|] == f.value;
  }

  lemma PrintedFirst(bs: Octets)
    requires HasField(bs)
    ensures PrintField(FirstField(bs)) == bs[..4 + |FirstField(bs).value|]
  {
    var f := FirstField(bs);
    PutGetU16(bs[..2]);
    PutGetU16(bs[2..4]);
    assert bs[..4 + |f.value|] == bs[..2] + bs[2..4] + bs[4..4 + |f.value|];
  }

  /** Consuming the first field moves it into what came before. */
  lemma SignedBytesShift(before: Octets, fs: seq<Field>)
    requires AllSized(fs) && |fs| >= 2
    ensures Sized(fs[0]) && AllSized(fs[1..]) && SignedBytes(before, fs) == SignedBytes(before + PrintField(fs[0]), fs[1..])
  {
    assert fs[0] in fs;
    var f, rest := fs[0], fs[1..];
    var init := rest[..|rest| - 1];
    assert forall g | g in rest :: g in fs;
    assert fs[..|fs| - 1] == [f] + init && forall g | g in init :: g in fs;
    PrintAppend([f], init);
    PrintOne(f);
    assert before + PrintField(f) + PrintFields(init) == before + (PrintField(f) + PrintFields(init));
  }

  /** The decoder runs through a printed list of well-placed fields and stores each of them. */
  lemma {:induction false} ParsePrinted(m: Metadata, before: Octets, fs: seq<Field>)
    requires AllSized(fs) && Placed(fs, before == [])
    ensures ParseFields(m, before, PrintFields(fs), None) == Parsed(true, StoreAll(m, fs), SignedBytes(before, fs))
    decreases |fs|
  {
    hide Store, HasField, FirstField, PrintField;
    if fs != [] {
      var f, rest := fs[0], fs[1..];
      assert f in fs && forall g | g in rest :: g in fs;
      var bs := PrintFields(fs);
      FirstOfPrinted(f, PrintFields(rest));
      StoreSized(m, f);
      var m' := Store(m, f).value;
      forall i | 0 <= i < |rest| && rest[i].op == TRANSCRIPT_SIGNATURE ensures i == |rest| - 1 {
        assert fs[i + 1] == rest[i];
      }
      if f.op == TRANSCRIPT_SIGNATURE && rest == [] {
        assert fs[..|fs| - 1] == [];
        assert before + [] == before;
      } else {
        ParsePrinted(m', before + PrintField(f), rest);
        if rest != [] {
          SignedBytesShift(before, fs);
        }
      }
    }
  }

  /** Whatever the decoder runs through to the end is such a list. */
  lemma {:induction false} PrintedParse(m: Metadata, before: Octets, bs: Octets) returns (fs: seq<Field>)
    requires ParseFields(m, before, bs, None).ok
    ensures AllSized(fs) && Placed(fs, before == []) && PrintFields(fs) == bs
    decreases |bs|
  {
    hide Store;
    if bs == [] {
      fs := [];
    } else {
      var f := FirstField(bs);
      StoreSized(m, f);
      PrintedFirst(bs);
      var n := 4 + |f.value|;
      assert bs == bs[..n] + bs[n..];
      if f.op == TRANSCRIPT_SIGNATURE && before != [] {
        assert bs[n..] == [];
        fs := [f];
        PrintOne(f);
      } else {
        var rest := PrintedParse(Store(m, f).value, before + bs[..n], bs[n..]);
        fs := [f] + rest;
        assert fs[1..] == rest;
      }
    }
  }

  /** The decoder's field loop succeeds exactly on printed lists of well-sized, well-placed fields. */
  lemma AcceptedFields(m: Metadata, bs: Octets)
    ensures ParseFields(m, [], bs, None).ok <==> exists fs :: AllSized(fs) && Placed(fs, true) && PrintFields(fs) == bs
  {
    if ParseFields(m, [], bs, None).ok {
      var fs := PrintedParse(m, [], bs);
    }
    if exists fs :: AllSized(fs) && Placed(fs, true) && PrintFields(fs) == bs {
      var fs :| AllSized(fs) && Placed(fs, true) && PrintFields(fs) == bs;
      ParsePrinted(m, [], fs);
    }
  }

  // ----- the last field of a kind counts

  /** Every value of m is the last of its kind in fs, or zero if there is none. */
  predicate LastOfEach(m: Metadata, fs: seq<Field>)
    requires AllSized(fs)
  {
    && (match Last(fs, MAJOR) case Some(v) => |v| == 2 && m.majorVer == GetU16(v) case None => m.majorVer == 0)
    && (match Last(fs, MINOR) case Some(v) => |v| == 2 && m.minorVer == GetU16(v) case None => m.minorVer == 0)
    && m.publicKey == (match Last(fs, PUBLIC_KEY) case Some(v) => v case None => [])
    && (match Last(fs, PRIORITY) case Some(v) => |v| == 1 && m.priority == v[0] case None => m.priority == 0)
    && m.nonce == (match Last(fs, NONCE) case Some(v) => v case None => Zeros(NONCE_SIZE))
    && (match Last(fs, CAPABILITIES) case Some(v) => |v| == 4 && m.capabilities == GetU32(v) case None => m.capabilities == 0)
  }

  lemma {:induction false} StoreAllAppend(m: Metadata, fs: seq<Field>, f: Field)
    requires AllSized(fs + [f])
    ensures AllSized(fs) && Sized(f)
    ensures StoreAll(m, fs + [f]) == Store(StoreAll(m, fs), f).value
    decreases |fs|
  {
    assert f in fs + [f] && forall g | g in fs :: g in fs + [f];
    if fs == [] {
      assert fs + [f] == [f];
    } else {
      assert fs[0] in fs && (fs + [f])[1..] == fs[1..] + [f];
      assert forall g | g in fs[1..] + [f] :: g in fs + [f];
      StoreAllAppend(Store(m, fs[0]).value, fs[1..], f);
    }
  }

  lemma {:induction false} StoreAllLast(wire: Octets, fs: seq<Field>)
    requires AllSized(fs)
    ensures LastOfEach(StoreAll(BLANK.(wire := wire), fs), fs)
    ensures StoreAll(BLANK.(wire := wire), fs).wire == wire
    decreases |fs|
  {
    hide LastOfEach;
    if fs == [] {
      LastOfNone(BLANK.(wire := wire));
    } else {
      var init, f := fs[..|fs| - 1], fs[|fs| - 1];
      assert fs == init + [f];
      assert forall g | g in init :: g in fs;
      StoreAllAppend(BLANK.(wire := wire), init, f);
      StoreAllLast(wire, init);
      LastStep(StoreAll(BLANK.(wire := wire), init), init, f);
    }
  }

  lemma LastOfNone(m: Metadata)
    requires m == BLANK.(wire := m.wire)
    ensures LastOfEach(m, [])
  {
  }

  /** One more field becomes the last of its kind and leaves the other kinds alone. */
  lemma LastStep(m: Metadata, fs: seq<Field>, f: Field)
    requires AllSized(fs) && Sized(f) && LastOfEach(m, fs)
    ensures AllSized(fs + [f]) && LastOfEach(Store(m, f).value, fs + [f])
  {
    assert (fs + [f])[..|fs|] == fs;
    forall op: U16 ensures Last(fs + [f], op) == if f.op == op then Some(f.value) else Last(fs, op) {
    }
  }

  // ----- what the signature covers

  /** The field area of an accepted message. */
  function FieldArea(wire: Octets): Octets
    requires |wire| >= 6 + SIGNATURE_SIZE
  {
    wire[6..|wire| - SIGNATURE_SIZE]
  }

  /** A message says how long it is. */
  predicate SelfDelimiting(wire: Octets) {
    |wire| >= 6 + SIGNATURE_SIZE && |wire| == 6 + GetU16(wire[4..6])
  }

  /** What acceptance means, step by step. */
  lemma DecodeAccepts(input: Octets, password: Octets, l: Ledger)
    requires Decode(BLANK, input, password, l).err == None
    ensures var d := Decode(BLANK, input, password, l);
            && SelfDelimiting(d.m.wire) && input == d.m.wire + d.rest && |d.m.publicKey| == KEY_SIZE
            && ParseFields(BLANK.(wire := d.m.wire), [], FieldArea(d.m.wire), None).ok
            && ParseFields(BLANK.(wire := d.m.wire), [], FieldArea(d.m.wire), None).m == d.m
            && Authenticate(d.m, ParseFields(BLANK.(wire := d.m.wire), [], FieldArea(d.m.wire), None).signed,
                            d.m.wire[|d.m.wire| - SIGNATURE_SIZE..], password, l) == None
  {
    hide ParseFields;
    var hl := GetU16(input[4..6]);
    var wire := input[..6 + hl];
    var body := input[6..6 + hl];
    var p := ParseFields(BLANK.(wire := wire), [], body[..hl - SIGNATURE_SIZE], None);
    ParseKeepsWire(BLANK.(wire := wire), [], body[..hl - SIGNATURE_SIZE], None);
    assert wire[4..6] == input[4..6];
    assert body[..hl - SIGNATURE_SIZE] == FieldArea(wire);
    assert body[hl - SIGNATURE_SIZE..] == wire[|wire| - SIGNATURE_SIZE..];
  }

  lemma {:induction false} ParseKeepsWire(m: Metadata, before: Octets, bs: Octets, signed: Option<Octets>)
    ensures ParseFields(m, before, bs, signed).m.wire == m.wire
    decreases |bs|
  {
    if |bs| >= 4 && signed == None && HasField(bs) {
      var f := FirstField(bs);
      if Store(m, f) != None {
        var n := 4 + |f.value|;
        ParseKeepsWire(Store(m, f).value, before + bs[..n], bs[n..],
                       if f.op == TRANSCRIPT_SIGNATURE then Closed(before) else signed);
      }
    }
  }

  /** A decoded nonce has its size, whatever else is wrong with the message. */
  lemma DecodedNonce(input: Octets, password: Octets, l: Ledger)
    ensures |Decode(BLANK, input, password, l).m.nonce| == NONCE_SIZE
  {
    hide ParseFields, Authenticate;
    if |input| >= 6 {
      var hl := GetU16(input[4..6]);
      if SIGNATURE_SIZE <= hl <= |input| - 6 {
        ParseKeepsNonce(BLANK.(wire := input[..6 + hl]), [], input[6..6 + hl][..hl - SIGNATURE_SIZE], None);
      }
    }
  }

  lemma {:induction false} ParseKeepsNonce(m: Metadata, before: Octets, bs: Octets, signed: Option<Octets>)
    requires |m.nonce| == NONCE_SIZE
    ensures |ParseFields(m, before, bs, signed).m.nonce| == NONCE_SIZE
    decreases |bs|
  {
    if |bs| >= 4 && signed == None && HasField(bs) && Store(m, FirstField(bs)) != None {
      var f := FirstField(bs);
      var n := 4 + |f.value|;
      ParseKeepsNonce(Store(m, f).value, before + bs[..n], bs[n..], if f.op == TRANSCRIPT_SIGNATURE then Closed(before) else signed);
    }
  }

  /** The field area is some signed fields and one final signature over exactly
      their bytes, and every value of m is found among those fields. */
  ghost predicate Covers(fs: seq<Field>, m: Metadata, password: Octets, l: Ledger) {
    && |m.wire| >= 6 + SIGNATURE_SIZE && |password| <= MAX_PASSWORD
    && AllSized(fs) && |m.transcriptSignature| == SIGNATURE_SIZE
    && FieldArea(m.wire) == PrintFields(fs) + PrintField(Field(TRANSCRIPT_SIGNATURE, m.transcriptSignature))
    && Verify(l, m.publicKey, Digest(password, HANDSHAKE_DOMAIN + PrintFields(fs)), m.transcriptSignature)
    && LastOfEach(m, fs)
  }

  /** For every byte stream: a hello that is accepted and offers confirmation is covered by its signature. */
  lemma SignatureCoversEverything(input: Octets, password: Octets, l: Ledger)
    requires Decode(BLANK, input, password, l).err == None && Supports(Decode(BLANK, input, password, l).m)
    ensures exists fs :: Covers(fs, Decode(BLANK, input, password, l).m, password, l)
  {
    hide ParseFields, Decode;
    DecodeAccepts(input, password, l);
    var m := Decode(BLANK, input, password, l).m;
    var fs := ClosedFields(m);
    assert Covers(fs, m, password, l);
  }

  /** A message whose loop ended with signed bytes is those bytes and the signature over them. */
  lemma ClosedFields(m: Metadata) returns (fs: seq<Field>)
    requires |m.wire| >= 6 + SIGNATURE_SIZE
    requires var p := ParseFields(BLANK.(wire := m.wire), [], FieldArea(m.wire), None);
             p.ok && p.m == m && p.signed != None
    ensures AllSized(fs) && LastOfEach(m, fs) && |m.transcriptSignature| == SIGNATURE_SIZE
    ensures ParseFields(BLANK.(wire := m.wire), [], FieldArea(m.wire), None).signed == Some(PrintFields(fs))
    ensures FieldArea(m.wire) == PrintFields(fs) + PrintField(Field(TRANSCRIPT_SIGNATURE, m.transcriptSignature))
  {
    hide ParseFields, Store, PrintFields, PrintField, LastOfEach, Placed;
    var blank := BLANK.(wire := m.wire);
    var all := PrintedParse(blank, [], FieldArea(m.wire));
    ParsePrinted(blank, [], all);
    var f := all[|all| - 1];
    fs := all[..|all| - 1];
    InitSized(all);
    assert all == fs + [f] && f in all;
    PrintAppend(fs, [f]);
    PrintOne(f);
    StoreAllAppend(blank, fs, f);
    StoreAllLast(m.wire, fs);
    StoreSignature(StoreAll(blank, fs), f);
    SignatureAside(StoreAll(blank, fs), fs, f.value);
    assert [] + PrintFields(fs) == PrintFields(fs);
  }

  lemma SignatureAside(m: Metadata, fs: seq<Field>, sig: Octets)
    requires AllSized(fs) && LastOfEach(m, fs)
    ensures LastOfEach(m.(transcriptSignature := sig), fs)
  {
  }

  lemma StoreSignature(m: Metadata, f: Field)
    requires Sized(f) && f.op == TRANSCRIPT_SIGNATURE
    ensures Store(m, f) == Some(m.(transcriptSignature := f.value))
  {
  }

  // ----- round trips

  /** What a list of fields stores when it is a current node's hello. */
  lemma StoreHello(m: Metadata, wire: Octets)
    requires |m.publicKey| == KEY_SIZE && |m.nonce| == NONCE_SIZE && |m.transcriptSignature| == SIGNATURE_SIZE
    ensures AllSized(HelloFields(m)) && Placed(HelloFields(m), true)
    ensures StoreAll(BLANK.(wire := wire), HelloFields(m)) == m.(wire := wire)
  {
    var fs := HelloFields(m);
    StoreLegacy(m, wire);
    var m4 := BLANK.(majorVer := m.majorVer, minorVer := m.minorVer, publicKey := m.publicKey, priority := m.priority, wire := wire);
    var g4, g5, g6 := Field(NONCE, m.nonce), Field(CAPABILITIES, PutU32(m.capabilities)),
                      Field(TRANSCRIPT_SIGNATURE, m.transcriptSignature);
    StoreAllAppend(BLANK.(wire := wire), LegacyFields(m), g4);
    StoreAllAppend(BLANK.(wire := wire), LegacyFields(m) + [g4], g5);
    assert SignedFields(m) == LegacyFields(m) + [g4] + [g5];
    StoreAllAppend(BLANK.(wire := wire), SignedFields(m), g6);
    assert fs == SignedFields(m) + [g6];
  }

  lemma StoreLegacy(m: Metadata, wire: Octets)
    requires |m.publicKey| == KEY_SIZE
    ensures AllSized(LegacyFields(m)) && Placed(LegacyFields(m), true)
    ensures StoreAll(BLANK.(wire := wire), LegacyFields(m)) ==
            BLANK.(majorVer := m.majorVer, minorVer := m.minorVer, publicKey := m.publicKey, priority := m.priority, wire := wire)
  {
    var fs := LegacyFields(m);
    assert fs == [fs[0]] + [fs[1]] + [fs[2]] + [fs[3]];
    StoreAllAppend(BLANK.(wire := wire), [], fs[0]);
    StoreAllAppend(BLANK.(wire := wire), [fs[0]], fs[1]);
    StoreAllAppend(BLANK.(wire := wire), [fs[0]] + [fs[1]], fs[2]);
    StoreAllAppend(BLANK.(wire := wire), [fs[0]] + [fs[1]] + [fs[2]], fs[3]);
  }

  lemma FrameParts(fields: Octets, sig: Octets, rest: Octets)
    requires |sig| == SIGNATURE_SIZE && |fields| + |sig| < 0x1_0000
    ensures var wire := Frame(fields, sig);
            var hl := |fields| + |sig|;
            var input := wire + rest;
            && |wire| == 6 + hl && wire[4..6] == PutU16(hl) && FieldArea(wire) == fields && wire[|wire| - SIGNATURE_SIZE..] == sig
            && wire[..4] == input[..4] == PREAMBLE && input[4..6] == PutU16(hl) && input[..6 + hl] == wire
            && input[6..6 + hl] == fields + sig && input[6 + hl..] == rest
  {
  }

  /** A framed field list is read back to its end and authenticated, whatever follows it. */
  lemma DecodeFrame(fs: seq<Field>, sig: Octets, rest: Octets, password: Octets, l: Ledger)
    requires AllSized(fs) && Placed(fs, true) && |sig| == SIGNATURE_SIZE && |PrintFields(fs)| + |sig| < 0x1_0000
    ensures var wire := Frame(PrintFields(fs), sig);
            var m := StoreAll(BLANK.(wire := wire), fs);
            && SelfDelimiting(wire) && FieldArea(wire) == PrintFields(fs)
            && Decode(BLANK, wire + rest, password, l) == Decoded(Authenticate(m, SignedBytes([], fs), sig, password, l), m, rest)
  {
    hide ParseFields, Authenticate, PrintFields, Frame, StoreAll, SignedBytes, Placed;
    var wire := Frame(PrintFields(fs), sig);
    FrameParts(PrintFields(fs), sig, rest);
    var body := PrintFields(fs) + sig;
    assert body[..|body| - SIGNATURE_SIZE] == PrintFields(fs) && body[|body| - SIGNATURE_SIZE..] == sig;
    ParsePrinted(BLANK.(wire := wire), [], fs);
  }

  /** A list of fields that decode to m, and the signature after them, are in
      order: there is a key, whose signature over itself stands at the end; and if
      confirmation is offered, the last of at least two fields is the key's
      signature over all fields before it. */
  ghost predicate InOrder(m: Metadata, fs: seq<Field>, sig: Octets, password: Octets, l: Ledger)
    requires AllSized(fs)
  {
    && |m.publicKey| == 32 && |password| <= 64 && Verify(l, m.publicKey, Digest(password, m.publicKey), sig)
    && (m.capabilities % 2 == 1 ==>
          && |fs| >= 2 && fs[|fs| - 1].op == TRANSCRIPT_SIGNATURE && AllSized(fs[..|fs| - 1])
          && Verify(l, m.publicKey, Digest(password, HANDSHAKE_DOMAIN + PrintFields(fs[..|fs| - 1])), fs[|fs| - 1].value))
  }

  /** The input is such a message, and anything after it. */
  ghost predicate Acceptable(input: Octets, fs: seq<Field>, sig: Octets, rest: Octets, password: Octets, l: Ledger) {
    && AllSized(fs) && Placed(fs, true) && |sig| == 64 && |PrintFields(fs)| + |sig| < 0x1_0000
    && input == Frame(PrintFields(fs), sig) + rest
    && InOrder(StoreAll(BLANK.(wire := Frame(PrintFields(fs), sig)), fs), fs, sig, password, l)
  }

  lemma OrderExactly(wire: Octets, fs: seq<Field>, sig: Octets, password: Octets, l: Ledger)
    requires AllSized(fs)
    ensures var m := StoreAll(BLANK.(wire := wire), fs);
            Authenticate(m, SignedBytes([], fs), sig, password, l) == None <==> InOrder(m, fs, sig, password, l)
  {
    hide PrintFields, StoreAll;
    var m := StoreAll(BLANK.(wire := wire), fs);
    if fs != [] && fs[|fs| - 1].op == TRANSCRIPT_SIGNATURE {
      var init, f := fs[..|fs| - 1], fs[|fs| - 1];
      InitSized(fs);
      PrintedEmpty(init);
      assert init + [f] == fs && [] + PrintFields(init) == PrintFields(init);
      StoreAllAppend(BLANK.(wire := wire), init, f);
      StoreSignature(StoreAll(BLANK.(wire := wire), init), f);
    }
  }

  lemma PrintedEmpty(fs: seq<Field>)
    requires AllSized(fs)
    ensures PrintFields(fs) == [] <==> fs == []
  {
  }

  /** An accepted message is the frame of its own parts. */
  lemma AcceptedIsFrame(input: Octets, password: Octets, l: Ledger)
    requires Decode(BLANK, input, password, l).err == None
    ensures var wire := Decode(BLANK, input, password, l).m.wire;
            && SelfDelimiting(wire) && |FieldArea(wire)| + 64 < 0x1_0000
            && wire == Frame(FieldArea(wire), wire[|wire| - 64..])
  {
    hide ParseFields, Authenticate;
    DecodeAccepts(input, password, l);
    var wire := Decode(BLANK, input, password, l).m.wire;
    assert wire[..4] == input[..4] && wire[4..6] == input[4..6];
    PutGetU16(wire[4..6]);
    assert wire == wire[..4] + wire[4..6] + FieldArea(wire) + wire[|wire| - 64..];
  }

  /** decode accepts exactly these inputs: a framed list of well-sized,
      well-placed fields that is in order, and anything after it. */
  lemma DecodeExactly(input: Octets, password: Octets, l: Ledger)
    ensures Decode(BLANK, input, password, l).err == None <==> exists fs, sig, rest :: Acceptable(input, fs, sig, rest, password, l)
  {
    hide ParseFields, PrintFields, Decode, Frame, StoreAll, SignedBytes, Placed, InOrder, Authenticate;
    forall fs, sig, rest | Acceptable(input, fs, sig, rest, password, l) ensures Decode(BLANK, input, password, l).err == None {
      DecodeFrame(fs, sig, rest, password, l);
      OrderExactly(Frame(PrintFields(fs), sig), fs, sig, password, l);
    }
    if Decode(BLANK, input, password, l).err == None {
      var d := Decode(BLANK, input, password, l);
      var wire := d.m.wire;
      DecodeAccepts(input, password, l);
      AcceptedIsFrame(input, password, l);
      var fs := PrintedParse(BLANK.(wire := wire), [], FieldArea(wire));
      var sig := wire[|wire| - 64..];
      DecodeFrame(fs, sig, d.rest, password, l);
      OrderExactly(wire, fs, sig, password, l);
      assert Acceptable(input, fs, sig, d.rest, password, l);
    }
  }

  /** The two signatures encode asks of the private key. */
  ghost predicate SignedBy(l: Ledger, e: Metadata, legacySignature: Octets, password: Octets)
    requires |e.publicKey| == KEY_SIZE && |e.nonce| == NONCE_SIZE && |password| <= MAX_PASSWORD
  {
    && Verify(l, e.publicKey, HandshakeHash(password, PrintFields(SignedFields(e))).value, e.transcriptSignature)
    && Verify(l, e.publicKey, LegacyHash(password, e.publicKey).value, legacySignature)
  }

  /** Every hello a node sends is accepted exactly by the peers that share its
      password, which then hold its exact metadata and bytes, and have consumed
      nothing after it. */
  lemma HelloRoundTrip(m: Metadata, nonce: Octets, ts: Octets, ls: Octets, rest: Octets,
                       password: Octets, theirs: Octets, l: Ledger)
    requires Ideal(l) && |m.publicKey| == KEY_SIZE && |nonce| == NONCE_SIZE && |ts| == |ls| == SIGNATURE_SIZE
    requires |password| <= MAX_PASSWORD && SignedBy(l, Encoded(m, nonce, ts, ls), ls, password)
    ensures var e := Encoded(m, nonce, ts, ls);
            var d := Decode(BLANK, e.wire + rest, theirs, l);
            && d.m == e && d.rest == rest
            && (d.err == None <==> theirs == password)
            && (|theirs| > MAX_PASSWORD ==> d.err == Some(InvalidPassword))
            && (|theirs| <= MAX_PASSWORD && theirs != password ==> d.err == Some(InvalidSignature))
  {
    hide ParseFields, PrintFields, StoreAll, Decode;
    var e := Encoded(m, nonce, ts, ls);
    var fs := HelloFields(e);
    StoreHello(e, e.wire);
    PrintSizes(e);
    DecodeFrame(fs, ls, rest, theirs, l);
    assert e.(wire := e.wire) == e;
    assert fs[..|fs| - 1] == SignedFields(e);
    assert [] + PrintFields(SignedFields(e)) == PrintFields(SignedFields(e));
  }

  // ----- compatibility with 0.5

  /** What a 0.5 parser keeps of the fields: versions and key, and the priority
      if it cares for it; all other fields are skipped. */
  datatype Legacy = Legacy(majorVer: U16, minorVer: U16, publicKey: Octets, priority: Octet)

  function StoreOld(g: Legacy, f: Field, priority: bool): Option<Legacy> {
    if f.op == MAJOR then if |f.value| != 2 then None else Some(g.(majorVer := GetU16(f.value)))
    else if f.op == MINOR then if |f.value| != 2 then None else Some(g.(minorVer := GetU16(f.value)))
    else if f.op == PUBLIC_KEY then if |f.value| != KEY_SIZE then None else Some(g.(publicKey := f.value))
    else if f.op == PRIORITY && priority then if |f.value| != 1 then None else Some(g.(priority := f.value[0]))
    else Some(g)
  }

  function ParseOld(g: Legacy, bs: Octets, priority: bool): Option<Legacy>
    decreases |bs|
  {
    if |bs| < 4 then if bs == [] then Some(g) else None
    else if !HasField(bs) then None
    else
      var f := FirstField(bs);
      match StoreOld(g, f, priority)
      case None => None
      case Some(g') => ParseOld(g', bs[4 + |f.value|..], priority)
  }

  /** The deployed 0.5 decoder: what it recovers from a whole message, or nothing. */
  function DecodeOld(message: Octets, password: Octets, priority: bool, l: Ledger): Option<Legacy> {
    if |message| < 6 + SIGNATURE_SIZE || message[..4] != PREAMBLE || GetU16(message[4..6]) != |message| - 6 then None
    else
      match ParseOld(Legacy(0, 0, [], 0), FieldArea(message), priority)
      case None => None
      case Some(g) =>
        if g.majorVer != VERSION_MAJOR || g.minorVer != VERSION_MINOR then None
        else match LegacyHash(password, g.publicKey)
          case None => None
          case Some(h) => if Verify(l, g.publicKey, h, message[|message| - SIGNATURE_SIZE..]) then Some(g) else None
  }

  function OldPart(m: Metadata, priority: bool): Legacy {
    Legacy(m.majorVer, m.minorVer, m.publicKey, if priority then m.priority else 0)
  }

  lemma StoreOldAgrees(m: Metadata, f: Field, priority: bool)
    requires Sized(f)
    ensures Store(m, f) != None && StoreOld(OldPart(m, priority), f, priority) == Some(OldPart(Store(m, f).value, priority))
  {
  }

  /** On well-sized fields the old parser keeps pace with the new one. */
  lemma {:induction false} OldParserAgrees(m: Metadata, fs: seq<Field>, priority: bool)
    requires AllSized(fs)
    ensures ParseOld(OldPart(m, priority), PrintFields(fs), priority) == Some(OldPart(StoreAll(m, fs), priority))
    decreases |fs|
  {
    hide Store, StoreOld, HasField, FirstField, PrintField;
    if fs != [] {
      assert fs[0] in fs && forall g | g in fs[1..] :: g in fs;
      FirstOfPrinted(fs[0], PrintFields(fs[1..]));
      StoreOldAgrees(m, fs[0], priority);
      OldParserAgrees(Store(m, fs[0]).value, fs[1..], priority);
    }
  }

  /** A 0.5 node reads the new hello: it recovers the same version and key, and
      the same priority if it cares for it, exactly when passwords and version match. */
  lemma OldNodeReadsNewHello(m: Metadata, nonce: Octets, ts: Octets, ls: Octets, password: Octets, theirs: Octets, priority: bool, l: Ledger)
    requires Ideal(l) && |m.publicKey| == KEY_SIZE && |nonce| == NONCE_SIZE && |ts| == |ls| == SIGNATURE_SIZE
    requires |password| <= MAX_PASSWORD && SignedBy(l, Encoded(m, nonce, ts, ls), ls, password)
    ensures DecodeOld(Encoded(m, nonce, ts, ls).wire, theirs, priority, l) ==
            if theirs == password && m.majorVer == VERSION_MAJOR && m.minorVer == VERSION_MINOR
            then Some(OldPart(m, priority)) else None
  {
    hide ParseFields, PrintFields, StoreAll, Decode, ParseOld;
    var e := Encoded(m, nonce, ts, ls);
    StoreHello(e, e.wire);
    PrintSizes(e);
    DecodeFrame(HelloFields(e), ls, [], theirs, l);
    OldParserAgrees(BLANK.(wire := e.wire), HelloFields(e), priority);
    FrameParts(PrintFields(HelloFields(e)), ls, []);
  }

  /** A current node reads a 0.5 hello: it is accepted exactly under the same password, and offers no confirmation. */
  lemma NewNodeReadsOldHello(m: Metadata, ls: Octets, rest: Octets, password: Octets, theirs: Octets, l: Ledger)
    requires Ideal(l) && |m.publicKey| == KEY_SIZE && |ls| == SIGNATURE_SIZE && |password| <= MAX_PASSWORD
    requires Verify(l, m.publicKey, LegacyHash(password, m.publicKey).value, ls)
    ensures |PrintFields(LegacyFields(m))| + |ls| < 0x1_0000
    ensures var wire := Frame(PrintFields(LegacyFields(m)), ls);
            var d := Decode(BLANK, wire + rest, theirs, l);
            && (d.err == None <==> theirs == password)
            && d.m == BLANK.(majorVer := m.majorVer, minorVer := m.minorVer, publicKey := m.publicKey, priority := m.priority, wire := wire)
            && !Supports(d.m) && d.rest == rest
  {
    hide ParseFields, PrintFields, StoreAll, Decode;
    PrintLegacy(m);
    StoreLegacy(m, Frame(PrintFields(LegacyFields(m)), ls));
    DecodeFrame(LegacyFields(m), ls, rest, theirs, l);
  }
}
