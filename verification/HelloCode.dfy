/** encode and decode as the source runs them: on a struct whose fields they
update, building or consuming byte slices step by step (src/core/version.go). */
module HelloCode {
  import opened Constants
  import opened Octets
  import opened Crypto
  import opened Results
  import opened Hello

  /** An io.Reader over the bytes that are left. */
  class Reader {
    var data: Octets

    constructor (data: Octets)
      ensures this.data == data
    {
      this.data := data;
    }

    /** io.ReadFull: all n bytes, or an error and whatever there was is gone. */
    method ReadFull(n: nat) returns (err: Option<Error>, bs: Octets)
      modifies this
      ensures n == 0 ==> err == None
      ensures n <= |old(data)| ==> err == None && bs == old(data)[..n] && data == old(data)[n..]
      ensures n > |old(data)| ==> err == Some(if old(data) == [] then Eof else UnexpectedEof) && data == []
    {
      if n <= |data| {
        err, bs := None, data[..n];
        data := data[n..];
      } else {
        err, bs := Some(if data == [] then Eof else UnexpectedEof), data;
        data := [];
      }
    }
  }

  class VersionMetadata {
    var majorVer: U16
    var minorVer: U16
    var publicKey: Octets
    var priority: Octet
    var nonce: Octets
    var capabilities: U32
    var transcriptSignature: Octets
    var wire: Octets

    function View(): Metadata
      reads this
    {
      Metadata(majorVer, minorVer, publicKey, priority, nonce, capabilities, transcriptSignature, wire)
    }

    constructor Blank()
      ensures View() == BLANK
    {
      majorVer, minorVer, publicKey, priority := 0, 0, [], 0;
      nonce, capabilities, transcriptSignature, wire := Zeros(NONCE_SIZE), 0, [], [];
    }

    /** Appends one field to a message under construction. */
    static method Append(bs: Octets, f: Field) returns (r: Octets)
      requires Printable(f)
      ensures r == bs + PrintField(f)
    {
      r := bs + PutU16(f.op);
      r := r + PutU16(|f.value|);
      r := r + f.value;
    }

    /** Appends the fields that are signed. */
    method AppendSigned(head: Octets) returns (bs: Octets)
      requires |publicKey| == KEY_SIZE && |nonce| == NONCE_SIZE
      ensures bs == head + PrintFields(SignedFields(View()))
    {
      hide PrintFields, PrintField;
      bs := Append(head, Field(MAJOR, PutU16(majorVer)));
      bs := Append(bs, Field(MINOR, PutU16(minorVer)));
      bs := Append(bs, Field(PUBLIC_KEY, publicKey));
      bs := Append(bs, Field(PRIORITY, [priority]));
      bs := Append(bs, Field(NONCE, nonce));
      bs := Append(bs, Field(CAPABILITIES, PutU32(capabilities)));
      PrintSigned(View());
    }

    /** The private key is its signing function and the nonce is what the random
        source delivered. A password no hash accepts stops the encoder after
        the nonce and the capabilities are set. */
    method Encode(sign: Digest -> Octets, random: Octets, password: Octets) returns (r: Option<Octets>)
      requires |publicKey| == KEY_SIZE && |random| == NONCE_SIZE && forall d :: |sign(d)| == SIGNATURE_SIZE
      modifies this
      ensures |password| > MAX_PASSWORD ==>
                r == None && View() == old(View()).(nonce := random, capabilities := CAPABILITY_CONFIRMATION)
      ensures |password| <= MAX_PASSWORD ==>
                var m := old(View()).(nonce := random, capabilities := CAPABILITY_CONFIRMATION);
                var ts := sign(HandshakeHash(password, PrintFields(SignedFields(m))).value);
                var ls := sign(LegacyHash(password, publicKey).value);
                View() == Encoded(old(View()), random, ts, ls) && r == Some(wire)
    {
      hide PrintFields, PrintField;
      nonce := random;
      capabilities := CAPABILITY_CONFIRMATION;
      var head: Octets := PREAMBLE + [0, 0];
      var bs := AppendSigned(head);
      ghost var m := View();
      ghost var signed := PrintFields(SignedFields(m));
      assert bs[6..] == signed;
      var hash := HandshakeHash(password, bs[6..]);
      if hash == None {
        return None;
      }
      transcriptSignature := sign(hash.value);
      bs := Append(bs, Field(TRANSCRIPT_SIGNATURE, transcriptSignature));
      var legacyHash := LegacyHash(password, publicKey);
      if legacyHash == None {
        return None;
      }
      bs := bs + sign(legacyHash.value);
      PrintSizes(View());
      assert SignedFields(View()) == SignedFields(m);
      ghost var fields := PrintFields(HelloFields(View()));
      FillLength(bs, head, fields, sign(legacyHash.value));
      bs := bs[..4] + PutU16(|bs| - 6) + bs[6..];
      wire := bs;
      return Some(bs);
    }

    /** decode, loop and all. On failure the receiver keeps what was stored so far. */
    method Decode(r: Reader, password: Octets, l: Ledger) returns (err: Option<Error>)
      modifies this, r
      ensures var d := Hello.Decode(old(View()), old(r.data), password, l);
              err == d.err && View() == d.m && r.data == d.rest
    {
      ghost var input := r.data;
      var e, bh := r.ReadFull(6);
      if e != None {
        return e;
      }
      if bh[..4] != PREAMBLE {
        assert input[..4] == bh[..4];
        return Some(InvalidPreamble);
      }
      var hl := GetU16(bh[4..6]);
      assert input[4..6] == bh[4..6] && input[..4] == bh[..4];
      if hl < SIGNATURE_SIZE {
        return Some(InvalidLength);
      }
      var e', bs := r.ReadFull(hl);
      if e' != None {
        return e';
      }
      wire := bh;
      wire := wire + bs;
      assert bs == input[6..6 + hl] && wire == input[..6 + hl] && r.data == input[6 + hl..];
      var sig := bs[|bs| - SIGNATURE_SIZE..];
      bs := bs[..|bs| - SIGNATURE_SIZE];
      ghost var goal := ParseFields(View(), [], bs, None);
      var signed: Option<Octets>;
      err, signed := DecodeFields(bs);
      if err != None {
        return err;
      }
      if |publicKey| != KEY_SIZE {
        return Some(InvalidLength);
      }
      var legacyHash := LegacyHash(password, publicKey);
      if legacyHash == None {
        return Some(InvalidPassword);
      }
      if !Verify(l, publicKey, legacyHash.value, sig) {
        return Some(InvalidSignature);
      }
      if Supports(View()) {
        if signed == None || |transcriptSignature| != SIGNATURE_SIZE {
          return Some(InvalidSignature);
        }
        var hash := HandshakeHash(password, signed.value);
        if hash == None {
          return Some(InvalidPassword);
        }
        if !Verify(l, publicKey, hash.value, transcriptSignature) {
          return Some(InvalidSignature);
        }
      }
      return None;
    }

    /** The switch over the field number. */
    method StoreField(op: U16, field: Octets) returns (ok: bool)
      modifies this
      ensures ok <==> Store(old(View()), Field(op, field)) != None
      ensures View() == if ok then Store(old(View()), Field(op, field)).value else old(View())
    {
      if op == MAJOR {
        if |field| != 2 { return false; }
        majorVer := GetU16(field);
      } else if op == MINOR {
        if |field| != 2 { return false; }
        minorVer := GetU16(field);
      } else if op == PUBLIC_KEY {
        if |field| != KEY_SIZE { return false; }
        publicKey := field;
      } else if op == PRIORITY {
        if |field| != 1 { return false; }
        priority := field[0];
      } else if op == NONCE {
        if |field| != NONCE_SIZE { return false; }
        nonce := field;
      } else if op == CAPABILITIES {
        if |field| != 4 { return false; }
        capabilities := GetU32(field);
      } else if op == TRANSCRIPT_SIGNATURE {
        if |field| != SIGNATURE_SIZE { return false; }
        transcriptSignature := field;
      }
      return true;
    }

    /** The loop over the fields. */
    method DecodeFields(allFields: Octets) returns (err: Option<Error>, signedFields: Option<Octets>)
      modifies this
      ensures var p := ParseFields(old(View()), [], allFields, None);
              View() == p.m && signedFields == p.signed && err == if p.ok then None else Some(InvalidLength)
    {
      hide Store, ParseFields;
      ghost var goal := ParseFields(View(), [], allFields, None);
      var bs, offset := allFields, 0;
      signedFields := None;
      while |bs| >= 4
        invariant 0 <= offset <= |allFields| && bs == allFields[offset..]
        invariant ParseFields(View(), allFields[..offset], bs, signedFields) == goal
        decreases |bs|
      {
        ghost var m, before := View(), allFields[..offset];
        if signedFields != None {
          ParseStops(m, before, bs, signedFields);
          return Some(InvalidLength), signedFields;
        }
        var op := GetU16(bs[..2]);
        var oplen := GetU16(bs[2..4]);
        if |bs| - 4 < oplen {
          ParseStops(m, before, bs, signedFields);
          return Some(InvalidLength), signedFields;
        }
        var field := bs[4..4 + oplen];
        assert FirstField(bs) == Field(op, field);
        var ok := StoreField(op, field);
        if !ok {
          ParseStops(m, before, bs, signedFields);
          return Some(InvalidLength), signedFields;
        }
        ParseContinues(m, before, bs, signedFields);
        if op == TRANSCRIPT_SIGNATURE {
          signedFields := Closed(allFields[..offset]);
        }
        assert before + bs[..4 + oplen] == allFields[..offset + 4 + oplen];
        bs := bs[4 + oplen..];
        offset := offset + 4 + oplen;
      }
      ParseStops(View(), allFields[..offset], bs, signedFields);
      err := if |bs| != 0 then Some(InvalidLength) else None;
    }
  }

  /** Where the field loop stops. */
  lemma ParseStops(m: Metadata, before: Octets, bs: Octets, signed: Option<Octets>)
    requires |bs| < 4 || signed != None || !HasField(bs) || Store(m, FirstField(bs)) == None
    ensures ParseFields(m, before, bs, signed) == Parsed(bs == [], m, signed)
  {
  }

  /** One round of the field loop. */
  lemma ParseContinues(m: Metadata, before: Octets, bs: Octets, signed: Option<Octets>)
    requires |bs| >= 4 && signed == None && HasField(bs) && Store(m, FirstField(bs)) != None
    ensures var f := FirstField(bs);
            var n := 4 + |f.value|;
            ParseFields(m, before, bs, signed) ==
            ParseFields(Store(m, f).value, before + bs[..n], bs[n..], if f.op == TRANSCRIPT_SIGNATURE then Closed(before) else signed)
  {
  }

  /** Writing the length into its place completes the frame. */
  lemma FillLength(bs: Octets, head: Octets, fields: Octets, sig: Octets)
    requires head == PREAMBLE + [0, 0] && bs == head + fields + sig && |fields| + |sig| < 0x1_0000
    ensures bs[..4] + PutU16(|bs| - 6) + bs[6..] == Frame(fields, sig)
  {
    assert bs[..4] == PREAMBLE && bs[6..] == fields + sig;
  }

  lemma PrintSigned(m: Metadata)
    requires |m.publicKey| == KEY_SIZE && |m.nonce| == NONCE_SIZE
    ensures PrintFields(SignedFields(m)) ==
            PrintField(Field(MAJOR, PutU16(m.majorVer))) + PrintField(Field(MINOR, PutU16(m.minorVer))) +
            PrintField(Field(PUBLIC_KEY, m.publicKey)) + PrintField(Field(PRIORITY, [m.priority])) +
            PrintField(Field(NONCE, m.nonce)) + PrintField(Field(CAPABILITIES, PutU32(m.capabilities)))
  {
    hide PrintFields, PrintField;
    var tail := [Field(NONCE, m.nonce), Field(CAPABILITIES, PutU32(m.capabilities))];
    PrintAppend(LegacyFields(m), tail);
    PrintLegacy(m);
    PrintTwo(tail[0], tail[1]);
  }
}
