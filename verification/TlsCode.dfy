/** tls_export_context and tls_import_context2 of src/extern/tlse.c. */
module TlsCode {
  import opened Bytes
  import opened Slices
  import opened TlsContext
  import opened TlsPacket

  datatype Status = Done | Failed | OutOfBounds

  class TLSContext {
    var version: u16
    var connectionStatus: byte
    var criticalError: byte
    var cipher: u16
    var isServer: byte
    var isChild: byte
    var cipherSpecSet: byte
    var crypto: Crypto
    var exportable: byte
    var exportableKeys: seq<byte>
    var masterKey: seq<byte>
    var localSequence: u64
    var remoteSequence: u64
    var tlsBuffer: seq<byte>
    var messageBuffer: seq<byte>
    var applicationBuffer: seq<byte>
    var dtls: byte
    var epochLocal: u16
    var epochRemote: u16

    ghost function Value(): Context
      reads this
    {
      Context(version, connectionStatus, criticalError, cipher, isServer, isChild, cipherSpecSet, crypto,
              exportable, exportableKeys, masterKey, localSequence, remoteSequence,
              tlsBuffer, messageBuffer, applicationBuffer, dtls, epochLocal, epochRemote)
    }

    /** tls_create_context. */
    constructor (server: byte, ver: u16)
      ensures Value() == Created(server, ver)
    {
      version, connectionStatus, criticalError, cipher, isServer, isChild, cipherSpecSet := ver, 0, 0, 0, server, 0, 0;
      crypto := Crypto(0, Unset, Unset, Zeros(MAX_MAC_SIZE), Zeros(MAX_MAC_SIZE));
      exportable, exportableKeys, masterKey, localSequence, remoteSequence := 0, [], [], 0, 0;
      tlsBuffer, messageBuffer, applicationBuffer := [], [], [];
      dtls, epochLocal, epochRemote := if ver in {0xFEFC, 0xFEFD, 0xFEFF} then 1 else 0, 0, 0;
    }

    // -------------------------------------------------------------------
    // Export

    method AppendIvs(p: TLSPacket)
      requires p.Valid() && Consistent(Value()) && p.len + |IvText(Value())| < 0x8000_0000
      modifies p, p.buf
      ensures p.Valid() && p.Contents() == old(p.Contents()) + IvText(Value())
      ensures p.buf == old(p.buf) || fresh(p.buf)
    {
      hide Consistent, AeadOf, MacLengthOf, LocalIv, RemoteIv;
      ghost var had, c := p.Contents(), Value();
      var local, remote := IvsOf();
      var n := if crypto.created == 2 then GCM_IV_LENGTH
               else if crypto.created == 3 then CHACHA20_IV_LENGTH else AES_IV_LENGTH;
      p.Uint8(n);
      var _ := p.Append(local);
      var _ := p.Append(remote);
      Regroup3(had, [n], local, remote);
    }

    /** The IVs of the active mode, out of shared memory or asked of libtomcrypt. */
    method IvsOf() returns (local: seq<byte>, remote: seq<byte>)
      requires Consistent(Value())
      ensures local == LocalIv(Value()) && remote == RemoteIv(Value())
    {
      hide AeadOf, MacLengthOf;
      if crypto.created == 2 {
        local, remote := crypto.localMac[..GCM_IV_LENGTH], crypto.remoteMac[..GCM_IV_LENGTH];
      } else if crypto.created == 3 {
        local, remote := crypto.localMac[..CHACHA20_IV_LENGTH], crypto.remoteMac[..CHACHA20_IV_LENGTH];
      } else {
        local, remote := crypto.localState.iv, crypto.remoteState.iv;
      }
    }

    method AppendWords(p: TLSPacket, words: seq<u32>)
      requires p.Valid() && p.len + 4 * |words| < 0x8000_0000
      modifies p, p.buf
      ensures p.Valid() && p.Contents() == old(p.Contents()) + WordsText(words)
      ensures p.buf == old(p.buf) || fresh(p.buf)
    {
      var i := 0;
      ghost var had := p.Contents();
      while i < |words|
        invariant 0 <= i <= |words| && p.Valid() && (p.buf == old(p.buf) || fresh(p.buf))
        invariant p.Contents() == had + WordsText(words[..i])
        modifies p, p.buf
      {
        assert words[..i + 1][..i] == words[..i];
        p.Uint32(words[i]);
        i := i + 1;
      }
      assert words[..i] == words;
    }

    method AppendMac(p: TLSPacket)
      requires p.Valid() && Consistent(Value()) && p.len + |MacText(Value())| < 0x8000_0000
      modifies p, p.buf
      ensures p.Valid() && p.Contents() == old(p.Contents()) + MacText(Value())
      ensures p.buf == old(p.buf) || fresh(p.buf)
    {
      hide AeadOf, MacLengthOf, WordsText;
      if crypto.created == 2 {
        p.Uint8(0);
      } else if crypto.created == 3 {
        AppendChaCha(p);
      } else {
        AppendMacKeys(p);
      }
    }

    method AppendChaCha(p: TLSPacket)
      requires p.Valid() && Consistent(Value()) && crypto.created == 3 && p.len + |MacText(Value())| < 0x8000_0000
      modifies p, p.buf
      ensures p.Valid() && p.Contents() == old(p.Contents()) + MacText(Value())
      ensures p.buf == old(p.buf) || fresh(p.buf)
    {
      hide AeadOf, MacLengthOf, WordsText;
      ghost var had, c := p.Contents(), Value();
      var l, r := crypto.localState, crypto.remoteState;
      p.Uint8(0);
      AppendWords(p, l.input);
      AppendWords(p, r.input);
      var _ := p.Append(l.ks);
      var _ := p.Append(r.ks);
      Regroup5(had, [0], WordsText(l.input), WordsText(r.input), l.ks, r.ks);
    }

    method AppendMacKeys(p: TLSPacket)
      requires p.Valid() && Consistent(Value()) && crypto.created == 1 && p.len + |MacText(Value())| < 0x8000_0000
      modifies p, p.buf
      ensures p.Valid() && p.Contents() == old(p.Contents()) + MacText(Value())
      ensures p.buf == old(p.buf) || fresh(p.buf)
    {
      hide AeadOf, MacLengthOf;
      ghost var had := p.Contents();
      var n := MacLengthOf(cipher);
      p.Uint8(n);
      var _ := p.Append(crypto.localMac[..n]);
      var _ := p.Append(crypto.remoteMac[..n]);
      Regroup5(had, [n], crypto.localMac[..n], crypto.remoteMac[..n], [], []);
    }

    method AppendCounted(p: TLSPacket, data: seq<byte>)
      requires p.Valid() && p.len + |Counted(data)| < 0x8000_0000
      modifies p, p.buf
      ensures p.Valid() && p.Contents() == old(p.Contents()) + Counted(data)
      ensures p.buf == old(p.buf) || fresh(p.buf)
    {
      hide BigEndian;
      p.Uint32(|data|);
      var _ := p.Append(data);
    }

    method AppendState(p: TLSPacket, small: bool)
      requires p.Valid() && Consistent(Value()) && p.len + |StateText(Value(), small)| < 0x8000_0000
      modifies p, p.buf
      ensures p.Valid() && p.Contents() == old(p.Contents()) + StateText(Value(), small)
      ensures p.buf == old(p.buf) || fresh(p.buf)
    {
      hide Consistent, MasterText, SequenceText, BuffersText;
      ghost var had, c := p.Contents(), Value();
      AppendMaster(p, small);
      AppendSequences(p);
      AppendBuffers(p);
      Regroup5(had, MasterText(c, small), SequenceText(c), BuffersText(c), [], []);
    }

    method AppendMaster(p: TLSPacket, small: bool)
      requires p.Valid() && Consistent(Value()) && p.len + |MasterText(Value(), small)| < 0x8000_0000
      modifies p, p.buf
      ensures p.Valid() && p.Contents() == old(p.Contents()) + MasterText(Value(), small)
      ensures p.buf == old(p.buf) || fresh(p.buf)
    {
      hide Consistent, BigEndian;
      if small {
        p.Uint16(0);
      } else {
        MasterFits(Value());
        p.Uint16(|masterKey|);
        var _ := p.Append(masterKey);
      }
    }

    method AppendSequences(p: TLSPacket)
      requires p.Valid() && p.len + |SequenceText(Value())| < 0x8000_0000
      modifies p, p.buf
      ensures p.Valid() && p.Contents() == old(p.Contents()) + SequenceText(Value())
      ensures p.buf == old(p.buf) || fresh(p.buf)
    {
      hide BigEndian;
      var _ := p.Append(BigEndian(localSequence, 8));
      var _ := p.Append(BigEndian(remoteSequence, 8));
    }

    method AppendBuffers(p: TLSPacket)
      requires p.Valid() && p.len + |BuffersText(Value())| < 0x8000_0000
      modifies p, p.buf
      ensures p.Valid() && p.Contents() == old(p.Contents()) + BuffersText(Value())
      ensures p.buf == old(p.buf) || fresh(p.buf)
    {
      hide Counted, DtlsText;
      ghost var had, c := p.Contents(), Value();
      AppendCounted(p, tlsBuffer);
      AppendCounted(p, messageBuffer);
      AppendCounted(p, applicationBuffer);
      AppendDtls(p);
      Regroup5(had, Counted(tlsBuffer), Counted(messageBuffer), Counted(applicationBuffer), DtlsText(c), []);
    }

    method AppendDtls(p: TLSPacket)
      requires p.Valid() && p.len + |DtlsText(Value())| < 0x8000_0000
      modifies p, p.buf
      ensures p.Valid() && p.Contents() == old(p.Contents()) + DtlsText(Value())
      ensures p.buf == old(p.buf) || fresh(p.buf)
    {
      hide BigEndian;
      p.Uint8(dtls);
      if dtls != 0 {
        p.Uint16(epochLocal);
        p.Uint16(epochRemote);
      }
    }

    method BuildPacket(small: bool) returns (p: TLSPacket)
      requires Consistent(Value()) && |Serialize(Value(), small)| < 0x8000_0000
      ensures p.Valid() && fresh(p) && fresh(p.buf) && p.Contents() == Serialize(Value(), small)
    {
      hide Consistent, PrefixText, IvText, KeyText, MacText, StateText, Body, Serialize, BigEndian;
      ghost var c := Value();
      p := new TLSPacket(SERIALIZED_OBJECT, version);
      ghost var head := p.Contents();
      SerializeLength(c, small);
      AppendFront(p);
      AppendMac(p);
      AppendState(p, small);
      BodyParts(c, small, head);
      p.Update();
      Headed(head, Body(c, small));
      SerializeParts(c, small);
    }

    method AppendFront(p: TLSPacket)
      requires p.Valid() && Consistent(Value())
      requires p.len + 5 + |IvText(Value())| + |KeyText(Value())| < 0x8000_0000
      modifies p, p.buf
      ensures p.Valid()
      ensures p.Contents() == ((old(p.Contents()) + PrefixText(Value())) + IvText(Value())) + KeyText(Value())
      ensures p.buf == old(p.buf) || fresh(p.buf)
    {
      hide Consistent, PrefixText, IvText, KeyText;
      AppendPrefix(p);
      AppendIvs(p);
      AppendKeys(p);
    }

    method AppendPrefix(p: TLSPacket)
      requires p.Valid() && p.len + 5 < 0x8000_0000
      modifies p, p.buf
      ensures p.Valid() && p.Contents() == old(p.Contents()) + PrefixText(Value())
      ensures p.buf == old(p.buf) || fresh(p.buf)
    {
      hide BigEndian;
      ghost var had := p.Contents();
      p.Uint8(0x01);
      p.Uint8(connectionStatus);
      p.Uint16(cipher);
      p.Uint8(if isChild != 0 then 2 else isServer);
      RegroupPrefix(had, 0x01, connectionStatus, BigEndian(cipher, 2), Role(Value()));
    }

    method AppendKeys(p: TLSPacket)
      requires p.Valid() && Consistent(Value()) && p.len + |KeyText(Value())| < 0x8000_0000
      modifies p, p.buf
      ensures p.Valid() && p.Contents() == old(p.Contents()) + KeyText(Value())
      ensures p.buf == old(p.buf) || fresh(p.buf)
    {
      hide AeadOf, MacLengthOf;
      p.Uint8(|exportableKeys|);
      var _ := p.Append(exportableKeys);
    }

    /** Writes the whole form or nothing, and returns its size, 0 when the context
        cannot be exported, or how many bytes the buffer is too short, negated. */
    method Export(buffer: array<byte>, small: bool) returns (ret: int)
      requires Exportable(Value()) ==> Consistent(Value()) && |Serialize(Value(), small)| < 0x8000_0000
      modifies buffer
      ensures !Exportable(Value()) ==> ret == 0 && buffer[..] == old(buffer[..])
      ensures Exportable(Value()) ==>
                var text := Serialize(Value(), small);
                if 0 < buffer.Length < |text| then ret == buffer.Length - |text| < 0 && buffer[..] == old(buffer[..])
                else ret == |text| && (buffer.Length > 0 ==> buffer[..] == Overlay(text, old(buffer[..])))
    {
      hide Consistent, Serialize, Overlay;
      if criticalError != 0 || connectionStatus != NEGOTIATED || exportable == 0 || |exportableKeys| == 0
         || crypto.created == 0 {
        return 0;
      }
      var packet := BuildPacket(small);
      var size := packet.len;
      assert packet.buf[..size] == Serialize(Value(), small);
      if buffer.Length > 0 {
        if size > buffer.Length {
          return buffer.Length - size;
        }
        Copy(buffer, packet.buf[..size]);
      }
      ret := size;
    }

    // -------------------------------------------------------------------
    // Import

    method ReadCounted(b: seq<byte>, pos: nat) returns (r: Field)
      ensures r == CountedAt(b, pos)
    {
      if pos + 4 > |b| {
        return Short;
      }
      var n := Word(b[pos..pos + 4]);
      if n >= 0x8000_0000 {
        return Beyond;
      }
      if pos + 4 + n > |b| {
        return Short;
      }
      r := Field(b[pos + 4..pos + 4 + n], pos + 4 + n);
    }

    /** What the import comes to; Overrun stands for reading beyond the buffer. */
    ghost predicate Gives(result: Status, o: Outcome)
      reads this
    {
      match o
      case Accepted(c) => result == Done && Value() == c
      case Rejected => result == Failed
      case Overrun => result == OutOfBounds
    }

    method ImportTlsBuffer(b: seq<byte>, pos: nat) returns (r: Status)
      modifies this
      ensures Gives(r, DecodeTls(old(Value()), b, pos))
    {
      hide CountedAt, DecodeMessage;
      var field := ReadCounted(b, pos);
      if !field.Field? {
        return if field.Short? then Failed else OutOfBounds;
      }
      if |field.data| > 0 {
        tlsBuffer := field.data;
      }
      r := ImportMessageBuffer(b, field.next);
    }

    method ImportMessageBuffer(b: seq<byte>, pos: nat) returns (r: Status)
      modifies this
      ensures Gives(r, DecodeMessage(old(Value()), b, pos))
    {
      hide CountedAt, DecodeApplication;
      var field := ReadCounted(b, pos);
      if !field.Field? {
        return if field.Short? then Failed else OutOfBounds;
      }
      if |field.data| > 0 {
        messageBuffer := field.data;
      }
      r := ImportApplicationBuffer(b, field.next);
    }

    method ImportApplicationBuffer(b: seq<byte>, pos: nat) returns (r: Status)
      modifies this
      ensures Gives(r, DecodeApplication(old(Value()), b, pos))
    {
      hide CountedAt, DecodeDtls;
      var field := ReadCounted(b, pos);
      if !field.Field? {
        return if field.Short? then Failed else OutOfBounds;
      }
      cipherSpecSet := 1;
      if |field.data| > 0 {
        applicationBuffer := field.data;
      }
      r := ImportDtls(b, field.next);
    }

    method ImportDtls(b: seq<byte>, pos: nat) returns (r: Status)
      modifies this
      ensures Gives(r, DecodeDtls(old(Value()), b, pos))
    {
      if pos + 1 > |b| {
        return Failed;
      }
      dtls := b[pos];
      if dtls != 0 {
        if pos + 5 > |b| {
          return Failed;
        }
        epochLocal := Half(b[pos + 1..pos + 3]);
        epochRemote := Half(b[pos + 3..pos + 5]);
      }
      r := Done;
    }

    method ImportSequences(b: seq<byte>, pos: nat) returns (r: Status)
      modifies this
      ensures Gives(r, DecodeSequences(old(Value()), b, pos))
    {
      hide DecodeTls, Long;
      if pos + 16 > |b| {
        return Failed;
      }
      localSequence := Long(b[pos..pos + 8]);
      remoteSequence := Long(b[pos + 8..pos + 16]);
      r := ImportTlsBuffer(b, pos + 16);
    }

    method ImportState(b: seq<byte>, start: nat) returns (r: Status)
      modifies this
      ensures Gives(r, DecodeMaster(old(Value()), b, start))
    {
      hide DecodeSequences, Half;
      var pos := start;
      if pos + 2 > |b| {
        return Failed;
      }
      var masterKeyLen := Half(b[pos..pos + 2]);
      pos := pos + 2;
      if pos + masterKeyLen > |b| {
        return Failed;
      }
      if masterKeyLen > 0 {
        masterKey := b[pos..pos + masterKeyLen];
        pos := pos + masterKeyLen;
      }
      r := ImportSequences(b, pos);
    }

    method ImportMac(b: seq<byte>, start: nat) returns (r: Status)
      requires |crypto.localMac| == |crypto.remoteMac| == MAX_MAC_SIZE
      modifies this
      ensures Gives(r, DecodeMac(old(Value()), b, start))
    {
      hide DecodeMaster, AeadOf, Words;
      if start >= |b| {
        return OutOfBounds;
      }
      var macLength: nat := b[start];
      var pos := start + 1;
      if macLength > MAX_MAC_SIZE {
        return Failed;
      }
      if macLength != 0 {
        if pos + macLength > |b| {
          return Failed;
        }
        crypto := crypto.(localMac := Overlay(b[pos..pos + macLength], crypto.localMac));
        pos := pos + macLength;
        if pos + macLength > |b| {
          return Failed;
        }
        crypto := crypto.(remoteMac := Overlay(b[pos..pos + macLength], crypto.remoteMac));
        pos := pos + macLength;
      } else if AeadOf(cipher) == 2 {
        if pos + 256 > |b| {
          return Failed;
        }
        ReadChaCha(b, pos);
        pos := pos + 256;
      }
      r := ImportState(b, pos);
    }

    method ReadChaCha(b: seq<byte>, start: nat)
      requires start + 256 <= |b|
      modifies this
      ensures Value() == old(Value()).(crypto := WithChaCha(old(crypto), b[start..start + 256]))
    {
      hide Words;
      ghost var s := b[start..start + 256];
      var local := ReadWords(b, start);
      var remote := ReadWords(b, start + 64);
      SubSlice(b, start, start + 256, 0, 64);
      SubSlice(b, start, start + 256, 64, 128);
      SubSlice(b, start, start + 256, 128, 192);
      SubSlice(b, start, start + 256, 192, 256);
      assert s[..64] == s[0..64] && s[192..] == s[192..256];
      crypto := crypto.(localState := ChaCha(local, b[start + 128..start + 192]),
                        remoteState := ChaCha(remote, b[start + 192..start + 256]));
    }

    /** The keys, and the ciphers set up with them; IVs that are shorter than the
        arrays on the stack leave the rest of those as it was. */
    method ImportKeys(b: seq<byte>, localStack: array<byte>, remoteStack: array<byte>) returns (r: Status)
      requires |b| >= 64 && |crypto.localMac| == |crypto.remoteMac| == MAX_MAC_SIZE
      requires localStack.Length == remoteStack.Length == AES_IV_LENGTH && localStack != remoteStack
      modifies this, localStack, remoteStack
      ensures Gives(r, DecodeKeys(old(Value()), b, old(localStack[..]), old(remoteStack[..])))
    {
      hide DecodeMac, AeadOf, SetUp;
      var ivLen: nat := b[10];
      if ivLen > AES_IV_LENGTH {
        return Failed;
      }
      Copy(localStack, b[11..11 + ivLen]);
      Copy(remoteStack, b[11 + ivLen..11 + 2 * ivLen]);
      var pos := 11 + 2 * ivLen;
      var keyLengths: nat := b[pos];
      pos := pos + 1;
      if pos + keyLengths > |b| {
        return Failed;
      }
      var temp := b[pos..pos + keyLengths];
      pos := pos + keyLengths;
      ghost var localIv, remoteIv := b[11..11 + ivLen], b[11 + ivLen..11 + 2 * ivLen];
      assert localStack[..][..ivLen] == localIv && remoteStack[..][..ivLen] == remoteIv;
      SetUpDecides(old(Value()), localIv, remoteIv, temp, old(localStack[..]), old(remoteStack[..]));
      var done := SetUpCiphers(temp, ivLen, localStack[..], remoteStack[..], old(localStack[..]), old(remoteStack[..]));
      if !done {
        return Failed;
      }
      r := ImportMac(b, pos);
    }

    /** libtomcrypt takes AES keys of 16, 24 or 32 bytes. */
    method SetUpCiphers(temp: seq<byte>, ivLen: nat, localIv: seq<byte>, remoteIv: seq<byte>,
                        ghost localStack: seq<byte>, ghost remoteStack: seq<byte>) returns (done: bool)
      requires |localIv| == |remoteIv| == |localStack| == |remoteStack| == AES_IV_LENGTH && ivLen <= AES_IV_LENGTH
      requires localIv == Overlay(localIv[..ivLen], localStack) && remoteIv == Overlay(remoteIv[..ivLen], remoteStack)
      requires |crypto.localMac| == |crypto.remoteMac| == MAX_MAC_SIZE
      modifies this
      ensures var o := SetUp(old(Value()), localIv[..ivLen], remoteIv[..ivLen], temp, localStack, remoteStack);
        done == o.Accepted?
      ensures var o := SetUp(old(Value()), localIv[..ivLen], remoteIv[..ivLen], temp, localStack, remoteStack);
        done ==> Value() == o.c
      ensures |crypto.localMac| == |crypto.remoteMac| == MAX_MAC_SIZE
    {
      hide AeadOf, WithIvs, Overlay;
      exportable, exportableKeys := 1, temp;
      StoreIvs(ivLen, localIv, remoteIv);
      assert Value().cipher == old(Value()).cipher && Value().isServer == old(Value()).isServer;
      SetUpAccepts(old(Value()), localIv[..ivLen], remoteIv[..ivLen], temp, localStack, remoteStack);
      IvsOnly(old(Value()), temp, localIv[..ivLen], remoteIv[..ivLen]);
      var half := |temp| / 2;
      if isServer != 0 {
        done := CryptoCreate(temp[..half], localIv, temp[half..2 * half], remoteIv);
      } else {
        done := CryptoCreate(temp[half..2 * half], remoteIv, temp[..half], localIv);
      }
    }

    /** The IVs go to the memory they share with the MAC keys. */
    method StoreIvs(ivLen: nat, localIv: seq<byte>, remoteIv: seq<byte>)
      requires |localIv| == |remoteIv| == AES_IV_LENGTH && ivLen <= AES_IV_LENGTH
      requires |crypto.localMac| == |crypto.remoteMac| == MAX_MAC_SIZE
      modifies this`crypto
      ensures Value() == WithIvs(old(Value()), localIv[..ivLen], remoteIv[..ivLen])
    {
      hide AeadOf, Overlay;
      var aead := AeadOf(cipher);
      var n := ivLen;
      if aead != 0 {
        if n > (if aead == 2 then CHACHA20_IV_LENGTH else GCM_IV_LENGTH) {
          n := if aead == 2 then CHACHA20_IV_LENGTH else GCM_IV_LENGTH;
        }
        crypto := crypto.(localMac := Overlay(localIv[..n], crypto.localMac),
                          remoteMac := Overlay(remoteIv[..n], crypto.remoteMac));
        assert localIv[..n] == localIv[..ivLen][..n] && remoteIv[..n] == remoteIv[..ivLen][..n];
      } else {
        assert localIv[..ivLen][..0] == [] && remoteIv[..ivLen][..0] == [];
        OverlayNone(crypto.localMac);
        OverlayNone(crypto.remoteMac);
      }
    }

    method CryptoCreate(localKey: seq<byte>, localIv: seq<byte>, remoteKey: seq<byte>, remoteIv: seq<byte>)
      returns (done: bool)
      requires |localKey| == |remoteKey|
      modifies this`crypto
      ensures done == (AeadOf(cipher) == 2 || KeySize(|localKey|))
      ensures done ==>
                Value() == old(Value()).(crypto := old(crypto).(created := 1 + AeadOf(cipher),
                  localState := Keyed(localKey, if AeadOf(cipher) == 1 then [] else localIv),
                  remoteState := Keyed(remoteKey, if AeadOf(cipher) == 1 then [] else remoteIv)))
      ensures crypto.localMac == old(crypto.localMac) && crypto.remoteMac == old(crypto.remoteMac)
    {
      hide AeadOf;
      crypto := crypto.(created := 0);
      var aead := AeadOf(cipher);
      if aead != 2 && !KeySize(|localKey|) {
        return false;
      }
      crypto := crypto.(localState := Keyed(localKey, if aead == 1 then [] else localIv),
                        remoteState := Keyed(remoteKey, if aead == 1 then [] else remoteIv));
      crypto := crypto.(created := 1 + aead);
      done := true;
    }

    method ImportPrefix(b: seq<byte>)
      requires |b| >= 64 && version == Half(b[1..3])
      modifies this
      ensures Value() == WithPrefix(old(Value()), b)
    {
      hide Half;
      connectionStatus := b[6];
      cipher := Half(b[7..9]);
      var server := b[9];
      if server == 2 {
        isServer := 1;
        isChild := 1;
      } else {
        isServer := server;
      }
    }

    /** tls_import_context2.  On failure the fields are left half filled. */
    method Import(b: seq<byte>, localStack: array<byte>, remoteStack: array<byte>) returns (r: Status)
      requires |crypto.localMac| == |crypto.remoteMac| == MAX_MAC_SIZE
      requires localStack.Length == remoteStack.Length == AES_IV_LENGTH && localStack != remoteStack
      modifies this, localStack, remoteStack
      ensures Gives(r, Decode(old(Value()), b, old(localStack[..]), old(remoteStack[..])))
    {
      hide DecodeKeys, Half, FromBigEndian, DecodeMac;
      if |b| < 64 || b[0] != SERIALIZED_OBJECT || b[5] != 0x01 {
        return Failed;
      }
      version := Half(b[1..3]);
      var length := Half(b[3..5]);
      if length as int != |b| - 5 {
        return Failed;
      }
      ImportPrefix(b);
      assert Value() == WithPrefix(old(Value()), b);
      r := ImportKeys(b, localStack, remoteStack);
    }
  }

  lemma SubSlice(s: seq<byte>, from: nat, end: nat, i: nat, j: nat)
    requires from <= end <= |s| && i <= j <= end - from
    ensures s[from..end][i..j] == s[from + i..from + j]
  {
    forall k | 0 <= k < j - i ensures s[from..end][i..j][k] == s[from + i..from + j][k] {
      assert s[from..end][i + k] == s[from + i + k];
    }
  }

  lemma RegroupPrefix(had: seq<byte>, a: byte, b: byte, c: seq<byte>, d: byte)
    ensures had + [a] + [b] + c + [d] == had + ([a, b] + c + [d])
  {
  }

  /** Storing the IVs changes nothing else, whenever it happens. */
  lemma IvsOnly(c: Context, keys: seq<byte>, localIv: seq<byte>, remoteIv: seq<byte>)
    requires |localIv| == |remoteIv| <= AES_IV_LENGTH
    requires |c.crypto.localMac| == |c.crypto.remoteMac| == MAX_MAC_SIZE
    ensures var k := WithIvs(c, localIv, remoteIv).crypto;
      && WithIvs(c.(exportable := 1, exportableKeys := keys), localIv, remoteIv)
         == c.(exportable := 1, exportableKeys := keys, crypto := k)
      && k == c.crypto.(localMac := k.localMac, remoteMac := k.remoteMac)
  {
  }

  lemma SetUpAccepts(c: Context, localIv: seq<byte>, remoteIv: seq<byte>, keys: seq<byte>,
                     localStack: seq<byte>, remoteStack: seq<byte>)
    requires |localIv| == |remoteIv| <= |localStack| == |remoteStack| == AES_IV_LENGTH
    requires |c.crypto.localMac| == |c.crypto.remoteMac| == MAX_MAC_SIZE
    ensures SetUp(c, localIv, remoteIv, keys, localStack, remoteStack).Accepted?
         == (AeadOf(c.cipher) == 2 || KeySize(|keys| / 2))
  {
    hide AeadOf;
  }

  /** Appending from left to right, and the text as it is read. */
  lemma Regroup5(had: seq<byte>, a: seq<byte>, b: seq<byte>, c: seq<byte>, d: seq<byte>, e: seq<byte>)
    ensures ((((had + a) + b) + c) + d) + e == had + (a + (b + c + d + e))
    ensures b + c + d + e == (b + c) + d + e == b + (c + (d + e))
    ensures e == [] ==> d + e == d
    ensures e == [] ==> ((((had + a) + b) + c) + d) == had + (a + ((b + c) + d)) == had + (a + (b + (c + d)))
    ensures e == [] && d == [] ==> ((had + a) + b) + c == had + (a + (b + c))
  {
  }

  lemma Regroup3(had: seq<byte>, a: seq<byte>, b: seq<byte>, c: seq<byte>)
    ensures ((had + a) + b) + c == had + (a + b + c)
  {
  }

  lemma BodyParts(c: Context, small: bool, head: seq<byte>)
    requires Consistent(c)
    ensures ((((head + PrefixText(c)) + IvText(c)) + KeyText(c)) + MacText(c)) + StateText(c, small)
         == head + Body(c, small)
  {
    hide Consistent, PrefixText, IvText, KeyText, MacText, StateText;
    Regroup6(head, PrefixText(c), IvText(c), KeyText(c), MacText(c), StateText(c, small));
  }

  lemma SerializeParts(c: Context, small: bool)
    requires Consistent(c)
    ensures Serialize(c, small) == ([SERIALIZED_OBJECT] + BigEndian(c.version, 2))
                                   + BigEndian(|Body(c, small)| % 0x1_0000, 2) + Body(c, small)
  {
  }

  lemma SerializeLength(c: Context, small: bool)
    requires Consistent(c)
    ensures |Serialize(c, small)|
         == 10 + |IvText(c)| + |KeyText(c)| + |MacText(c)| + |StateText(c, small)|
  {
    hide Consistent, IvText, KeyText, MacText, StateText;
  }

  lemma MasterFits(c: Context)
    requires Consistent(c)
    ensures |c.masterKey| < 0x1_0000
  {
  }

  lemma Regroup6(h: seq<byte>, a: seq<byte>, b: seq<byte>, c: seq<byte>, d: seq<byte>, e: seq<byte>)
    ensures ((((h + a) + b) + c) + d) + e == h + (a + (b + (c + (d + e))))
  {
  }

  /** Filling in the length leaves the kind, the version and the body. */
  lemma Headed(head: seq<byte>, body: seq<byte>)
    requires |head| == 5
    ensures (head + body)[..3] == head[..3] && (head + body)[5..] == body
  {
  }

  lemma OverlayOne(data: seq<byte>, had: seq<byte>, i: nat)
    requires i < |data| <= |had|
    ensures Overlay(data[..i], had)[i := data[i]] == Overlay(data[..i + 1], had)
  {
    assert data[..i + 1] == data[..i] + [data[i]];
    assert had[i..] == [had[i]] + had[i + 1..];
  }

  /** memcpy to the front of an array. */
  method Copy(dst: array<byte>, data: seq<byte>)
    requires |data| <= dst.Length
    modifies dst
    ensures dst[..] == Overlay(data, old(dst[..]))
  {
    hide Overlay;
    var i := 0;
    ghost var had := dst[..];
    OverlayNone(had);
    assert data[..0] == [];
    while i < |data|
      invariant 0 <= i <= |data| && dst[..] == Overlay(data[..i], had)
    {
      ghost var now := dst[..];
      OverlayOne(data, had, i);
      dst[i] := data[i];
      assert dst[..] == now[i := data[i]];
      i := i + 1;
    }
    assert data[..i] == data;
  }

  method ReadWords(b: seq<byte>, start: nat) returns (w: seq<u32>)
    requires start + 64 <= |b|
    ensures w == Words(b[start..start + 64]) && |w| == 16
  {
    hide Word;
    w := [];
    var i, pos := 0, start;
    while i < 16
      invariant 0 <= i <= 16 && pos == start + 4 * i && |w| == i
      invariant w == Words(b[start..pos])
    {
      ghost var s := b[start..pos + 4];
      assert s[..|s| - 4] == b[start..pos] && s[|s| - 4..] == b[pos..pos + 4];
      w := w + [Word(b[pos..pos + 4])];
      i, pos := i + 1, pos + 4;
    }
  }
}
