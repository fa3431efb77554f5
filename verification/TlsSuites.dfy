/** What a hop keeps of a server context, cipher suite by cipher suite: the suites by
    their numbers, and the sizes of keys, IVs and MAC keys in bytes (appendices A.5
    and C of RFC 5246, RFC 5288, RFC 5289 and RFC 7905). */
module TlsSuites {
  import opened Bytes
  import opened Slices
  import opened TlsContext
  import opened TlsRoundTrip

  /** RSA, DHE_RSA, ECDHE_ECDSA and ECDHE_RSA with AES-128 or AES-256 in GCM. */
  predicate GcmSuite(suite: u16)
  {
    || suite == 0x009C || suite == 0x009D || suite == 0x009E || suite == 0x009F
    || suite == 0xC02B || suite == 0xC02C || suite == 0xC02F || suite == 0xC030
  }

  /** ECDHE_RSA, ECDHE_ECDSA and DHE_RSA with ChaCha20-Poly1305. */
  predicate ChaChaSuite(suite: u16) { suite == 0xCCA8 || suite == 0xCCA9 || suite == 0xCCAA }

  /** The bytes of a MAC key of a CBC suite: with SHA-1, SHA-256 and SHA-384. */
  predicate CbcSuite(suite: u16, mac: nat)
  {
    || (mac == 20 && (suite == 0x002F || suite == 0x0033 || suite == 0x0035 || suite == 0x0039
                      || suite == 0xC009 || suite == 0xC00A || suite == 0xC013 || suite == 0xC014))
    || (mac == 32 && (suite == 0x003C || suite == 0x003D || suite == 0x0067 || suite == 0x006B
                      || suite == 0xC023 || suite == 0xC027))
    || (mac == 48 && suite == 0xC024)
  }

  /** A negotiated server context, apart from its cipher. */
  predicate Serving(c: Context)
  {
    && c.isServer == 1 && c.isChild <= 1 && c.criticalError == 0 && c.connectionStatus == 0xFF && c.exportable != 0
    && |c.masterKey| < 0x1_0000
    && |c.tlsBuffer| < 0x8000_0000 && |c.messageBuffer| < 0x8000_0000 && |c.applicationBuffer| < 0x8000_0000
  }

  predicate AesKeys(local: seq<byte>, remote: seq<byte>)
  {
    |local| == |remote| && (|local| == 16 || |local| == 32)
  }

  /** What a hop leaves of the rest of a context. */
  predicate SameSession(c: Context, t: Context)
  {
    && t.version == c.version && t.cipher == c.cipher && t.isServer == 1 && t.isChild == c.isChild
    && t.exportableKeys == c.exportableKeys
    && t.localSequence == c.localSequence && t.remoteSequence == c.remoteSequence
    && t.tlsBuffer == c.tlsBuffer && t.messageBuffer == c.messageBuffer && t.applicationBuffer == c.applicationBuffer
  }

  /** A hop of a GCM context: its keys, its four-byte salts, and GCM. */
  lemma GcmHop(c: Context, local: seq<byte>, remote: seq<byte>, localSalt: seq<byte>, remoteSalt: seq<byte>,
               ls: seq<byte>, rs: seq<byte>)
    requires Serving(c) && GcmSuite(c.cipher) && AesKeys(local, remote) && c.exportableKeys == local + remote
    requires |localSalt| == |remoteSalt| == 4 && |c.crypto.localMac| == |c.crypto.remoteMac| == 48
    requires c.crypto.created == 2
    requires c.crypto.localState == Keyed(local, []) && c.crypto.remoteState == Keyed(remote, [])
    requires localSalt <= c.crypto.localMac && remoteSalt <= c.crypto.remoteMac && |ls| == |rs| == 16
    ensures Consistent(c) && Exportable(c)
    ensures |Serialize(c, true)| <= 0x1_0004 ==>
      var r := Decode(Created(1, 0x0303), Serialize(c, true), ls, rs);
      && r.Accepted? && SameSession(c, r.c) && r.c.crypto.created == 2
      && r.c.crypto.localState == Keyed(local, []) && r.c.crypto.remoteState == Keyed(remote, [])
      && localSalt <= r.c.crypto.localMac && remoteSalt <= r.c.crypto.remoteMac
  {
    hide Serialize, Decode;
    assert AeadOf(c.cipher) == 1;
    hide AeadOf, MacLengthOf;
    Hop(c, true, 1, 0x0303, ls, rs);
    if |Serialize(c, true)| <= 0x1_0004 {
      SameViewFields(c, Decode(Created(1, 0x0303), Serialize(c, true), ls, rs).c);
    }
  }

  lemma SameViewFields(c: Context, t: Context)
    requires MacSizes(c.crypto) && MacSizes(t.crypto) && 1 <= c.crypto.created <= 3 && 1 <= t.crypto.created <= 3
    requires View(t, true) == View(c, true) && c.isServer == 1
    ensures SameSession(c, t) && t.crypto.created == c.crypto.created
    ensures t.crypto.localState == c.crypto.localState && t.crypto.remoteState == c.crypto.remoteState
    ensures Used(t, t.crypto.localMac) == Used(c, c.crypto.localMac)
    ensures Used(t, t.crypto.remoteMac) == Used(c, c.crypto.remoteMac)
  {
    hide Used;
    var v, w := View(t, true), View(c, true);
    assert v.version == w.version && v.cipher == w.cipher && v.crypto == w.crypto;
    assert v.isServer == w.isServer && v.isChild == w.isChild;
    assert v.exportableKeys == w.exportableKeys && v.localSequence == w.localSequence;
    assert v.remoteSequence == w.remoteSequence && v.tlsBuffer == w.tlsBuffer;
    assert v.messageBuffer == w.messageBuffer && v.applicationBuffer == w.applicationBuffer;
  }

  /** A hop of a ChaCha20 context: its two states and its twelve-byte nonces. */
  lemma ChaChaHop(c: Context, localNonce: seq<byte>, remoteNonce: seq<byte>, ls: seq<byte>, rs: seq<byte>)
    requires Serving(c) && ChaChaSuite(c.cipher) && 0 < |c.exportableKeys| < 0x100
    requires |localNonce| == |remoteNonce| == 12 && |c.crypto.localMac| == |c.crypto.remoteMac| == 48
    requires c.crypto.created == 3 && c.crypto.localState.ChaCha? && c.crypto.remoteState.ChaCha?
    requires |c.crypto.localState.input| == |c.crypto.remoteState.input| == 16
    requires |c.crypto.localState.ks| == |c.crypto.remoteState.ks| == 64
    requires localNonce <= c.crypto.localMac && remoteNonce <= c.crypto.remoteMac && |ls| == |rs| == 16
    ensures Consistent(c) && Exportable(c)
    ensures |Serialize(c, true)| <= 0x1_0004 ==>
      var r := Decode(Created(1, 0x0303), Serialize(c, true), ls, rs);
      && r.Accepted? && SameSession(c, r.c) && r.c.crypto.created == 3
      && r.c.crypto.localState == c.crypto.localState && r.c.crypto.remoteState == c.crypto.remoteState
      && localNonce <= r.c.crypto.localMac && remoteNonce <= r.c.crypto.remoteMac
  {
    hide Serialize, Decode;
    assert AeadOf(c.cipher) == 2;
    hide AeadOf, MacLengthOf;
    Hop(c, true, 1, 0x0303, ls, rs);
    if |Serialize(c, true)| <= 0x1_0004 {
      SameViewFields(c, Decode(Created(1, 0x0303), Serialize(c, true), ls, rs).c);
    }
  }

  /** A hop of a CBC context: its keys, its running IVs and its whole MAC keys. */
  lemma CbcHop(c: Context, local: seq<byte>, remote: seq<byte>, localIv: seq<byte>, remoteIv: seq<byte>,
               localMac: seq<byte>, remoteMac: seq<byte>, ls: seq<byte>, rs: seq<byte>)
    requires Serving(c) && |localMac| == |remoteMac| && CbcSuite(c.cipher, |localMac|)
    requires AesKeys(local, remote) && c.exportableKeys == local + remote
    requires |localIv| == |remoteIv| == 16 && |c.crypto.localMac| == |c.crypto.remoteMac| == 48
    requires c.crypto.created == 1
    requires c.crypto.localState == Keyed(local, localIv) && c.crypto.remoteState == Keyed(remote, remoteIv)
    requires localMac <= c.crypto.localMac && remoteMac <= c.crypto.remoteMac && |ls| == |rs| == 16
    ensures Consistent(c) && Exportable(c)
    ensures |Serialize(c, true)| <= 0x1_0004 ==>
      var r := Decode(Created(1, 0x0303), Serialize(c, true), ls, rs);
      && r.Accepted? && SameSession(c, r.c) && r.c.crypto.created == 1
      && r.c.crypto.localState == Keyed(local, localIv) && r.c.crypto.remoteState == Keyed(remote, remoteIv)
      && localMac <= r.c.crypto.localMac && remoteMac <= r.c.crypto.remoteMac
  {
    hide Serialize, Decode;
    assert AeadOf(c.cipher) == 0 && MacLengthOf(c.cipher) == |localMac|;
    hide AeadOf, MacLengthOf;
    Hop(c, true, 1, 0x0303, ls, rs);
    if |Serialize(c, true)| <= 0x1_0004 {
      SameViewFields(c, Decode(Created(1, 0x0303), Serialize(c, true), ls, rs).c);
    }
  }

  // ---------------------------------------------------------------------
  // What goes over the wire

  /** A server context byte by byte: the header, the IVs, the keys, and behind
      `macSize` bytes no master key, the sequence numbers, the buffers, and the DTLS
      mark, with the epochs if there is one. */
  predicate Laid(b: seq<byte>, c: Context, localIv: seq<byte>, remoteIv: seq<byte>, macSize: nat)
    requires |localIv| == |remoteIv| < 0x100 && |c.exportableKeys| < 0x100 && 5 <= |b| <= 0x1_0004
  {
    var size, keys := |b| - 5, 11 + 2 * |localIv|;
    var state := keys + 1 + |c.exportableKeys| + macSize;
    && Holds(b, 0, [0xFE, c.version / 0x100, c.version % 0x100, size / 0x100, size % 0x100])
    && Holds(b, 5, [0x01, 0xFF, c.cipher / 0x100, c.cipher % 0x100, if c.isChild == 0 then 1 else 2])
    && Holds(b, 10, [|localIv|]) && Holds(b, 11, localIv) && Holds(b, 11 + |localIv|, remoteIv)
    && Holds(b, keys, [|c.exportableKeys|]) && Holds(b, keys + 1, c.exportableKeys)
    && Holds(b, state, [0, 0])
    && Holds(b, state + 2, BigEndian(c.localSequence, 8)) && Holds(b, state + 10, BigEndian(c.remoteSequence, 8))
    && BuffersLaid(b, c, state + 18)
  }

  /** Records, message and data, each behind its size, up to the end. */
  predicate BuffersLaid(b: seq<byte>, c: Context, pos: nat)
  {
    var message := pos + 4 + |c.tlsBuffer|;
    var application := message + 4 + |c.messageBuffer|;
    var dtls := application + 4 + |c.applicationBuffer|;
    && Holds(b, pos, BigEndian(|c.tlsBuffer|, 4)) && Holds(b, pos + 4, c.tlsBuffer)
    && Holds(b, message, BigEndian(|c.messageBuffer|, 4)) && Holds(b, message + 4, c.messageBuffer)
    && Holds(b, application, BigEndian(|c.applicationBuffer|, 4)) && Holds(b, application + 4, c.applicationBuffer)
    && Holds(b, dtls, [c.dtls])
    && (if c.dtls == 0 then |b| == dtls + 1
        else
          && Holds(b, dtls + 1, [c.epochLocal / 0x100, c.epochLocal % 0x100])
          && Holds(b, dtls + 3, [c.epochRemote / 0x100, c.epochRemote % 0x100]) && |b| == dtls + 5)
  }

  /** A GCM context: four-byte salts, and nothing for a MAC. */
  lemma GcmText(c: Context, localSalt: seq<byte>, remoteSalt: seq<byte>)
    requires Consistent(c) && Serving(c) && GcmSuite(c.cipher) && |Serialize(c, true)| <= 0x1_0004
    requires |localSalt| == |remoteSalt| == 4 && localSalt <= c.crypto.localMac && remoteSalt <= c.crypto.remoteMac
    ensures |c.exportableKeys| < 0x100 && Laid(Serialize(c, true), c, localSalt, remoteSalt, 1)
    ensures Holds(Serialize(c, true), 20 + |c.exportableKeys|, [0])
  {
    hide Serialize, Laid, Holds, Serving;
    assert LocalIv(c) == localSalt && RemoteIv(c) == remoteSalt && MacText(c) == [0] && |c.exportableKeys| < 0x100;
    hide AeadOf, MacLengthOf, Consistent, LocalIv, RemoteIv, MacText, GcmSuite;
    TextIs(c, localSalt, remoteSalt);
  }

  /** A ChaCha20 context: twelve-byte nonces, and the two states, each of sixteen
      words and a block of key stream. */
  lemma ChaChaText(c: Context, localNonce: seq<byte>, remoteNonce: seq<byte>, i: nat)
    requires Consistent(c) && Serving(c) && ChaChaSuite(c.cipher) && |Serialize(c, true)| <= 0x1_0004
    requires |localNonce| == |remoteNonce| == 12 && localNonce <= c.crypto.localMac
    requires remoteNonce <= c.crypto.remoteMac && i < 16
    ensures |c.exportableKeys| < 0x100 && Laid(Serialize(c, true), c, localNonce, remoteNonce, 257)
    ensures c.crypto.localState.ChaCha? && c.crypto.remoteState.ChaCha?
    ensures var b, mac, k := Serialize(c, true), 36 + |c.exportableKeys|, c.crypto;
      && Holds(b, mac, [0]) && |k.localState.input| == |k.remoteState.input| == 16
      && Holds(b, mac + 1 + 4 * i, BigEndian(k.localState.input[i], 4))
      && Holds(b, mac + 65 + 4 * i, BigEndian(k.remoteState.input[i], 4))
      && Holds(b, mac + 129, k.localState.ks) && Holds(b, mac + 193, k.remoteState.ks)
  {
    hide Serialize, Laid, Holds, WordsText, Serving;
    assert AeadOf(c.cipher) == 2;
    hide AeadOf, MacLengthOf;
    var b, mac, k := Serialize(c, true), 36 + |c.exportableKeys|, c.crypto;
    assert LocalIv(c) == localNonce && RemoteIv(c) == remoteNonce && |c.exportableKeys| < 0x100;
    var l, r := WordsText(k.localState.input), WordsText(k.remoteState.input);
    var ls, rs := k.localState.ks, k.remoteState.ks;
    assert MacText(c) == [0] + (l + (r + (ls + rs))) by { Nested(l, r, ls, rs); }
    assert |k.localState.input| == |k.remoteState.input| == 16 && |ls| == |rs| == 64;
    hide Consistent, LocalIv, RemoteIv, MacText, ChaChaSuite;
    TextIs(c, localNonce, remoteNonce);
    HoldsSplit(b, mac, [0], l + (r + (ls + rs)));
    HoldsSplit(b, mac + 1, l, r + (ls + rs));
    HoldsSplit(b, mac + 65, r, ls + rs);
    HoldsSplit(b, mac + 129, ls, rs);
    WordHeld(b, mac + 1, k.localState.input, i);
    WordHeld(b, mac + 65, k.remoteState.input, i);
  }

  lemma Nested(a: seq<byte>, b: seq<byte>, c: seq<byte>, d: seq<byte>)
    ensures a + b + c + d == a + (b + (c + d))
  {
  }

  lemma {:induction false} WordHeld(b: seq<byte>, pos: nat, words: seq<u32>, i: nat)
    requires Holds(b, pos, WordsText(words)) && i < |words|
    ensures Holds(b, pos + 4 * i, BigEndian(words[i], 4))
  {
    hide Holds, BigEndian;
    var last := |words| - 1;
    HoldsSplit(b, pos, WordsText(words[..last]), BigEndian(words[last], 4));
    if i < last {
      WordHeld(b, pos, words[..last], i);
    }
  }

  /** A CBC context: the running IVs, and both MAC keys behind the size of one. */
  lemma CbcText(c: Context, localMac: seq<byte>, remoteMac: seq<byte>)
    requires Consistent(c) && Serving(c) && |Serialize(c, true)| <= 0x1_0004
    requires |localMac| == |remoteMac| && CbcSuite(c.cipher, |localMac|)
    requires localMac <= c.crypto.localMac && remoteMac <= c.crypto.remoteMac
    ensures c.crypto.localState.Keyed? && c.crypto.remoteState.Keyed? && |c.exportableKeys| < 0x100
    ensures |c.crypto.localState.iv| == |c.crypto.remoteState.iv| == 16
    ensures var b, mac, n := Serialize(c, true), 44 + |c.exportableKeys|, |localMac|;
      && Laid(b, c, c.crypto.localState.iv, c.crypto.remoteState.iv, 1 + 2 * n)
      && Holds(b, mac, [n]) && Holds(b, mac + 1, localMac) && Holds(b, mac + 1 + n, remoteMac)
  {
    hide Serialize, Laid, Holds, Serving;
    assert AeadOf(c.cipher) == 0 && MacLengthOf(c.cipher) == |localMac|;
    hide AeadOf, MacLengthOf;
    var b, mac, n := Serialize(c, true), 44 + |c.exportableKeys|, |localMac|;
    assert LocalIv(c) == c.crypto.localState.iv && RemoteIv(c) == c.crypto.remoteState.iv;
    assert MacText(c) == [n] + (localMac + remoteMac);
    hide Consistent, LocalIv, RemoteIv, MacText, CbcSuite;
    TextIs(c, c.crypto.localState.iv, c.crypto.remoteState.iv);
    HoldsSplit(b, mac, [n], localMac + remoteMac);
    HoldsSplit(b, mac + 1, localMac, remoteMac);
  }

  lemma TextIs(c: Context, localIv: seq<byte>, remoteIv: seq<byte>)
    requires Consistent(c) && Serving(c) && |Serialize(c, true)| <= 0x1_0004
    requires LocalIv(c) == localIv && RemoteIv(c) == remoteIv
    ensures |c.exportableKeys| < 0x100 && |localIv| == |remoteIv| < 0x100 && |Serialize(c, true)| >= 5
    ensures Laid(Serialize(c, true), c, localIv, remoteIv, |MacText(c)|)
    ensures Holds(Serialize(c, true), 12 + 2 * |localIv| + |c.exportableKeys|, MacText(c))
  {
    hide AeadOf, MacLengthOf, BigEndian, Holds, BuffersText, BuffersLaid, SequenceText, Body, MacText;
    hide LocalIv, RemoteIv;
    var b, keys, mac := Serialize(c, true), 11 + 2 * |localIv|, MacText(c);
    assert Holds(b, 0, b) by { assert b == b + []; HoldsWhole(b, []); }
    HeadText(c);
    HoldsSplit(b, 0, HeadOf(c), Body(c, true));
    assert |HeadOf(c)| == 5 && |c.exportableKeys| < 0x100;
    BodyParts(c, localIv, remoteIv);
    hide Consistent, Serialize;
    var state := [0, 0] + (SequenceText(c) + BuffersText(c));
    HoldsSplit(b, 5, PrefixOf(c), [|localIv|] + (localIv + (remoteIv + (KeyOf(c) + (mac + state)))));
    HoldsSplit(b, 10, [|localIv|], localIv + (remoteIv + (KeyOf(c) + (mac + state))));
    HoldsSplit(b, 11, localIv, remoteIv + (KeyOf(c) + (mac + state)));
    HoldsSplit(b, 11 + |localIv|, remoteIv, KeyOf(c) + (mac + state));
    HoldsSplit(b, keys, KeyOf(c), mac + state);
    HoldsSplit(b, keys, [|c.exportableKeys|], c.exportableKeys);
    var at := keys + 1 + |c.exportableKeys|;
    HoldsSplit(b, at, mac, state);
    HoldsSplit(b, at + |mac|, [0, 0], SequenceText(c) + BuffersText(c));
    HoldsSplit(b, at + |mac| + 2, SequenceText(c), BuffersText(c));
    SequenceParts(c);
    HoldsSplit(b, at + |mac| + 2, BigEndian(c.localSequence, 8), BigEndian(c.remoteSequence, 8));
    assert |b| == at + |mac| + |state|;
    BuffersParts(b, c, at + |mac| + 18);
  }

  lemma BuffersParts(b: seq<byte>, c: Context, pos: nat)
    requires Holds(b, pos, BuffersText(c)) && |b| == pos + |BuffersText(c)|
    ensures BuffersLaid(b, c, pos)
  {
    hide Holds, BigEndian;
    var message := pos + 4 + |c.tlsBuffer|;
    var application := message + 4 + |c.messageBuffer|;
    var dtls := application + 4 + |c.applicationBuffer|;
    HoldsSplit(b, pos, Counted(c.tlsBuffer), Counted(c.messageBuffer) + (Counted(c.applicationBuffer) + DtlsText(c)));
    HoldsSplit(b, message, Counted(c.messageBuffer), Counted(c.applicationBuffer) + DtlsText(c));
    HoldsSplit(b, application, Counted(c.applicationBuffer), DtlsText(c));
    HoldsSplit(b, pos, BigEndian(|c.tlsBuffer|, 4), c.tlsBuffer);
    HoldsSplit(b, message, BigEndian(|c.messageBuffer|, 4), c.messageBuffer);
    HoldsSplit(b, application, BigEndian(|c.applicationBuffer|, 4), c.applicationBuffer);
    TwoOf(c.epochLocal);
    TwoOf(c.epochRemote);
    var epochs := if c.dtls != 0 then BigEndian(c.epochLocal, 2) + BigEndian(c.epochRemote, 2) else [];
    HoldsSplit(b, dtls, [c.dtls], epochs);
    if c.dtls != 0 {
      HoldsSplit(b, dtls + 1, BigEndian(c.epochLocal, 2), BigEndian(c.epochRemote, 2));
    }
  }

  function HeadOf(c: Context): seq<byte>
    requires Consistent(c) && |Body(c, true)| < 0x1_0000
  {
    var size := |Body(c, true)|;
    [0xFE, c.version / 0x100, c.version % 0x100, size / 0x100, size % 0x100]
  }

  function PrefixOf(c: Context): seq<byte>
  {
    [0x01, 0xFF, c.cipher / 0x100, c.cipher % 0x100, if c.isChild == 0 then 1 else 2]
  }

  function KeyOf(c: Context): seq<byte>
    requires |c.exportableKeys| < 0x100
  {
    [|c.exportableKeys|] + c.exportableKeys
  }

  lemma HeadText(c: Context)
    requires Consistent(c) && |Serialize(c, true)| <= 0x1_0004
    ensures |Serialize(c, true)| == 5 + |Body(c, true)| && |Body(c, true)| < 0x1_0000
    ensures Serialize(c, true) == HeadOf(c) + Body(c, true)
  {
    hide Consistent, Body, BigEndian;
    var size := |Body(c, true)|;
    assert |Serialize(c, true)| == 5 + size && size % 0x1_0000 == size;
    TwoOf(c.version);
    TwoOf(size);
  }

  lemma BodyParts(c: Context, localIv: seq<byte>, remoteIv: seq<byte>)
    requires Consistent(c) && Serving(c) && LocalIv(c) == localIv && RemoteIv(c) == remoteIv
    ensures |c.exportableKeys| < 0x100
    ensures Body(c, true) == PrefixOf(c) + ([|localIv|] + (localIv + (remoteIv + (KeyOf(c)
                             + (MacText(c) + ([0, 0] + (SequenceText(c) + BuffersText(c))))))))
  {
    hide AeadOf, MacLengthOf, SequenceText, BuffersText, MacText, LocalIv, RemoteIv;
    TwoOf(c.cipher);
    TwoOf(0);
    assert IvText(c) == [|localIv|] + localIv + remoteIv;
    assert PrefixText(c) == PrefixOf(c) && KeyText(c) == KeyOf(c) && MasterText(c, true) == [0, 0];
    hide Consistent, PrefixText, KeyText, IvText, MasterText, BigEndian;
    Regroup([|localIv|], localIv, remoteIv, KeyOf(c) + (MacText(c) + ([0, 0] + (SequenceText(c) + BuffersText(c)))));
  }

  lemma Regroup(a: seq<byte>, b: seq<byte>, c: seq<byte>, d: seq<byte>)
    ensures (a + b + c) + d == a + (b + (c + d))
  {
  }

  lemma SequenceParts(c: Context)
    ensures SequenceText(c) == BigEndian(c.localSequence, 8) + BigEndian(c.remoteSequence, 8)
    ensures |SequenceText(c)| == 16
  {
    hide BigEndian;
  }

  lemma TwoOf(n: nat)
    requires n < 0x1_0000
    ensures BigEndian(n, 2) == [n / 0x100, n % 0x100]
  {
    assert BigEndian(n / 0x100, 1) == BigEndian(n / 0x100 / 0x100, 0) + [n / 0x100 % 0x100];
  }
}
