/** Importing an exported TLS context restores it, over any number of hops. */
module TlsRoundTrip {
  import opened Bytes
  import opened Slices
  import opened TlsContext

  // ---------------------------------------------------------------------
  // Numbers

  lemma HalfReads(n: u16)
    ensures Half(BigEndian(n, 2)) == n
  {
    assert Pow256(2) == 0x1_0000;
    BigEndianRoundTrip(n, 2);
  }

  lemma WordReads(n: u32)
    ensures Word(BigEndian(n, 4)) == n
  {
    assert Pow256(4) == 0x1_0000_0000;
    BigEndianRoundTrip(n, 4);
  }

  lemma LongReads(n: u64)
    ensures Long(BigEndian(n, 8)) == n
  {
    assert Pow256(8) == 0x1_0000_0000_0000_0000;
    BigEndianRoundTrip(n, 8);
  }

  lemma {:induction false} WordsRead(words: seq<u32>)
    ensures Words(WordsText(words)) == words
  {
    hide Word;
    if words != [] {
      var init, last := words[..|words| - 1], words[|words| - 1];
      var s := WordsText(words);
      assert s[..|s| - 4] == WordsText(init) && s[|s| - 4..] == BigEndian(last, 4);
      WordsRead(init);
      WordReads(last);
      assert words == init + [last];
    }
  }

  lemma CountedReads(b: seq<byte>, pos: nat, data: seq<byte>)
    requires Holds(b, pos, Counted(data)) && |data| < 0x8000_0000
    ensures CountedAt(b, pos) == Field(data, pos + |Counted(data)|)
  {
    hide Holds, Word;
    HoldsSplit(b, pos, BigEndian(|data|, 4), data);
    HoldsSlice(b, pos, BigEndian(|data|, 4));
    HoldsSlice(b, pos + 4, data);
    WordReads(|data|);
  }

  // ---------------------------------------------------------------------
  // One field after the other, from the last to the first

  function WithDtls(d: Context, c: Context): Context
  {
    if c.dtls == 0 then d.(dtls := 0) else d.(dtls := c.dtls, epochLocal := c.epochLocal, epochRemote := c.epochRemote)
  }

  lemma DtlsReads(d: Context, c: Context, b: seq<byte>, pos: nat)
    requires Holds(b, pos, DtlsText(c))
    ensures DecodeDtls(d, b, pos) == Accepted(WithDtls(d, c))
  {
    hide Holds, Half;
    var epochs := BigEndian(c.epochLocal, 2) + BigEndian(c.epochRemote, 2);
    HoldsSlice(b, pos, DtlsText(c));
    HoldsAt(b, pos, DtlsText(c), 0);
    if c.dtls != 0 {
      HoldsSplit(b, pos, [c.dtls], epochs);
      HoldsSplit(b, pos + 1, BigEndian(c.epochLocal, 2), BigEndian(c.epochRemote, 2));
      HoldsSlice(b, pos + 1, BigEndian(c.epochLocal, 2));
      HoldsSlice(b, pos + 3, BigEndian(c.epochRemote, 2));
      HalfReads(c.epochLocal);
      HalfReads(c.epochRemote);
    }
  }

  function WithBuffers(d: Context, c: Context): Context
  {
    WithDtls(d.(cipherSpecSet := 1, tlsBuffer := Fill(c.tlsBuffer, d.tlsBuffer),
                messageBuffer := Fill(c.messageBuffer, d.messageBuffer),
                applicationBuffer := Fill(c.applicationBuffer, d.applicationBuffer)), c)
  }

  lemma BuffersRead(d: Context, c: Context, b: seq<byte>, pos: nat)
    requires Consistent(c) && Holds(b, pos, BuffersText(c))
    ensures DecodeTls(d, b, pos) == Accepted(WithBuffers(d, c))
  {
    hide Holds, CountedAt, Counted, DtlsText, DecodeDtls;
    var last := Counted(c.applicationBuffer) + DtlsText(c);
    var p1 := pos + |Counted(c.tlsBuffer)|;
    var p2 := p1 + |Counted(c.messageBuffer)|;
    var p3 := p2 + |Counted(c.applicationBuffer)|;
    HoldsSplit(b, pos, Counted(c.tlsBuffer), Counted(c.messageBuffer) + last);
    HoldsSplit(b, p1, Counted(c.messageBuffer), last);
    HoldsSplit(b, p2, Counted(c.applicationBuffer), DtlsText(c));
    CountedReads(b, pos, c.tlsBuffer);
    CountedReads(b, p1, c.messageBuffer);
    CountedReads(b, p2, c.applicationBuffer);
    DtlsReads(d.(cipherSpecSet := 1, tlsBuffer := Fill(c.tlsBuffer, d.tlsBuffer),
                 messageBuffer := Fill(c.messageBuffer, d.messageBuffer),
                 applicationBuffer := Fill(c.applicationBuffer, d.applicationBuffer)), c, b, p3);
  }

  function WithState(d: Context, c: Context, small: bool): Context
  {
    WithBuffers(d.(masterKey := if small then d.masterKey else Fill(c.masterKey, d.masterKey),
                   localSequence := c.localSequence, remoteSequence := c.remoteSequence), c)
  }

  lemma SequencesRead(d: Context, c: Context, b: seq<byte>, pos: nat)
    requires Consistent(c) && Holds(b, pos, SequenceText(c) + BuffersText(c))
    ensures DecodeSequences(d, b, pos)
         == Accepted(WithBuffers(d.(localSequence := c.localSequence, remoteSequence := c.remoteSequence), c))
  {
    hide Holds, Long, BuffersText, DecodeTls, Consistent;
    HoldsSplit(b, pos, SequenceText(c), BuffersText(c));
    HoldsSplit(b, pos, BigEndian(c.localSequence, 8), BigEndian(c.remoteSequence, 8));
    HoldsSlice(b, pos, SequenceText(c));
    HoldsSlice(b, pos, BigEndian(c.localSequence, 8));
    HoldsSlice(b, pos + 8, BigEndian(c.remoteSequence, 8));
    LongReads(c.localSequence);
    LongReads(c.remoteSequence);
    BuffersRead(d.(localSequence := c.localSequence, remoteSequence := c.remoteSequence), c, b, pos + 16);
  }

  lemma StateReads(d: Context, c: Context, small: bool, b: seq<byte>, pos: nat)
    requires Consistent(c) && Holds(b, pos, StateText(c, small))
    ensures DecodeMaster(d, b, pos) == Accepted(WithState(d, c, small))
  {
    hide Holds, Half, SequenceText, BuffersText, DecodeSequences, WithBuffers;
    var key := if small then [] else c.masterKey;
    assert MasterText(c, small) == BigEndian(|key|, 2) + key;
    HoldsSplit(b, pos, MasterText(c, small), SequenceText(c) + BuffersText(c));
    HoldsSplit(b, pos, BigEndian(|key|, 2), key);
    HoldsSlice(b, pos, BigEndian(|key|, 2));
    HoldsSlice(b, pos + 2, key);
    HalfReads(|key|);
    SequencesRead(d.(masterKey := Fill(key, d.masterKey)), c, b, pos + 2 + |key|);
  }

  /** The MAC keys or IVs that a context uses of the shared memory. */
  function Used(c: Context, mac: seq<byte>): (r: seq<byte>)
    requires |mac| == MAX_MAC_SIZE && 1 <= c.crypto.created <= 3
    ensures |r| <= MAX_MAC_SIZE
  {
    mac[..if c.crypto.created == 1 then MacLengthOf(c.cipher) else IvLength(c.crypto.created)]
  }

  predicate MacSizes(k: Crypto) { |k.localMac| == |k.remoteMac| == MAX_MAC_SIZE }

  /** What a server makes of the exported crypto state in memory that had another
      one; a client exchanges the two directions. */
  function RestoredCrypto(c: Context, had: Crypto, server: bool): Crypto
    requires Consistent(c) && MacSizes(had)
  {
    var k := c.crypto;
    var keep := server || k.created == 3;
    Crypto(k.created, if keep then k.localState else k.remoteState, if keep then k.remoteState else k.localState,
           Overlay(Used(c, k.localMac), had.localMac), Overlay(Used(c, k.remoteMac), had.remoteMac))
  }

  /** After the keys, before the MAC keys and ChaCha20 states. */
  predicate KeysDone(d: Context, d': Context, c: Context)
    requires Consistent(c) && MacSizes(d.crypto)
  {
    var k := RestoredCrypto(c, d.crypto, d.isServer != 0);
    && d' == d.(exportable := 1, exportableKeys := c.exportableKeys, crypto := d'.crypto)
    && MacSizes(d'.crypto) && d'.crypto.created == k.created
    && (k.created != 3 ==> d'.crypto.localState == k.localState && d'.crypto.remoteState == k.remoteState)
    && (k.created == 1 ==> d'.crypto.localMac == d.crypto.localMac && d'.crypto.remoteMac == d.crypto.remoteMac)
    && (k.created != 1 ==> d'.crypto.localMac == k.localMac && d'.crypto.remoteMac == k.remoteMac)
  }

  lemma OverlayAll(given: seq<byte>, had: seq<byte>)
    requires |given| == |had|
    ensures Overlay(given, had) == given
  {
  }

  lemma SetUpReads(d: Context, c: Context, ls: seq<byte>, rs: seq<byte>)
    requires Consistent(c) && MacSizes(d.crypto) && d.cipher == c.cipher && |ls| == |rs| == AES_IV_LENGTH
    ensures var r := SetUp(d, LocalIv(c), RemoteIv(c), c.exportableKeys, ls, rs); r.Accepted? && KeysDone(d, r.c, c)
  {
    hide Overlay, AeadOf, MacLengthOf;
    var k := c.crypto;
    if k.created != 3 {
      var keys, half := c.exportableKeys, |c.exportableKeys| / 2;
      assert keys[..half] == k.localState.key && keys[half..2 * half] == k.remoteState.key;
    }
    if k.created == 1 {
      assert LocalIv(c)[..0] == [] && RemoteIv(c)[..0] == [];
      OverlayNone(d.crypto.localMac);
      OverlayNone(d.crypto.remoteMac);
      OverlayAll(LocalIv(c), ls);
      OverlayAll(RemoteIv(c), rs);
    } else {
      assert LocalIv(c)[..|LocalIv(c)|] == LocalIv(c) && RemoteIv(c)[..|RemoteIv(c)|] == RemoteIv(c);
    }
  }

  lemma ChaChaReads(k: Crypto, c: Context, s: seq<byte>)
    requires Consistent(c) && c.crypto.created == 3 && [0] + s == MacText(c) && |s| == 256
    ensures WithChaCha(k, s) == k.(localState := c.crypto.localState, remoteState := c.crypto.remoteState)
  {
    hide Words, WordsText, AeadOf;
    var l, r := c.crypto.localState, c.crypto.remoteState;
    assert s == MacText(c)[1..];
    assert s[..64] == WordsText(l.input) && s[64..128] == WordsText(r.input) && s[128..192] == l.ks && s[192..] == r.ks;
    WordsRead(l.input);
    WordsRead(r.input);
  }

  lemma MacReads(d: Context, d': Context, c: Context, small: bool, b: seq<byte>, pos: nat)
    requires Consistent(c) && MacSizes(d.crypto) && d.cipher == c.cipher && KeysDone(d, d', c)
    requires Holds(b, pos, MacText(c) + StateText(c, small))
    ensures DecodeMac(d', b, pos) == Accepted(WithState(
              d'.(crypto := RestoredCrypto(c, d.crypto, d.isServer != 0)), c, small))
  {
    hide Holds, DecodeMaster, StateText, WithChaCha, WordsText, AeadOf, MacLengthOf, Overlay, WithState;
    var k, text := c.crypto, MacText(c);
    var done := d'.(crypto := RestoredCrypto(c, d.crypto, d.isServer != 0));
    HoldsSplit(b, pos, text, StateText(c, small));
    HoldsSlice(b, pos, text);
    HoldsAt(b, pos, text, 0);
    HoldsSlice(b, pos + |text|, StateText(c, small));
    StateReads(done, c, small, b, pos + |text|);
    HoldsSplit(b, pos, [text[0]], text[1..]);
    assert [text[0]] + text[1..] == text;
    HoldsSlice(b, pos + 1, text[1..]);
    if k.created == 3 {
      ChaChaReads(d'.crypto, c, text[1..]);
    } else if k.created == 1 {
      var n := MacLengthOf(c.cipher);
      assert text[1..] == k.localMac[..n] + k.remoteMac[..n];
      HoldsSplit(b, pos + 1, k.localMac[..n], k.remoteMac[..n]);
      HoldsSlice(b, pos + 1, k.localMac[..n]);
      HoldsSlice(b, pos + 1 + n, k.remoteMac[..n]);
      OverlayNone(d.crypto.localMac);
      OverlayNone(d.crypto.remoteMac);
    }
  }

  /** What import makes of a context d. */
  function Restored(d: Context, c: Context, small: bool): Context
    requires Consistent(c) && MacSizes(d.crypto)
  {
    WithState(d.(exportable := 1, exportableKeys := c.exportableKeys,
                 crypto := RestoredCrypto(c, d.crypto, d.isServer != 0)), c, small)
  }

  lemma KeysRead(d: Context, c: Context, small: bool, b: seq<byte>, ls: seq<byte>, rs: seq<byte>)
    requires Consistent(c) && MacSizes(d.crypto) && d.cipher == c.cipher && |ls| == |rs| == AES_IV_LENGTH
    requires |b| >= 64 && Holds(b, 10, IvText(c) + (KeyText(c) + (MacText(c) + StateText(c, small))))
    ensures DecodeKeys(d, b, ls, rs) == Accepted(Restored(d, c, small))
  {
    hide Holds, DecodeMac, MacText, StateText, Consistent, KeysDone, SetUp, RestoredCrypto, WithState;
    hide LocalIv, RemoteIv;
    var n, keys := IvLength(c.crypto.created), c.exportableKeys;
    var iv := IvText(c);
    var pos := 11 + 2 * n;
    SizesOf(c);
    HoldsSplit(b, 10, iv, KeyText(c) + (MacText(c) + StateText(c, small)));
    HoldsSplit(b, pos, KeyText(c), MacText(c) + StateText(c, small));
    HoldsAt(b, 10, iv, 0);
    assert iv == [n] + (LocalIv(c) + RemoteIv(c));
    HoldsSplit(b, 10, [n], LocalIv(c) + RemoteIv(c));
    HoldsSplit(b, 11, LocalIv(c), RemoteIv(c));
    HoldsSlice(b, 11, LocalIv(c));
    HoldsSlice(b, 11 + n, RemoteIv(c));
    HoldsAt(b, pos, KeyText(c), 0);
    HoldsSplit(b, pos, [|keys|], keys);
    HoldsSlice(b, pos + 1, keys);
    SetUpReads(d, c, ls, rs);
    var d' := SetUp(d, LocalIv(c), RemoteIv(c), keys, ls, rs).c;
    KeysDoneFrame(d, d', c);
    MacReads(d, d', c, small, b, pos + 1 + |keys|);
  }

  lemma SizesOf(c: Context)
    requires Consistent(c)
    ensures 0 < |c.exportableKeys| < 0x100
  {
  }

  lemma KeysDoneFrame(d: Context, d': Context, c: Context)
    requires Consistent(c) && MacSizes(d.crypto) && KeysDone(d, d', c)
    ensures MacSizes(d'.crypto)
    ensures d'.(crypto := RestoredCrypto(c, d.crypto, d.isServer != 0))
         == d.(exportable := 1, exportableKeys := c.exportableKeys,
               crypto := RestoredCrypto(c, d.crypto, d.isServer != 0))
  {
  }

  lemma BodyIsLong(c: Context, small: bool)
    requires Consistent(c)
    ensures |Body(c, small)| >= 59 && |Serialize(c, small)| == |Body(c, small)| + 5
  {
    hide StateText, AeadOf, MacLengthOf;
    StateIsLong(c, small);
    assert |IvText(c)| == 1 + 2 * IvLength(c.crypto.created);
    assert |KeyText(c)| >= 2;
    assert c.crypto.created == 3 ==> |MacText(c)| == 257;
    assert c.crypto.created != 3 ==> |c.exportableKeys| >= 32;
  }

  lemma StateIsLong(c: Context, small: bool)
    ensures |StateText(c, small)| >= 31
  {
  }

  /** The context as it is once the fixed part of the head has been read. */
  function Prefixed(d: Context, c: Context): Context
  {
    d.(version := c.version, connectionStatus := c.connectionStatus, cipher := c.cipher,
       isServer := c.isServer, isChild := if c.isChild != 0 then 1 else d.isChild)
  }

  lemma PrefixReads(d: Context, c: Context, small: bool)
    requires Consistent(c)
    ensures var b := Serialize(c, small);
      && |b| == |Body(c, small)| + 5 >= 64
      && b[0] == SERIALIZED_OBJECT && b[5] == 0x01 && Half(b[3..5]) == |Body(c, small)| % 0x1_0000
      && WithPrefix(d, b) == Prefixed(d, c)
      && Holds(b, 10, IvText(c) + (KeyText(c) + (MacText(c) + StateText(c, small))))
  {
    hide Holds, IvText, KeyText, MacText, StateText, Half;
    BodyIsLong(c, small);
    var b, n := Serialize(c, small), |Body(c, small)| % 0x1_0000;
    var rest := IvText(c) + (KeyText(c) + (MacText(c) + StateText(c, small)));
    var head := [SERIALIZED_OBJECT] + BigEndian(c.version, 2) + BigEndian(n, 2);
    assert b == head + (PrefixText(c) + rest);
    HoldsWhole(b, []);
    assert b + [] == b;
    HoldsSplit(b, 0, head, PrefixText(c) + rest);
    HoldsSplit(b, 5, PrefixText(c), rest);
    assert b[1..3] == BigEndian(c.version, 2) && b[3..5] == BigEndian(n, 2);
    HalfReads(c.version);
    HalfReads(n);
    PrefixAt(c, b);
    HalfReads(c.cipher);
  }

  lemma PrefixAt(c: Context, b: seq<byte>)
    requires |b| >= 64 && Holds(b, 5, PrefixText(c))
    ensures b[5] == 0x01 && b[6] == c.connectionStatus && b[7..9] == BigEndian(c.cipher, 2) && b[9] == Role(c)
  {
    hide Holds;
    HoldsAt(b, 5, PrefixText(c), 0);
    HoldsAt(b, 5, PrefixText(c), 1);
    HoldsAt(b, 5, PrefixText(c), 4);
    HoldsSlice(b, 5, PrefixText(c));
    assert b[7..9] == b[5..10][2..4] == PrefixText(c)[2..4];
  }

  /** Import accepts an export if and only if its length fits the length field,
      and then makes exactly this of it. */
  lemma ImportOfExport(d: Context, c: Context, small: bool, ls: seq<byte>, rs: seq<byte>)
    requires Consistent(c) && MacSizes(d.crypto) && |ls| == |rs| == AES_IV_LENGTH
    ensures Decode(d, Serialize(c, small), ls, rs)
         == if |Serialize(c, small)| - 5 < 0x1_0000 then Accepted(Restored(Prefixed(d, c), c, small)) else Rejected
  {
    hide Serialize, Body, WithPrefix, DecodeKeys, Half, Holds, Restored, Consistent;
    hide IvText, KeyText, MacText, StateText;
    PrefixReads(d, c, small);
    if |Serialize(c, small)| - 5 < 0x1_0000 {
      KeysRead(Prefixed(d, c), c, small, Serialize(c, small), ls, rs);
    }
  }

  // ---------------------------------------------------------------------
  // What a hop keeps

  /** A context without what does not travel: the rest of the shared memory, the
      master key in the small form, epochs of a stream connection, and two flags
      that a negotiated connection has set. */
  function View(c: Context, small: bool): Context
    requires MacSizes(c.crypto) && 1 <= c.crypto.created <= 3
  {
    c.(cipherSpecSet := 1, exportable := 1, masterKey := if small then [] else c.masterKey,
       epochLocal := if c.dtls == 0 then 0 else c.epochLocal, epochRemote := if c.dtls == 0 then 0 else c.epochRemote,
       crypto := c.crypto.(localMac := Used(c, c.crypto.localMac), remoteMac := Used(c, c.crypto.remoteMac)))
  }

  /** Import takes the keys in a server's order. */
  predicate KeepsDirections(c: Context)
  {
    c.isServer != 0 || c.crypto.created == 3 || c.crypto.localState == c.crypto.remoteState
  }

  function Target(c: Context, small: bool, isServer: byte, version: u16): Context
    requires Consistent(c)
  {
    Restored(Prefixed(Created(isServer, version), c), c, small)
  }

  lemma TargetView(c: Context, small: bool, isServer: byte, version: u16)
    requires Consistent(c) && Exportable(c)
    ensures var t := Target(c, small, isServer, version);
      && MacSizes(t.crypto) && 1 <= t.crypto.created <= 3
      && (View(t, small) == View(c, small) <==> KeepsDirections(c))
  {
    hide AeadOf, MacLengthOf, Zeros;
    var t := Target(c, small, isServer, version);
    OverlayUsed(c, c.crypto.localMac, Zeros(MAX_MAC_SIZE));
    OverlayUsed(c, c.crypto.remoteMac, Zeros(MAX_MAC_SIZE));
    assert c.isChild == t.isChild && c.isServer == t.isServer;
  }

  lemma OverlayUsed(c: Context, mac: seq<byte>, had: seq<byte>)
    requires |mac| == |had| == MAX_MAC_SIZE && 1 <= c.crypto.created <= 3
    ensures Used(c, Overlay(Used(c, mac), had)) == Used(c, mac)
  {
  }

  lemma SameViewConsistent(c: Context, t: Context, small: bool)
    requires Consistent(c) && Exportable(t) && |t.masterKey| < 0x1_0000
    requires MacSizes(t.crypto) && 1 <= t.crypto.created <= 3 && View(c, small) == View(t, small)
    ensures Consistent(t)
  {
    hide AeadOf, MacLengthOf;
    assert c == c.(cipherSpecSet := c.cipherSpecSet);
    var v, w := View(c, small), View(t, small);
    assert v.crypto.localState == c.crypto.localState && w.crypto.localState == t.crypto.localState;
    assert v.exportableKeys == c.exportableKeys && w.exportableKeys == t.exportableKeys;
  }

  lemma SameViewParts(c: Context, t: Context, small: bool)
    requires Consistent(c) && Consistent(t) && View(c, small) == View(t, small)
    ensures PrefixText(t) == PrefixText(c) && KeyText(t) == KeyText(c) && StateText(t, small) == StateText(c, small)
    ensures IvText(t) == IvText(c) && MacText(t) == MacText(c)
    ensures c.version == t.version
  {
    hide AeadOf, MacLengthOf, WordsText, BigEndian;
    var k, l := c.crypto, t.crypto;
    var v, w := View(c, small), View(t, small);
    assert v.crypto.localMac == w.crypto.localMac && v.crypto.remoteMac == w.crypto.remoteMac;
    assert Used(c, k.localMac) == Used(t, l.localMac) && Used(c, k.remoteMac) == Used(t, l.remoteMac);
    assert v.crypto.localState == w.crypto.localState && v.crypto.remoteState == w.crypto.remoteState;
    assert v.masterKey == w.masterKey && v.epochLocal == w.epochLocal && v.epochRemote == w.epochRemote;
    assert v.dtls == w.dtls && v.tlsBuffer == w.tlsBuffer && v.messageBuffer == w.messageBuffer;
    assert v.applicationBuffer == w.applicationBuffer && v.cipher == w.cipher;
  }

  /** Import forgets nothing that export writes. */
  lemma SameViewSameText(c: Context, t: Context, small: bool)
    requires Consistent(c) && Exportable(t) && |t.masterKey| < 0x1_0000
    requires MacSizes(t.crypto) && 1 <= t.crypto.created <= 3 && View(c, small) == View(t, small)
    ensures Consistent(t) && Serialize(t, small) == Serialize(c, small)
  {
    hide Consistent, View, PrefixText, IvText, KeyText, MacText, StateText;
    SameViewConsistent(c, t, small);
    SameViewParts(c, t, small);
  }

  /** One hop: for every exportable context and every fresh one to import it into,
      whatever is on the stack.  Everything is restored exactly when the length
      fits and the directions are kept, and then the next export is the same. */
  lemma Hop(c: Context, small: bool, isServer: byte, version: u16, ls: seq<byte>, rs: seq<byte>)
    requires Consistent(c) && Exportable(c) && |ls| == |rs| == AES_IV_LENGTH
    ensures var r := Decode(Created(isServer, version), Serialize(c, small), ls, rs);
      && (r == Rejected <==> |Serialize(c, small)| > 0x1_0004) && r != Overrun
      && (r.Accepted? ==>
            && MacSizes(r.c.crypto) && 1 <= r.c.crypto.created <= 3
            && (View(r.c, small) == View(c, small) <==> KeepsDirections(c))
            && (KeepsDirections(c) ==>
                  Consistent(r.c) && Exportable(r.c) && Serialize(r.c, small) == Serialize(c, small)))
  {
    hide Serialize, Decode, View, Consistent, Restored, KeepsDirections;
    var d := Created(isServer, version);
    ImportOfExport(d, c, small, ls, rs);
    TargetView(c, small, isServer, version);
    TargetExportable(c, small, isServer, version);
    var t := Target(c, small, isServer, version);
    if KeepsDirections(c) {
      SameViewSameText(c, t, small);
    }
  }

  lemma TargetExportable(c: Context, small: bool, isServer: byte, version: u16)
    requires Consistent(c) && Exportable(c)
    ensures var t := Target(c, small, isServer, version); Exportable(t) && |t.masterKey| < 0x1_0000
  {
    hide AeadOf, MacLengthOf, Zeros;
  }

  /** In CBC and GCM, import of a client's export decrypts with the key that the
      client encrypts with, and the other way round. */
  lemma ClientDirectionsSwap(c: Context, small: bool, isServer: byte, version: u16, ls: seq<byte>, rs: seq<byte>)
    requires Consistent(c) && Exportable(c) && |ls| == |rs| == AES_IV_LENGTH
    requires c.isServer == 0 && c.crypto.created != 3 && |Serialize(c, small)| <= 0x1_0004
    ensures var r := Decode(Created(isServer, version), Serialize(c, small), ls, rs);
      r.Accepted? && r.c.crypto.localState == c.crypto.remoteState && r.c.crypto.remoteState == c.crypto.localState
  {
    hide Serialize, Decode, AeadOf, MacLengthOf, Zeros;
    ImportOfExport(Created(isServer, version), c, small, ls, rs);
  }

  /** A negotiated client context in GCM whose two keys differ. */
  function ClientContext(): (c: Context)
    ensures Consistent(c) && Exportable(c) && !KeepsDirections(c)
  {
    var local, remote := seq(16, _ => 0 as byte), seq(16, _ => 1 as byte);
    assert local[0] != remote[0];
    Context(0x0303, NEGOTIATED, 0, 0x009C, 0, 0, 1,
            Crypto(2, Keyed(local, []), Keyed(remote, []), Zeros(MAX_MAC_SIZE), Zeros(MAX_MAC_SIZE)),
            1, local + remote, [], 0, 0, [], [], [], 0, 0, 0)
  }

  /** Such contexts exist, and a hop does not restore them. */
  lemma ClientContextIsLost(ls: seq<byte>, rs: seq<byte>)
    requires |ls| == |rs| == AES_IV_LENGTH
    ensures exists c ::
      && Consistent(c) && Exportable(c)
      && var r := Decode(Created(1, 0x0303), Serialize(c, true), ls, rs);
         r.Accepted? && r.c.crypto.localState == c.crypto.remoteState && r.c.crypto.localState != c.crypto.localState
  {
    hide Decode, Zeros;
    var c := ClientContext();
    assert |Serialize(c, true)| <= 0x1_0004;
    ClientDirectionsSwap(c, true, 1, 0x0303, ls, rs);
  }

  /** What Prism does: export in the small form, import into a new server context. */
  function Hops(c: Context, n: nat, ls: seq<byte>, rs: seq<byte>): Outcome
    requires Consistent(c) && |ls| == |rs| == AES_IV_LENGTH
    decreases n
  {
    if n == 0 then Accepted(c)
    else match Hops(c, n - 1, ls, rs)
      case Accepted(c') =>
        if Consistent(c') && Exportable(c') then Decode(Created(1, 0x0303), Serialize(c', true), ls, rs) else Rejected
      case r => r
  }

  /** Any number of hops changes nothing. */
  lemma {:induction false} ManyHops(c: Context, n: nat, ls: seq<byte>, rs: seq<byte>)
    requires Consistent(c) && Exportable(c) && KeepsDirections(c) && |ls| == |rs| == AES_IV_LENGTH
    requires |Serialize(c, true)| <= 0xFFFF
    ensures var r := Hops(c, n, ls, rs);
      && r.Accepted? && Consistent(r.c) && Exportable(r.c) && KeepsDirections(r.c)
      && View(r.c, true) == View(c, true) && Serialize(r.c, true) == Serialize(c, true)
  {
    hide Serialize, Decode, View, Consistent, KeepsDirections, Exportable;
    if n > 0 {
      ManyHops(c, n - 1, ls, rs);
      var c' := Hops(c, n - 1, ls, rs).c;
      Hop(c', true, 1, 0x0303, ls, rs);
      var t := Decode(Created(1, 0x0303), Serialize(c', true), ls, rs);
      ViewKeepsDirections(c', t.c);
    }
  }

  lemma ViewKeepsDirections(c: Context, t: Context)
    requires Consistent(c) && Consistent(t) && View(t, true) == View(c, true)
    ensures KeepsDirections(c) <==> KeepsDirections(t)
  {
    hide AeadOf, MacLengthOf;
    var v, w := View(c, true), View(t, true);
    assert v.isServer == w.isServer && v.crypto == w.crypto;
  }
}
