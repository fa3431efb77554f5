/** The serialised form of a TLS context in src/extern/tlse.c, and how a context
    is read back from it (TLS 1.3 not compiled, re-exportable). */
module TlsContext {
  import opened Bytes
  import opened Slices

  /** A cipher as libtomcrypt has set it up from a key (and, for CBC, the running
      IV), or the ChaCha20 state proper. */
  datatype CipherState = Unset | Keyed(key: seq<byte>, iv: seq<byte>) | ChaCha(input: seq<u32>, ks: seq<byte>)

  /** The MAC keys share their 48 bytes of memory with the AEAD IVs and nonces. */
  datatype Crypto = Crypto(created: byte, localState: CipherState, remoteState: CipherState,
                           localMac: seq<byte>, remoteMac: seq<byte>)

  datatype Context = Context(version: u16, connectionStatus: byte, criticalError: byte, cipher: u16,
                             isServer: byte, isChild: byte, cipherSpecSet: byte, crypto: Crypto,
                             exportable: byte, exportableKeys: seq<byte>, masterKey: seq<byte>,
                             localSequence: u64, remoteSequence: u64,
                             tlsBuffer: seq<byte>, messageBuffer: seq<byte>, applicationBuffer: seq<byte>,
                             dtls: byte, epochLocal: u16, epochRemote: u16)

  const AES_IV_LENGTH := 16
  const GCM_IV_LENGTH := 4
  const CHACHA20_IV_LENGTH := 12
  const CHACHA_BLOCKLEN := 64
  const MAX_MAC_SIZE := 48
  const SERIALIZED_OBJECT: byte := 0xFE
  const NEGOTIATED: byte := 0xFF

  /** 0 for CBC, 1 for GCM, 2 for ChaCha20-Poly1305. */
  function AeadOf(cipher: u16): (r: byte)
    ensures r <= 2
  {
    if cipher in {0x009C, 0x009D, 0x009E, 0x009F, 0xC02F, 0xC030, 0xC02B, 0xC02C, 0x1301, 0x1302} then 1
    else if cipher in {0xCCA8, 0xCCA9, 0xCCAA, 0x1303} then 2
    else 0
  }

  function MacLengthOf(cipher: u16): (r: byte)
    ensures r <= MAX_MAC_SIZE
  {
    if cipher in {0x002F, 0x0035, 0x0033, 0x0039, 0xC013, 0xC014, 0xC009, 0xC00A} then 20
    else if cipher in {0x003C, 0x003D, 0x009C, 0x0067, 0x006B, 0x009E, 0xC027, 0xC02F, 0xC023, 0xC02B,
                       0xCCA8, 0xCCA9, 0xCCAA} then 32
    else if cipher in {0x009D, 0x009F, 0xC030, 0xC024, 0xC02C} then 48
    else 0
  }

  // ---------------------------------------------------------------------
  // Export

  /** Key expansion and import leave a context in these shapes. */
  predicate Consistent(c: Context)
  {
    var k := c.crypto;
    && k.created == 1 + AeadOf(c.cipher) && |k.localMac| == |k.remoteMac| == MAX_MAC_SIZE
    && 0 < |c.exportableKeys| < 0x100 && |c.masterKey| < 0x1_0000
    && (c.isChild == 0 || (c.isChild == 1 && c.isServer == 1)) && c.isServer != 2
    && |c.tlsBuffer| < 0x8000_0000 && |c.messageBuffer| < 0x8000_0000 && |c.applicationBuffer| < 0x8000_0000
    && (if k.created == 3 then ChaChaShape(k.localState) && ChaChaShape(k.remoteState)
        else KeyedShape(c, k.localState, k.remoteState))
  }

  predicate ChaChaShape(state: CipherState) { state.ChaCha? && |state.input| == 16 && |state.ks| == CHACHA_BLOCKLEN }

  predicate KeySize(n: nat) { n == 16 || n == 24 || n == 32 }

  /** The exportable keys are those the ciphers were set up with: the local one
      first. */
  predicate KeyedShape(c: Context, local: CipherState, remote: CipherState)
  {
    var size := if c.crypto.created == 1 then AES_IV_LENGTH else 0;
    && local.Keyed? && remote.Keyed? && |local.iv| == |remote.iv| == size
    && KeySize(|local.key|) && |local.key| == |remote.key|
    && c.exportableKeys == local.key + remote.key
  }

  predicate Exportable(c: Context)
  {
    && c.criticalError == 0 && c.connectionStatus == NEGOTIATED && c.exportable != 0 && c.exportableKeys != []
    && c.crypto.created != 0
  }

  function IvLength(created: byte): (n: byte)
    ensures n <= AES_IV_LENGTH
  {
    if created == 2 then GCM_IV_LENGTH else if created == 3 then CHACHA20_IV_LENGTH else AES_IV_LENGTH
  }

  function LocalIv(c: Context): (iv: seq<byte>)
    requires Consistent(c)
    ensures |iv| == IvLength(c.crypto.created)
  {
    if c.crypto.created == 1 then c.crypto.localState.iv else c.crypto.localMac[..IvLength(c.crypto.created)]
  }

  function RemoteIv(c: Context): (iv: seq<byte>)
    requires Consistent(c)
    ensures |iv| == IvLength(c.crypto.created)
  {
    if c.crypto.created == 1 then c.crypto.remoteState.iv else c.crypto.remoteMac[..IvLength(c.crypto.created)]
  }

  function Role(c: Context): byte { if c.isChild != 0 then 2 else c.isServer }

  function WordsText(words: seq<u32>): (s: seq<byte>)
    ensures |s| == 4 * |words|
  {
    if words == [] then [] else WordsText(words[..|words| - 1]) + BigEndian(words[|words| - 1], 4)
  }

  function PrefixText(c: Context): (s: seq<byte>)
    ensures |s| == 5
  {
    [0x01, c.connectionStatus] + BigEndian(c.cipher, 2) + [Role(c)]
  }

  function IvText(c: Context): seq<byte>
    requires Consistent(c)
  {
    [IvLength(c.crypto.created)] + LocalIv(c) + RemoteIv(c)
  }

  function KeyText(c: Context): seq<byte>
    requires Consistent(c)
  {
    [|c.exportableKeys|] + c.exportableKeys
  }

  function MacText(c: Context): seq<byte>
    requires Consistent(c)
  {
    var k := c.crypto;
    if k.created == 2 then [0]
    else if k.created == 3 then
      [0] + (WordsText(k.localState.input) + WordsText(k.remoteState.input) + k.localState.ks + k.remoteState.ks)
    else
      var n := MacLengthOf(c.cipher);
      [n] + (k.localMac[..n] + k.remoteMac[..n])
  }

  function MasterText(c: Context, small: bool): seq<byte>
  {
    if small then BigEndian(0, 2) else BigEndian(|c.masterKey|, 2) + c.masterKey
  }

  function SequenceText(c: Context): seq<byte>
  {
    BigEndian(c.localSequence, 8) + BigEndian(c.remoteSequence, 8)
  }

  function Counted(data: seq<byte>): seq<byte> { BigEndian(|data|, 4) + data }

  function DtlsText(c: Context): seq<byte>
  {
    [c.dtls] + (if c.dtls != 0 then BigEndian(c.epochLocal, 2) + BigEndian(c.epochRemote, 2) else [])
  }

  function BuffersText(c: Context): seq<byte>
  {
    Counted(c.tlsBuffer) + (Counted(c.messageBuffer) + (Counted(c.applicationBuffer) + DtlsText(c)))
  }

  function StateText(c: Context, small: bool): seq<byte>
  {
    MasterText(c, small) + (SequenceText(c) + BuffersText(c))
  }

  function Body(c: Context, small: bool): seq<byte>
    requires Consistent(c)
  {
    PrefixText(c) + (IvText(c) + (KeyText(c) + (MacText(c) + StateText(c, small))))
  }

  /** The length field has 16 bits. */
  function Serialize(c: Context, small: bool): seq<byte>
    requires Consistent(c)
  {
    [SERIALIZED_OBJECT] + BigEndian(c.version, 2) + BigEndian(|Body(c, small)| % 0x1_0000, 2) + Body(c, small)
  }

  // ---------------------------------------------------------------------
  // Import

  /** Overrun: the code reads beyond the buffer, and nothing more is said. */
  datatype Outcome = Accepted(c: Context) | Rejected | Overrun

  /** TLS_IMPORT_CHECK_SIZE2 on sizes below 2 to the 31. */
  predicate Fits(b: seq<byte>, pos: nat, size: nat) { pos + size <= |b| }

  function Overlay(given: seq<byte>, had: seq<byte>): (r: seq<byte>)
    requires |given| <= |had|
    ensures |r| == |had|
  {
    given + had[|given|..]
  }

  lemma OverlayNone(had: seq<byte>)
    ensures Overlay([], had) == had
  {
  }

  /** What tls_create_context leaves, apart from the fields not modelled. */
  function Created(isServer: byte, version: u16): Context
  {
    Context(version, 0, 0, 0, isServer, 0, 0, Crypto(0, Unset, Unset, Zeros(MAX_MAC_SIZE), Zeros(MAX_MAC_SIZE)),
            0, [], [], 0, 0, [], [], [], if version in {0xFEFC, 0xFEFD, 0xFEFF} then 1 else 0, 0, 0)
  }

  /** AEAD modes keep their IVs in the shared memory. */
  function WithIvs(c: Context, localIv: seq<byte>, remoteIv: seq<byte>): (r: Context)
    requires |localIv| == |remoteIv| <= AES_IV_LENGTH
    requires |c.crypto.localMac| == |c.crypto.remoteMac| == MAX_MAC_SIZE
    ensures |r.crypto.localMac| == |r.crypto.remoteMac| == MAX_MAC_SIZE
  {
    var aead := AeadOf(c.cipher);
    var n := if aead == 0 then 0 else if |localIv| > IvLength(1 + aead) then IvLength(1 + aead) else |localIv|;
    c.(crypto := c.crypto.(localMac := Overlay(localIv[..n], c.crypto.localMac),
                           remoteMac := Overlay(remoteIv[..n], c.crypto.remoteMac)))
  }

  /** IVs, keys and ciphers; the IV arrays on the stack are filled only as far as
      the IVs go. */
  function SetUp(c: Context, localIv: seq<byte>, remoteIv: seq<byte>, keys: seq<byte>,
                 localStack: seq<byte>, remoteStack: seq<byte>): (r: Outcome)
    requires |localIv| == |remoteIv| <= |localStack| == |remoteStack| == AES_IV_LENGTH
    requires |c.crypto.localMac| == |c.crypto.remoteMac| == MAX_MAC_SIZE
    ensures r.Accepted? ==> |r.c.crypto.localMac| == |r.c.crypto.remoteMac| == MAX_MAC_SIZE
  {
    var aead, half := AeadOf(c.cipher), |keys| / 2;
    var first, second := keys[..half], keys[half..2 * half];
    var ivA, ivB := Overlay(localIv, localStack), Overlay(remoteIv, remoteStack);
    var stored := WithIvs(c, localIv, remoteIv).crypto;
    if aead != 2 && !KeySize(half) then Rejected
    else
      var server := c.isServer != 0;
      var localState := Keyed(if server then first else second, if aead == 1 then [] else if server then ivA else ivB);
      var remoteState := Keyed(if server then second else first, if aead == 1 then [] else if server then ivB else ivA);
      Accepted(c.(exportable := 1, exportableKeys := keys,
                  crypto := Crypto(1 + aead, localState, remoteState, stored.localMac, stored.remoteMac)))
  }

  function Words(s: seq<byte>): (w: seq<u32>)
    requires |s| % 4 == 0
    ensures |w| == |s| / 4
  {
    if s == [] then []
    else
      FromBigEndianBound(s[|s| - 4..]);
      Words(s[..|s| - 4]) + [Word(s[|s| - 4..])]
  }

  function Word(s: seq<byte>): u32
    requires |s| == 4
  {
    FromBigEndianBound(s);
    assert Pow256(4) == 0x1_0000_0000;
    FromBigEndian(s)
  }

  function Half(s: seq<byte>): u16
    requires |s| == 2
  {
    FromBigEndianBound(s);
    assert Pow256(2) == 0x1_0000;
    FromBigEndian(s)
  }

  function Long(s: seq<byte>): u64
    requires |s| == 8
  {
    FromBigEndianBound(s);
    assert Pow256(8) == 0x1_0000_0000_0000_0000;
    FromBigEndian(s)
  }

  lemma SetUpDecides(c: Context, localIv: seq<byte>, remoteIv: seq<byte>, keys: seq<byte>,
                     localStack: seq<byte>, remoteStack: seq<byte>)
    requires |localIv| == |remoteIv| <= |localStack| == |remoteStack| == AES_IV_LENGTH
    requires |c.crypto.localMac| == |c.crypto.remoteMac| == MAX_MAC_SIZE
    ensures !SetUp(c, localIv, remoteIv, keys, localStack, remoteStack).Overrun?
  {
  }

  /** A length in four bytes and that many bytes.  A length from 2 to the 31 on is
      negative to the size check, and so passes it. */
  datatype Field = Field(data: seq<byte>, next: nat) | Short | Beyond

  function CountedAt(b: seq<byte>, pos: nat): (r: Field)
    ensures r.Field? ==> r.next <= |b|
  {
    if !Fits(b, pos, 4) then Short
    else
      var n := Word(b[pos..pos + 4]);
      if n >= 0x8000_0000 then Beyond
      else if !Fits(b, pos + 4, n) then Short
      else Field(b[pos + 4..pos + 4 + n], pos + 4 + n)
  }

  /** An empty field leaves the context's buffer as it is. */
  function Fill(data: seq<byte>, had: seq<byte>): seq<byte> { if data == [] then had else data }

  function DecodeDtls(c: Context, b: seq<byte>, pos: nat): Outcome
  {
    if !Fits(b, pos, 1) then Rejected
    else
      var c' := c.(dtls := b[pos]);
      if b[pos] == 0 then Accepted(c')
      else if !Fits(b, pos + 1, 4) then Rejected
      else Accepted(c'.(epochLocal := Half(b[pos + 1..pos + 3]), epochRemote := Half(b[pos + 3..pos + 5])))
  }

  function DecodeApplication(c: Context, b: seq<byte>, pos: nat): Outcome
  {
    match CountedAt(b, pos)
    case Field(data, next) =>
      DecodeDtls(c.(cipherSpecSet := 1, applicationBuffer := Fill(data, c.applicationBuffer)), b, next)
    case Short => Rejected
    case Beyond => Overrun
  }

  function DecodeMessage(c: Context, b: seq<byte>, pos: nat): Outcome
  {
    match CountedAt(b, pos)
    case Field(data, next) => DecodeApplication(c.(messageBuffer := Fill(data, c.messageBuffer)), b, next)
    case Short => Rejected
    case Beyond => Overrun
  }

  function DecodeTls(c: Context, b: seq<byte>, pos: nat): Outcome
  {
    match CountedAt(b, pos)
    case Field(data, next) => DecodeMessage(c.(tlsBuffer := Fill(data, c.tlsBuffer)), b, next)
    case Short => Rejected
    case Beyond => Overrun
  }

  function DecodeSequences(c: Context, b: seq<byte>, pos: nat): Outcome
  {
    if !Fits(b, pos, 16) then Rejected
    else
      DecodeTls(c.(localSequence := Long(b[pos..pos + 8]), remoteSequence := Long(b[pos + 8..pos + 16])), b, pos + 16)
  }

  function DecodeMaster(c: Context, b: seq<byte>, pos: nat): Outcome
  {
    if !Fits(b, pos, 2) then Rejected
    else
      var n := Half(b[pos..pos + 2]);
      if !Fits(b, pos + 2, n) then Rejected
      else DecodeSequences(c.(masterKey := Fill(b[pos + 2..pos + 2 + n], c.masterKey)), b, pos + 2 + n)
  }

  /** The MAC keys, or else the ChaCha20 states. */
  function DecodeMac(c: Context, b: seq<byte>, pos: nat): Outcome
    requires |c.crypto.localMac| == |c.crypto.remoteMac| == MAX_MAC_SIZE
  {
    if pos >= |b| then Overrun
    else
      var n: nat := b[pos];
      var k := c.crypto;
      if n > MAX_MAC_SIZE then Rejected
      else if n != 0 then
        if !Fits(b, pos + 1, 2 * n) then Rejected
        else
          DecodeMaster(c.(crypto := k.(localMac := Overlay(b[pos + 1..pos + 1 + n], k.localMac),
                                       remoteMac := Overlay(b[pos + 1 + n..pos + 1 + 2 * n], k.remoteMac))),
                       b, pos + 1 + 2 * n)
      else if AeadOf(c.cipher) == 2 then
        if !Fits(b, pos + 1, 256) then Rejected
        else DecodeMaster(c.(crypto := WithChaCha(k, b[pos + 1..pos + 257])), b, pos + 257)
      else DecodeMaster(c, b, pos + 1)
  }

  function WithChaCha(k: Crypto, s: seq<byte>): Crypto
    requires |s| == 256
  {
    k.(localState := ChaCha(Words(s[..64]), s[128..192]), remoteState := ChaCha(Words(s[64..128]), s[192..]))
  }

  function WithPrefix(c: Context, b: seq<byte>): Context
    requires |b| >= 64
  {
    c.(version := Half(b[1..3]), connectionStatus := b[6], cipher := Half(b[7..9]),
       isServer := if b[9] == 2 then 1 else b[9], isChild := if b[9] == 2 then 1 else c.isChild)
  }

  function DecodeKeys(c: Context, b: seq<byte>, localStack: seq<byte>, remoteStack: seq<byte>): Outcome
    requires |b| >= 64 && |localStack| == |remoteStack| == AES_IV_LENGTH
    requires |c.crypto.localMac| == |c.crypto.remoteMac| == MAX_MAC_SIZE
  {
    var n: nat := b[10];
    if n > AES_IV_LENGTH then Rejected
    else
      var pos := 11 + 2 * n;
      var size: nat := b[pos];
      if !Fits(b, pos + 1, size) then Rejected
      else match SetUp(c, b[11..11 + n], b[11 + n..pos], b[pos + 1..pos + 1 + size], localStack, remoteStack)
        case Accepted(c') => DecodeMac(c', b, pos + 1 + size)
        case r => r
  }

  /** tls_import_context2 on a context c. */
  function Decode(c: Context, b: seq<byte>, localStack: seq<byte>, remoteStack: seq<byte>): Outcome
    requires |localStack| == |remoteStack| == AES_IV_LENGTH
    requires |c.crypto.localMac| == |c.crypto.remoteMac| == MAX_MAC_SIZE
  {
    if |b| < 64 || b[0] != SERIALIZED_OBJECT || b[5] != 0x01 then Rejected
    else if Half(b[3..5]) as int != |b| - 5 then Rejected
    else DecodeKeys(WithPrefix(c, b), b, localStack, remoteStack)
  }
}
