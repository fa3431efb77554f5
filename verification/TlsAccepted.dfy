/** Which buffers the import of a TLS context accepts, in numbers and sizes of bytes. */
module TlsAccepted {
  import opened Bytes
  import opened Options
  import opened Slices
  import opened TlsContext
  import opened TlsOverrun

  function Two(b: seq<byte>, pos: nat): nat
    requires pos + 2 <= |b|
  {
    0x100 * b[pos] as int + b[pos + 1] as int
  }

  /** The three suites of TLS 1.2 with ChaCha20-Poly1305, and the one of TLS 1.3. */
  predicate ChaChaNumber(cipher: nat) { cipher in {0xCCA8, 0xCCA9, 0xCCAA, 0x1303} }

  /** The marks, the length behind the first five bytes, at most sixteen bytes for each
      IV, and two keys of 128, 192 or 256 bits, or any keys for ChaCha20. */
  predicate KeysGood(b: seq<byte>)
  {
    && |b| >= 64 && b[0] == 0xFE && b[5] == 0x01 && Two(b, 3) == |b| - 5 && b[10] <= 16
    && var keys: nat := b[11 + 2 * b[10]];
    && 12 + 2 * b[10] + keys <= |b|
    && (ChaChaNumber(Two(b, 7)) || keys / 2 == 16 || keys / 2 == 24 || keys / 2 == 32)
  }

  /** Where the counted fields begin: behind a size of at most 48 and two MAC keys, or
      else the ChaCha20 states, behind the master key with its size, and behind the
      sequence numbers. */
  function FieldsBegin(b: seq<byte>, pos: nat, chacha: bool): Option<nat>
    requires pos < |b|
  {
    var n: nat := b[pos];
    var macEnd := pos + 1 + (if n > 0 then 2 * n else if chacha then 256 else 0);
    if n > 48 || macEnd + 2 > |b| || macEnd + 2 + Two(b, macEnd) + 16 > |b| then None
    else Some(macEnd + 2 + Two(b, macEnd) + 16)
  }

  /** Where so many counted fields end, if they are there and no size has its top bit
      set. */
  function FieldsEnd(b: seq<byte>, pos: nat, fields: nat): Option<nat>
    decreases fields
  {
    if fields == 0 then Some(pos)
    else if pos + 4 > |b| then None
    else
      var n := Word(b[pos..pos + 4]);
      if n >= 0x8000_0000 || pos + 4 + n > |b| then None else FieldsEnd(b, pos + 4 + n, fields - 1)
  }

  /** The DTLS mark, and both epochs if it is not zero. */
  predicate MarkGood(b: seq<byte>, pos: nat) { pos < |b| && (b[pos] == 0 || pos + 5 <= |b|) }

  predicate Good(b: seq<byte>)
  {
    && KeysGood(b)
    && var n: nat := b[10];
    var keysEnd := 12 + 2 * n + b[11 + 2 * n] as int;
    && keysEnd < |b|
    && var begin := FieldsBegin(b, keysEnd, ChaChaNumber(Two(b, 7)));
    && begin.Some?
    && var end := FieldsEnd(b, begin.value, 3); end.Some? && MarkGood(b, end.value)
  }

  // ---------------------------------------------------------------------
  // The decoder, from its end

  predicate TailGood(b: seq<byte>, pos: nat, fields: nat)
  {
    var end := FieldsEnd(b, pos, fields); end.Some? && MarkGood(b, end.value)
  }

  lemma FieldAccepted(b: seq<byte>, pos: nat, fields: nat)
    requires fields > 0
    ensures TailGood(b, pos, fields) <==> CountedAt(b, pos).Field? && TailGood(b, CountedAt(b, pos).next, fields - 1)
  {
  }

  lemma MarkAccepted(c: Context, b: seq<byte>, pos: nat)
    ensures DecodeDtls(c, b, pos).Accepted? <==> TailGood(b, pos, 0)
  {
    hide Half;
  }

  lemma ApplicationAccepted(c: Context, b: seq<byte>, pos: nat)
    ensures DecodeApplication(c, b, pos).Accepted? <==> TailGood(b, pos, 1)
  {
    hide TailGood, CountedAt, DecodeDtls;
    FieldAccepted(b, pos, 1);
    match CountedAt(b, pos) {
      case Field(data, next) =>
        MarkAccepted(c.(cipherSpecSet := 1, applicationBuffer := Fill(data, c.applicationBuffer)), b, next);
      case _ =>
    }
  }

  lemma MessageAccepted(c: Context, b: seq<byte>, pos: nat)
    ensures DecodeMessage(c, b, pos).Accepted? <==> TailGood(b, pos, 2)
  {
    hide TailGood, CountedAt, DecodeApplication;
    FieldAccepted(b, pos, 2);
    match CountedAt(b, pos) {
      case Field(data, next) => ApplicationAccepted(c.(messageBuffer := Fill(data, c.messageBuffer)), b, next);
      case _ =>
    }
  }

  lemma TlsFieldAccepted(c: Context, b: seq<byte>, pos: nat)
    ensures DecodeTls(c, b, pos).Accepted? <==> TailGood(b, pos, 3)
  {
    hide TailGood, CountedAt, DecodeMessage;
    FieldAccepted(b, pos, 3);
    match CountedAt(b, pos) {
      case Field(data, next) => MessageAccepted(c.(tlsBuffer := Fill(data, c.tlsBuffer)), b, next);
      case _ =>
    }
  }

  lemma HalfIs(b: seq<byte>, pos: nat)
    requires pos + 2 <= |b|
    ensures Half(b[pos..pos + 2]) as int == Two(b, pos)
  {
    var s := b[pos..pos + 2];
    assert s[..1] == [s[0]] && s[..1][..0] == [];
    assert FromBigEndian(s[..1]) == s[0];
  }

  lemma MasterAccepted(c: Context, b: seq<byte>, pos: nat)
    ensures DecodeMaster(c, b, pos).Accepted? <==>
      && pos + 2 <= |b|
      && var begin := pos + 2 + Two(b, pos) + 16; begin <= |b| && TailGood(b, begin, 3)
  {
    hide TailGood, DecodeTls, Half, Long;
    if pos + 2 <= |b| {
      HalfIs(b, pos);
      var end := pos + 2 + Two(b, pos);
      if end + 16 <= |b| {
        var c1 := c.(masterKey := Fill(b[pos + 2..end], c.masterKey));
        TlsFieldAccepted(c1.(localSequence := Long(b[end..end + 8]), remoteSequence := Long(b[end + 8..end + 16])),
                         b, end + 16);
      }
    }
  }

  predicate MacGood(b: seq<byte>, pos: nat, chacha: bool)
  {
    && pos < |b|
    && var begin := FieldsBegin(b, pos, chacha); begin.Some? && TailGood(b, begin.value, 3)
  }

  lemma MacAccepted(c: Context, b: seq<byte>, pos: nat)
    requires |c.crypto.localMac| == |c.crypto.remoteMac| == MAX_MAC_SIZE
    ensures DecodeMac(c, b, pos).Accepted? <==> MacGood(b, pos, AeadOf(c.cipher) == 2)
  {
    hide TailGood, DecodeMaster, AeadOf, WithChaCha, Overlay;
    if pos < |b| && b[pos] <= 48 {
      var n: nat, k := b[pos], c.crypto;
      if n == 0 && AeadOf(c.cipher) != 2 {
        MasterAccepted(c, b, pos + 1);
      } else if n == 0 && pos + 257 <= |b| {
        MasterAccepted(c.(crypto := WithChaCha(k, b[pos + 1..pos + 257])), b, pos + 257);
      } else if n != 0 && pos + 1 + 2 * n <= |b| {
        MasterAccepted(c.(crypto := k.(localMac := Overlay(b[pos + 1..pos + 1 + n], k.localMac),
                                       remoteMac := Overlay(b[pos + 1 + n..pos + 1 + 2 * n], k.remoteMac))),
                       b, pos + 1 + 2 * n);
      }
    }
  }

  lemma ChaChaNumbers(cipher: u16)
    ensures AeadOf(cipher) == 2 <==> ChaChaNumber(cipher)
  {
  }

  /** For every context and whatever is on the stack: the import accepts a buffer if
      and only if its parts are there, in sizes that are allowed, whatever follows. */
  lemma AcceptedExactly(c: Context, b: seq<byte>, ls: seq<byte>, rs: seq<byte>)
    requires |ls| == |rs| == 16 && |c.crypto.localMac| == |c.crypto.remoteMac| == 48
    ensures Decode(c, b, ls, rs).Accepted? <==> Good(b)
  {
    hide DecodeMac, Half, AeadOf, SetUp, FieldsBegin, FieldsEnd, MarkGood, ChaChaNumber;
    if |b| >= 64 && b[0] == 0xFE && b[5] == 0x01 {
      HalfIs(b, 3);
      HalfIs(b, 7);
      ChaChaNumbers(Half(b[7..9]));
      var c', n: nat := WithPrefix(c, b), b[10];
      var pos := 11 + 2 * n;
      if Two(b, 3) == |b| - 5 && n <= 16 && pos + 1 + b[pos] <= |b| {
        var keysEnd := pos + 1 + b[pos];
        var keys := b[pos + 1..keysEnd];
        SetUpAccepts(c', b[11..11 + n], b[11 + n..pos], keys, ls, rs);
        var r := SetUp(c', b[11..11 + n], b[11 + n..pos], keys, ls, rs);
        if r.Accepted? {
          MacAccepted(r.c, b, keysEnd);
        }
      }
    }
  }
}
