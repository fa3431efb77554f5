/** Which buffers make the import of a TLS context read beyond their end.  The size
    checks of the decoder leave out the MAC length behind the keys, and a length with
    its top bit set is negative to them. */
module TlsOverrun {
  import opened Bytes
  import opened Options
  import opened Slices
  import opened TlsContext

  /** Where the byte behind the keys is. */
  function KeysEnd(b: seq<byte>): nat
    requires |b| >= 64 && b[10] <= AES_IV_LENGTH
  {
    var n: nat := b[10];
    var size: nat := b[11 + 2 * n];
    12 + 2 * n + size
  }

  /** The decoder gets as far as setting up the ciphers. */
  predicate KeysAccepted(b: seq<byte>)
  {
    && |b| >= 64 && b[0] == SERIALIZED_OBJECT && b[5] == 0x01 && Half(b[3..5]) as int == |b| - 5
    && b[10] <= AES_IV_LENGTH && KeysEnd(b) <= |b|
    && (AeadOf(Half(b[7..9])) == 2 || KeySize(b[11 + 2 * b[10]] / 2))
  }

  /** The bytes of the MAC keys, or else of the ChaCha20 states. */
  function MacRoom(n: nat, aead: byte): nat { if n != 0 then 2 * n else if aead == 2 then 256 else 0 }

  /** Where the counted fields begin, if MAC keys or ChaCha20 states, master key and
      sequence numbers are there. */
  function FieldsStart(b: seq<byte>, pos: nat, aead: byte): Option<nat>
    requires pos < |b|
  {
    if b[pos] > MAX_MAC_SIZE then None
    else
      var macEnd := pos + 1 + MacRoom(b[pos], aead);
      if !Fits(b, macEnd, 2) then None
      else
        var masterEnd := macEnd + 2 + Half(b[macEnd..macEnd + 2]);
        if !Fits(b, masterEnd, 16) then None else Some(masterEnd + 16)
  }

  /** Of so many counted fields, one that is reached has a length from 2 to the 31 on. */
  predicate NegativeLength(b: seq<byte>, pos: nat, fields: nat)
    decreases fields
  {
    && fields > 0 && Fits(b, pos, 4)
    && var n := Word(b[pos..pos + 4]);
       n >= 0x8000_0000 || (Fits(b, pos + 4, n) && NegativeLength(b, pos + 4 + n, fields - 1))
  }

  predicate ReadsBeyond(b: seq<byte>)
  {
    && KeysAccepted(b)
    && (KeysEnd(b) == |b|
        || var start := FieldsStart(b, KeysEnd(b), AeadOf(Half(b[7..9])));
           start.Some? && NegativeLength(b, start.value, 3))
  }

  lemma FieldOverruns(b: seq<byte>, pos: nat, fields: nat)
    requires fields > 0
    ensures NegativeLength(b, pos, fields) <==>
      match CountedAt(b, pos)
      case Field(_, next) => NegativeLength(b, next, fields - 1)
      case Short => false
      case Beyond => true
  {
  }

  lemma ApplicationOverruns(c: Context, b: seq<byte>, pos: nat)
    ensures DecodeApplication(c, b, pos) == Overrun <==> NegativeLength(b, pos, 1)
  {
    hide NegativeLength, CountedAt;
    FieldOverruns(b, pos, 1);
    NoFields(b);
  }

  lemma NoFields(b: seq<byte>)
    ensures forall pos: nat :: !NegativeLength(b, pos, 0)
  {
  }

  lemma MessageOverruns(c: Context, b: seq<byte>, pos: nat)
    ensures DecodeMessage(c, b, pos) == Overrun <==> NegativeLength(b, pos, 2)
  {
    hide NegativeLength, CountedAt, DecodeApplication;
    FieldOverruns(b, pos, 2);
    match CountedAt(b, pos) {
      case Field(data, next) => ApplicationOverruns(c.(messageBuffer := Fill(data, c.messageBuffer)), b, next);
      case _ =>
    }
  }

  lemma TlsFieldOverruns(c: Context, b: seq<byte>, pos: nat)
    ensures DecodeTls(c, b, pos) == Overrun <==> NegativeLength(b, pos, 3)
  {
    hide NegativeLength, CountedAt, DecodeMessage;
    FieldOverruns(b, pos, 3);
    match CountedAt(b, pos) {
      case Field(data, next) => MessageOverruns(c.(tlsBuffer := Fill(data, c.tlsBuffer)), b, next);
      case _ =>
    }
  }

  lemma MasterOverruns(c: Context, b: seq<byte>, pos: nat)
    ensures DecodeMaster(c, b, pos) == Overrun <==>
      && Fits(b, pos, 2)
      && var end := pos + 2 + Half(b[pos..pos + 2]); Fits(b, end, 16) && NegativeLength(b, end + 16, 3)
  {
    hide NegativeLength, DecodeTls, Half, Long;
    if Fits(b, pos, 2) {
      var end := pos + 2 + Half(b[pos..pos + 2]);
      if Fits(b, end, 16) {
        var c1 := c.(masterKey := Fill(b[pos + 2..end], c.masterKey));
        TlsFieldOverruns(c1.(localSequence := Long(b[end..end + 8]), remoteSequence := Long(b[end + 8..end + 16])),
                         b, end + 16);
      }
    }
  }

  /** What the two cases of the MAC length have in common. */
  lemma BehindMac(c: Context, b: seq<byte>, pos: nat, macEnd: nat, aead: byte)
    requires pos < |b| && b[pos] <= MAX_MAC_SIZE
    requires macEnd == pos + 1 + MacRoom(b[pos], aead)
    ensures DecodeMaster(c, b, macEnd) == Overrun <==>
      var start := FieldsStart(b, pos, aead); start.Some? && NegativeLength(b, start.value, 3)
  {
    hide NegativeLength, DecodeMaster, Half;
    MasterOverruns(c, b, macEnd);
  }

  lemma MacOverruns(c: Context, b: seq<byte>, pos: nat)
    requires |c.crypto.localMac| == |c.crypto.remoteMac| == MAX_MAC_SIZE && pos < |b|
    ensures DecodeMac(c, b, pos) == Overrun <==>
      var start := FieldsStart(b, pos, AeadOf(c.cipher)); start.Some? && NegativeLength(b, start.value, 3)
  {
    hide NegativeLength, DecodeMaster, Half, AeadOf, WithChaCha, Overlay, FieldsStart;
    var n: nat, k, aead := b[pos], c.crypto, AeadOf(c.cipher);
    if n > MAX_MAC_SIZE {
      LongMac(b, pos, aead);
    } else if n == 0 && aead != 2 {
      BehindMac(c, b, pos, pos + 1, aead);
    } else if n == 0 && Fits(b, pos + 1, 256) {
      BehindMac(c.(crypto := WithChaCha(k, b[pos + 1..pos + 257])), b, pos, pos + 257, aead);
    } else if n != 0 && Fits(b, pos + 1, 2 * n) {
      BehindMac(c.(crypto := k.(localMac := Overlay(b[pos + 1..pos + 1 + n], k.localMac),
                                remoteMac := Overlay(b[pos + 1 + n..pos + 1 + 2 * n], k.remoteMac))),
                b, pos, pos + 1 + 2 * n, aead);
    } else {
      ShortMac(b, pos, aead);
    }
  }

  lemma LongMac(b: seq<byte>, pos: nat, aead: byte)
    requires pos < |b| && b[pos] > MAX_MAC_SIZE
    ensures FieldsStart(b, pos, aead) == None
  {
  }

  lemma ShortMac(b: seq<byte>, pos: nat, aead: byte)
    requires pos < |b| && !Fits(b, pos + 1, MacRoom(b[pos], aead))
    ensures FieldsStart(b, pos, aead) == None
  {
  }

  lemma SetUpAccepts(c: Context, localIv: seq<byte>, remoteIv: seq<byte>, keys: seq<byte>,
                     localStack: seq<byte>, remoteStack: seq<byte>)
    requires |localIv| == |remoteIv| <= |localStack| == |remoteStack| == AES_IV_LENGTH
    requires |c.crypto.localMac| == |c.crypto.remoteMac| == MAX_MAC_SIZE
    ensures var r := SetUp(c, localIv, remoteIv, keys, localStack, remoteStack);
      && r != Overrun && (r.Accepted? <==> AeadOf(c.cipher) == 2 || KeySize(|keys| / 2))
      && (r.Accepted? ==> r.c.cipher == c.cipher)
  {
    hide AeadOf;
  }

  lemma KeysOverrun(c: Context, b: seq<byte>, ls: seq<byte>, rs: seq<byte>)
    requires |b| >= 64 && |ls| == |rs| == AES_IV_LENGTH && |c.crypto.localMac| == |c.crypto.remoteMac| == MAX_MAC_SIZE
    requires b[0] == SERIALIZED_OBJECT && b[5] == 0x01 && Half(b[3..5]) as int == |b| - 5 && c.cipher == Half(b[7..9])
    ensures DecodeKeys(c, b, ls, rs) == Overrun <==> ReadsBeyond(b)
  {
    hide NegativeLength, DecodeMac, Half, AeadOf, SetUp, FieldsStart;
    var n: nat := b[10];
    if n <= AES_IV_LENGTH && KeysEnd(b) <= |b| {
      var pos := 11 + 2 * n;
      var keys := b[pos + 1..KeysEnd(b)];
      SetUpAccepts(c, b[11..11 + n], b[11 + n..pos], keys, ls, rs);
      var r := SetUp(c, b[11..11 + n], b[11 + n..pos], keys, ls, rs);
      if r.Accepted? && KeysEnd(b) < |b| {
        MacOverruns(r.c, b, KeysEnd(b));
      } else if r.Accepted? {
        NothingBehind(r.c, b);
      }
    }
  }

  lemma NothingBehind(c: Context, b: seq<byte>)
    requires |c.crypto.localMac| == |c.crypto.remoteMac| == MAX_MAC_SIZE
    ensures DecodeMac(c, b, |b|) == Overrun
  {
  }

  /** For every context and whatever is on the stack: the import reads beyond the
      buffer if and only if the keys are accepted and end where the buffer ends, or
      the length of a counted field that is reached has its top bit set. */
  lemma OverrunExactly(c: Context, b: seq<byte>, ls: seq<byte>, rs: seq<byte>)
    requires |ls| == |rs| == AES_IV_LENGTH && |c.crypto.localMac| == |c.crypto.remoteMac| == MAX_MAC_SIZE
    ensures Decode(c, b, ls, rs) == Overrun <==> ReadsBeyond(b)
  {
    hide NegativeLength, DecodeKeys, Half, AeadOf, FieldsStart;
    if |b| >= 64 && b[0] == SERIALIZED_OBJECT && b[5] == 0x01 && Half(b[3..5]) as int == |b| - 5 {
      KeysOverrun(WithPrefix(c, b), b, ls, rs);
    }
  }

  /** A negotiated GCM context, up to its keys. */
  function GcmFront(size: nat, ivs: seq<byte>, keys: seq<byte>): seq<byte>
    requires |keys| < 0x100
  {
    [SERIALIZED_OBJECT, 0x03, 0x03, size / 0x100 % 0x100, size % 0x100, 0x01, NEGOTIATED, 0x00, 0x9C, 0x01,
     GCM_IV_LENGTH]
    + ivs + [|keys|] + keys
  }

  lemma GcmFrontIs(size: nat, ivs: seq<byte>, keys: seq<byte>, rest: seq<byte>)
    requires |ivs| == 2 * GCM_IV_LENGTH && (|keys| == 32 || |keys| == 64) && size < 0x1_0000
    requires size + 5 == |GcmFront(size, ivs, keys) + rest| >= 64
    ensures var b := GcmFront(size, ivs, keys) + rest;
      && KeysAccepted(b) && KeysEnd(b) == 20 + |keys| && AeadOf(Half(b[7..9])) == 1
      && b[KeysEnd(b)..] == rest
  {
    var b := GcmFront(size, ivs, keys) + rest;
    HalfOf(b[3..5], size);
    HalfOf(b[7..9], 0x009C);
  }

  lemma HalfOf(s: seq<byte>, n: nat)
    requires n < 0x1_0000 && s == [n / 0x100 % 0x100, n % 0x100]
    ensures Half(s) == n
  {
    assert s[..1] == [s[0]] && s[..1][..0] == [];
    assert FromBigEndian(s[..1]) == s[0];
  }

  /** Such buffers exist: one that ends with its keys, */
  lemma KeysFillBuffer(c: Context, ivs: seq<byte>, keys: seq<byte>, ls: seq<byte>, rs: seq<byte>)
    requires |ls| == |rs| == AES_IV_LENGTH && |c.crypto.localMac| == |c.crypto.remoteMac| == MAX_MAC_SIZE
    requires |ivs| == 2 * GCM_IV_LENGTH && |keys| == 64
    ensures Decode(c, GcmFront(79, ivs, keys), ls, rs) == Overrun
  {
    hide Decode, GcmFront, NegativeLength, FieldsStart, KeysAccepted;
    var b := GcmFront(79, ivs, keys);
    assert b + [] == b && |b| == 84 by { GcmFrontLength(79, ivs, keys); }
    GcmFrontIs(79, ivs, keys, []);
    OverrunExactly(c, b, ls, rs);
  }

  lemma GcmFrontLength(size: nat, ivs: seq<byte>, keys: seq<byte>)
    requires |keys| < 0x100
    ensures |GcmFront(size, ivs, keys)| == 12 + |ivs| + |keys|
  {
  }

  /** and one whose first counted length is 2 to the 31. */
  lemma LengthIsNegative(c: Context, ivs: seq<byte>, keys: seq<byte>, ls: seq<byte>, rs: seq<byte>)
    requires |ls| == |rs| == AES_IV_LENGTH && |c.crypto.localMac| == |c.crypto.remoteMac| == MAX_MAC_SIZE
    requires |ivs| == 2 * GCM_IV_LENGTH && |keys| == 32
    ensures Decode(c, GcmFront(70, ivs, keys) + (Zeros(19) + [0x80, 0, 0, 0]), ls, rs) == Overrun
  {
    hide Decode, GcmFront, KeysAccepted, Zeros;
    var rest := Zeros(19) + [0x80, 0, 0, 0];
    var b := GcmFront(70, ivs, keys) + rest;
    GcmFrontLength(70, ivs, keys);
    GcmFrontIs(70, ivs, keys, rest);
    ZerosAre(19);
    assert b[52..] == rest && b[52] == rest[0] && b[53..55] == rest[1..3] && b[71..75] == rest[19..23];
    HalfOf(b[53..55], 0);
    WordOf(b[71..75]);
    assert FieldsStart(b, 52, 1) == Some(71);
    OverrunExactly(c, b, ls, rs);
  }

  lemma {:induction false} ZerosAre(n: nat)
    ensures forall i :: 0 <= i < n ==> Zeros(n)[i] == 0
  {
    if n > 0 {
      ZerosAre(n - 1);
    }
  }

  lemma WordOf(s: seq<byte>)
    requires s == [0x80, 0, 0, 0]
    ensures Word(s) == 0x8000_0000
  {
    assert s[..3] == [0x80, 0, 0] && s[..3][..2] == [0x80, 0];
    assert s[..3][..2][..1] == [0x80] && s[..3][..2][..1][..0] == [];
    assert FromBigEndian(s[..3][..2][..1]) == 0x80;
    assert FromBigEndian(s[..3][..2]) == 0x8000;
    assert FromBigEndian(s[..3]) == 0x80_0000;
  }
}
