/** What the reader of encrypted messages makes of everything the writer produces, and of messages of the
    same form with other identifiers in them. */
module CryptogramReading {
  import opened Bytes
  import opened Der
  import opened Cryptogram

  // ---------------------------------------------------------------- messages with any identifiers

  /** The identifiers the reader looks at, in the order it does, except the curve inside the key. */
  datatype Ids = Ids(
    curve: seq<Byte>, keyCurve: seq<Byte>, kdfHash: seq<Byte>, macHash: seq<Byte>,
    keyCipher: seq<Byte>, dataCipher: seq<Byte>)

  const STANDARD := Ids(PRIME256V1_ID, PRIME256V1_ID, SHA384_ID, SHA384_ID, AES256_CBC_ID, AES256_GCM_ID)

  /** Any identifiers of the usual lengths. */
  predicate Shaped(i: Ids) {
    |i.curve| == |i.keyCurve| == 8 && |i.kdfHash| == |i.macHash| == |i.keyCipher| == |i.dataCipher| == 9
  }

  function EcTypeOf(curve: seq<Byte>): (b: seq<Byte>)
    requires |curve| == 8
    ensures |b| == 21
  {
    Tlv(SEQUENCE, Tlv(OID, EC_ID) + Tlv(OID, curve))
  }

  function KeyInfoOf(pubkey: seq<Byte>, curve: seq<Byte>): (b: seq<Byte>)
    requires |pubkey| == 65 && |curve| == 8
    ensures |b| == 91
  {
    Tlv(SEQUENCE, EcTypeOf(curve) + Tlv(BIT_STRING, [0] + pubkey))
  }

  function KdfInfoOf(hash: seq<Byte>): (b: seq<Byte>)
    requires |hash| == 9
    ensures |b| == 26
  {
    Tlv(SEQUENCE, Tlv(OID, KDF2_ID) + Tlv(SEQUENCE, Tlv(OID, hash) + Tlv(NULL, [])))
  }

  function HmacBlockOf(p: Parts, hash: seq<Byte>): (b: seq<Byte>)
    requires Sized(p) && |hash| == 9
    ensures |b| == 67
  {
    Tlv(SEQUENCE, Tlv(SEQUENCE, Tlv(OID, hash) + Tlv(NULL, [])) + Tlv(OCTET_STRING, p.hmac))
  }

  function KeyBlockOf(p: Parts, cipher: seq<Byte>): (b: seq<Byte>)
    requires Sized(p) && |cipher| == 9
    ensures |b| == 83
  {
    Tlv(SEQUENCE, Tlv(SEQUENCE, Tlv(OID, cipher) + Tlv(OCTET_STRING, p.ivKey)) + Tlv(OCTET_STRING, p.key))
  }

  function SecretOf(p: Parts, i: Ids): (b: seq<Byte>)
    requires Sized(p) && Shaped(i)
    ensures |b| == 270
  {
    Version(0) + KeyInfoOf(p.pubkey, i.keyCurve) + KdfInfoOf(i.kdfHash) + HmacBlockOf(p, i.macHash)
        + KeyBlockOf(p, i.keyCipher)
  }

  function RecipientOf(p: Parts, i: Ids): (b: seq<Byte>)
    requires Sized(p) && Shaped(i)
    ensures |b| == 306 + |p.recipient|
  {
    Version(2) + Tlv(ZERO_TAG, Tlv(OCTET_STRING, p.recipient)) + EcTypeOf(i.curve)
    + Tlv(OCTET_STRING, Tlv(SEQUENCE, SecretOf(p, i)))
  }

  function DataBlockOf(p: Parts, cipher: seq<Byte>): (b: seq<Byte>)
    requires Sized(p) && |cipher| == 9
    ensures |b| == 40
  {
    Tlv(SEQUENCE, Tlv(OID, DATA_ID) + Tlv(SEQUENCE, Tlv(OID, cipher) + Tlv(OCTET_STRING, p.ivData)))
  }

  function EnvelopedOf(p: Parts, i: Ids): (b: seq<Byte>)
    requires Sized(p) && Shaped(i)
    ensures |b| == 357 + |p.recipient|
  {
    Version(2) + Tlv(SET, Tlv(SEQUENCE, RecipientOf(p, i))) + DataBlockOf(p, i.dataCipher)
  }

  function EnvelopeOf(p: Parts, i: Ids): (b: seq<Byte>)
    requires Sized(p) && Shaped(i)
    ensures |b| == 387 + |p.recipient|
  {
    Tlv(SEQUENCE, Version(0) + Tlv(SEQUENCE, Tlv(OID, ENVELOPED_ID) + Tlv(ZERO_TAG, Tlv(SEQUENCE, EnvelopedOf(p, i)))))
  }

  /** The message the writer would produce with these identifiers. */
  function MessageOf(p: Parts, i: Ids): seq<Byte>
    requires Sized(p) && Shaped(i)
  {
    EnvelopeOf(p, i) + p.payload
  }

  lemma StandardSecret(p: Parts)
    requires Sized(p)
    ensures Shaped(STANDARD) && EcTypeOf(STANDARD.curve) == EcType() && SecretOf(p, STANDARD) == Secret(p)
    ensures DataBlockOf(p, STANDARD.dataCipher) == DataBlock(p)
  {
    hide Tlv, Version;
  }

  /** With the usual identifiers it is the message the writer does produce. */
  lemma StandardMessage(p: Parts)
    requires Sized(p)
    ensures Shaped(STANDARD) && MessageOf(p, STANDARD) == Message(p)
  {
    StandardSecret(p);
    hide Tlv, Version, Secret, SecretOf, EcType, EcTypeOf, DataBlock, DataBlockOf;
  }

  // ---------------------------------------------------------------- reading

  /** An identifier of the expected length is accepted exactly if it is the expected one. */
  lemma OidTlv(x: seq<Byte>, id: seq<Byte>, tail: seq<Byte>)
    requires |x| == |id| < 0x80
    ensures Identified(Some(Tlv(OID, x) + tail), id) == if x == id then Some(tail) else None
  {
    ReadsTlv(OID, x, tail);
    var s := Tlv(OID, x) + tail;
    assert s == [OID, |x|] + x + tail;
    assert s[2..] == x + tail && (x + tail)[..|x|] == x;
  }

  lemma OctetsTlv(x: seq<Byte>, tail: seq<Byte>)
    requires |x| < 0x80
    ensures Octets(Some(Tlv(OCTET_STRING, x) + tail), |x|) == Some((x, tail))
    ensures GetArray(OCTET_STRING, Tlv(OCTET_STRING, x) + tail) == Some((x, tail))
  {
    ReadsTlv(OCTET_STRING, x, tail);
  }

  lemma VersionIs(n: Byte)
    ensures Version(n) == Tlv(INTEGER, [n])
  {
  }

  /** Another cipher for the key: the reader returns success and leaves the rest unset. */
  lemma KeyBlockReads(p: Parts, c: seq<Byte>, tail: seq<Byte>, pubkey: Option<seq<Byte>>, hmac: seq<Byte>)
    requires Sized(p) && |c| == 9
    ensures ParseKeyBlock(KeyBlockOf(p, c) + tail, pubkey, hmac)
            == if c == AES256_CBC_ID then Got(Fields(pubkey, hmac, p.ivKey, p.key))
               else Failed(Silent(pubkey, Some(hmac)))
  {
    var algorithm, iv, key := Tlv(OID, c), Tlv(OCTET_STRING, p.ivKey), Tlv(OCTET_STRING, p.key);
    hide Tlv, Into, Over, Identified, Octets;
    IntoTlv(SEQUENCE, Tlv(SEQUENCE, algorithm + iv), key, tail);
    IntoTlv(SEQUENCE, algorithm, iv, key + tail);
    OidTlv(c, AES256_CBC_ID, iv + (key + tail));
    OctetsTlv(p.ivKey, key + tail);
    OctetsTlv(p.key, tail);
  }

  /** Another curve in the key: the reader goes on with the key unset. */
  lemma KeyInfoReads(pubkey: seq<Byte>, curve: seq<Byte>, tail: seq<Byte>)
    requires |pubkey| == 65 && |curve| == 8
    ensures ParseKeyInfo(KeyInfoOf(pubkey, curve) + tail) == if curve == PRIME256V1_ID then Found(pubkey) else Unset
  {
    var bits := Tlv(BIT_STRING, [0] + pubkey);
    EcTypeReads(bits, curve, tail);
    ReadsTlv(BIT_STRING, [0] + pubkey, tail);
    assert ([0] + pubkey)[1..] == pubkey;
    hide Tlv, Into, Over, Identified;
  }

  /** Into a key with its algorithm, past the algorithm. */
  lemma EcTypeReads(bits: seq<Byte>, curve: seq<Byte>, tail: seq<Byte>)
    requires |bits| < 1000 && |curve| == 8
    ensures Identified(Over(Into(Into(Some(Tlv(SEQUENCE, EcTypeOf(curve) + bits) + tail), SEQUENCE), SEQUENCE), OID),
            PRIME256V1_ID)
            == if curve == PRIME256V1_ID then Some(bits + tail) else None
  {
    hide Tlv, Into, Over, Identified, EcTypeOf;
    IntoTlv(SEQUENCE, EcTypeOf(curve), bits, tail);
    CurveReads(curve, bits + tail);
  }

  lemma CurveReads(curve: seq<Byte>, tail: seq<Byte>)
    requires |curve| == 8
    ensures Identified(Over(Into(Some(EcTypeOf(curve) + tail), SEQUENCE), OID), PRIME256V1_ID)
            == if curve == PRIME256V1_ID then Some(tail) else None
  {
    var ec, id := Tlv(OID, EC_ID), Tlv(OID, curve);
    assert |ec + id| == 19;
    hide Tlv, Into, Over, Identified;
    IntoTlv(SEQUENCE, ec, id, tail);
    OverTlv(OID, EC_ID, id + tail);
    OidTlv(curve, PRIME256V1_ID, tail);
  }

  lemma HmacReads(p: Parts, hash: seq<Byte>, tail: seq<Byte>)
    requires Sized(p) && |hash| == 9
    ensures Octets(Over(Identified(Into(Into(Some(HmacBlockOf(p, hash) + tail), SEQUENCE), SEQUENCE), SHA384_ID),
            NULL), 48)
            == if hash == SHA384_ID then Some((p.hmac, tail)) else None
  {
    var id, nil, mac := Tlv(OID, hash), Tlv(NULL, []), Tlv(OCTET_STRING, p.hmac);
    assert |id + nil| == 13 && |Tlv(SEQUENCE, id + nil) + mac| == 65;
    NoneStays();
    hide Tlv, Into, Over, Identified, Octets;
    IntoTlv(SEQUENCE, Tlv(SEQUENCE, id + nil), mac, tail);
    IntoTlv(SEQUENCE, id, nil, mac + tail);
    OidTlv(hash, SHA384_ID, nil + (mac + tail));
    OverTlv(NULL, [], mac + tail);
    OctetsTlv(p.hmac, tail);
  }

  /** A failed chain stays failed. */
  lemma NoneStays()
    ensures forall tag :: Into(None, tag) == None && Over(None, tag) == None
    ensures forall n: nat :: Octets(None, n) == None
  {
  }

  lemma KdfReads(hash: seq<Byte>, tail: seq<Byte>)
    requires |hash| == 9
    ensures Over(Identified(Into(Over(Into(Some(KdfInfoOf(hash) + tail), SEQUENCE), OID), SEQUENCE), SHA384_ID), NULL)
            == if hash == SHA384_ID then Some(tail) else None
  {
    var kdf, id, nil := Tlv(OID, KDF2_ID), Tlv(OID, hash), Tlv(NULL, []);
    assert |id + nil| == 13 && |kdf + Tlv(SEQUENCE, id + nil)| == 24;
    NoneStays();
    hide Tlv, Into, Over, Identified;
    IntoTlv(SEQUENCE, kdf, Tlv(SEQUENCE, id + nil), tail);
    OverTlv(OID, KDF2_ID, Tlv(SEQUENCE, id + nil) + tail);
    IntoTlv(SEQUENCE, id, nil, tail);
    OidTlv(hash, SHA384_ID, nil + tail);
    OverTlv(NULL, [], tail);
  }

  /** From the version of the secret to what follows the key. */
  lemma SecretReads(p: Parts, i: Ids, tail: seq<Byte>)
    requires Sized(p) && Shaped(i)
    ensures var s := KdfInfoOf(i.kdfHash) + (HmacBlockOf(p, i.macHash) + (KeyBlockOf(p, i.keyCipher) + tail));
            && Over(Some(SecretOf(p, i) + tail), INTEGER) == Some(KeyInfoOf(p.pubkey, i.keyCurve) + s)
            && Over(Some(KeyInfoOf(p.pubkey, i.keyCurve) + s), SEQUENCE) == Some(s)
  {
    var info, kdf := KeyInfoOf(p.pubkey, i.keyCurve), KdfInfoOf(i.kdfHash);
    var mac, block := HmacBlockOf(p, i.macHash), KeyBlockOf(p, i.keyCipher);
    var s := kdf + (mac + (block + tail));
    OverTlv(INTEGER, [0], info + s);
    OverTlv(SEQUENCE, EcTypeOf(i.keyCurve) + Tlv(BIT_STRING, [0] + p.pubkey), s);
    hide Version, KeyInfoOf, KdfInfoOf, HmacBlockOf, KeyBlockOf, Over;
    SecretSplits(Version(0), info, kdf, mac, block, tail);
    VersionIs(0);
  }

  lemma SecretSplits(a: seq<Byte>, b: seq<Byte>, c: seq<Byte>, d: seq<Byte>, e: seq<Byte>, t: seq<Byte>)
    ensures a + b + c + d + e + t == a + (b + (c + (d + (e + t))))
  {
    assert a + b + c + d + e + t == a + (b + c + d + e + t);
    assert b + c + d + e + t == b + (c + d + e + t);
    assert c + d + e + t == c + (d + (e + t));
  }

  /** The public key, as far as the reader sets it. */
  function KeyRead(p: Parts, i: Ids): Option<seq<Byte>> {
    if i.keyCurve == PRIME256V1_ID then Some(p.pubkey) else None
  }

  /** What the recipient's block yields. */
  function RecipientResult(p: Parts, i: Ids): Result {
    if i.curve != PRIME256V1_ID || i.kdfHash != SHA384_ID || i.macHash != SHA384_ID then Failed(Refused)
    else
      var pubkey := KeyRead(p, i);
      if i.keyCipher != AES256_CBC_ID then Failed(Silent(pubkey, Some(p.hmac)))
      else Got(Fields(pubkey, p.hmac, p.ivKey, p.key))
  }

  lemma RecipientReads(p: Parts, i: Ids, tail: seq<Byte>)
    requires Sized(p) && Shaped(i)
    ensures ParseRecipient(EcTypeOf(i.curve) + (Tlv(OCTET_STRING, Tlv(SEQUENCE, SecretOf(p, i))) + tail))
            == RecipientResult(p, i)
  {
    var block := KeyBlockOf(p, i.keyCipher) + tail;
    var mac := HmacBlockOf(p, i.macHash) + block;
    var s := KdfInfoOf(i.kdfHash) + mac;
    NoneStays();
    hide Tlv, Into, Over, Identified, Octets, ParseKeyInfo, ParseKeyBlock, SecretOf, EcTypeOf, KeyInfoOf, KdfInfoOf,
         HmacBlockOf, KeyBlockOf;
    CurveReads(i.curve, Tlv(OCTET_STRING, Tlv(SEQUENCE, SecretOf(p, i))) + tail);
    Unwrap(SecretOf(p, i), tail);
    SecretReads(p, i, tail);
    KeyInfoReads(p.pubkey, i.keyCurve, s);
    KdfReads(i.kdfHash, mac);
    HmacReads(p, i.macHash, block);
    KeyBlockReads(p, i.keyCipher, tail, KeyRead(p, i), p.hmac);
  }

  /** Into the recipient's element, up to the octet string of its id. */
  lemma ElementReads(p: Parts, i: Ids, tail: seq<Byte>)
    requires Sized(p) && Shaped(i)
    ensures var s := Tlv(SEQUENCE, RecipientOf(p, i)) + tail;
            var u := EcTypeOf(i.curve) + (Tlv(OCTET_STRING, Tlv(SEQUENCE, SecretOf(p, i))) + tail);
            Into(Over(Into(Some(s), SEQUENCE), INTEGER), ZERO_TAG) == Some(Tlv(OCTET_STRING, p.recipient) + u)
  {
    var secret := Tlv(OCTET_STRING, Tlv(SEQUENCE, SecretOf(p, i)));
    var zero := Tlv(ZERO_TAG, Tlv(OCTET_STRING, p.recipient));
    var u := EcTypeOf(i.curve) + (secret + tail);
    assert 0 < |RecipientOf(p, i)| < 1000;
    VersionIs(2);
    hide Version, SecretOf, EcTypeOf, Into, Over;
    Splits4(Version(2), zero, EcTypeOf(i.curve), secret, tail);
    EntersElement(RecipientOf(p, i), tail);
    OverTlv(INTEGER, [2], zero + u);
    IntoTlv(ZERO_TAG, Tlv(OCTET_STRING, p.recipient), [], u);
    assert Tlv(OCTET_STRING, p.recipient) + [] == Tlv(OCTET_STRING, p.recipient) && [] + u == u;
  }

  lemma EntersElement(x: seq<Byte>, tail: seq<Byte>)
    requires 0 < |x| < 1000
    ensures Into(Some(Tlv(SEQUENCE, x) + tail), SEQUENCE) == Some(x + tail)
  {
    ReadsTlv(SEQUENCE, x, tail);
  }

  /** The first element of the set is the recipient's. */
  lemma RecipientFound(p: Parts, i: Ids, id: seq<Byte>, tail: seq<Byte>)
    requires Sized(p) && Shaped(i) && (id == [] || id == p.recipient)
    ensures FindRecipient(Tlv(SEQUENCE, RecipientOf(p, i)) + tail, id)
            == At(EcTypeOf(i.curve) + (Tlv(OCTET_STRING, Tlv(SEQUENCE, SecretOf(p, i))) + tail))
  {
    var u := EcTypeOf(i.curve) + (Tlv(OCTET_STRING, Tlv(SEQUENCE, SecretOf(p, i))) + tail);
    ElementReads(p, i, tail);
    ReadsTlv(OCTET_STRING, p.recipient, u);
    hide Tlv, RecipientOf, SecretOf, EcTypeOf, Into, Over, StepInto, Skip;
    assert (p.recipient + u)[..|p.recipient|] == p.recipient && (p.recipient + u)[|p.recipient|..] == u;
  }

  lemma Splits4(a: seq<Byte>, b: seq<Byte>, c: seq<Byte>, d: seq<Byte>, t: seq<Byte>)
    ensures a + b + c + d + t == a + (b + (c + (d + t)))
  {
    assert a + b + c + d + t == a + (b + c + d + t);
    assert b + c + d + t == b + (c + (d + t));
  }

  /** The way to the set of recipients. */
  lemma SetReached(p: Parts, i: Ids)
    requires Sized(p) && Shaped(i)
    ensures ToSet(MessageOf(p, i))
            == Some(Tlv(SET, Tlv(SEQUENCE, RecipientOf(p, i))) + (DataBlockOf(p, i.dataCipher) + p.payload))
  {
    var set_, data, tail := Tlv(SET, Tlv(SEQUENCE, RecipientOf(p, i))), DataBlockOf(p, i.dataCipher), p.payload;
    var oid, zero := Tlv(OID, ENVELOPED_ID), Tlv(ZERO_TAG, Tlv(SEQUENCE, EnvelopedOf(p, i)));
    assert |EnvelopedOf(p, i)| < 1000;
    VersionIs(0);
    VersionIs(2);
    hide Version, RecipientOf, DataBlockOf, Into, Over, Tlv;
    OuterLength(p, i);
    IntoTlv(SEQUENCE, Version(0), Tlv(SEQUENCE, oid + zero), tail);
    OverTlv(INTEGER, [0], Tlv(SEQUENCE, oid + zero) + tail);
    IntoTlv(SEQUENCE, oid, zero, tail);
    OverTlv(OID, ENVELOPED_ID, zero + tail);
    UnwrapZero(EnvelopedOf(p, i), tail);
    Splits3(Version(2), set_, data, tail);
    OverTlv(INTEGER, [2], set_ + (data + tail));
  }

  lemma OuterLength(p: Parts, i: Ids)
    requires Sized(p) && Shaped(i)
    ensures var x := Tlv(OID, ENVELOPED_ID) + Tlv(ZERO_TAG, Tlv(SEQUENCE, EnvelopedOf(p, i)));
            0 < |x| < 1000 && 0 < |Version(0) + Tlv(SEQUENCE, x)| < 1000
  {
    hide EnvelopedOf;
  }

  lemma Splits3(a: seq<Byte>, b: seq<Byte>, c: seq<Byte>, t: seq<Byte>)
    ensures a + b + c + t == a + (b + (c + t))
  {
    assert a + b + c + t == a + (b + c + t);
  }

  lemma UnwrapZero(x: seq<Byte>, tail: seq<Byte>)
    requires 0 < |x| < 1000
    ensures Into(Into(Some(Tlv(ZERO_TAG, Tlv(SEQUENCE, x)) + tail), ZERO_TAG), SEQUENCE) == Some(x + tail)
  {
    ReadsTlv(ZERO_TAG, Tlv(SEQUENCE, x), tail);
    ReadsTlv(SEQUENCE, x, tail);
    hide Tlv;
  }

  lemma DataReads(p: Parts, c: seq<Byte>)
    requires Sized(p) && |c| == 9
    ensures Octets(Identified(Into(Over(Into(Some(DataBlockOf(p, c) + p.payload), SEQUENCE), OID), SEQUENCE),
            AES256_GCM_ID), 12)
            == if c == AES256_GCM_ID then Some((p.ivData, p.payload)) else None
  {
    var kind, id, iv, tail := Tlv(OID, DATA_ID), Tlv(OID, c), Tlv(OCTET_STRING, p.ivData), p.payload;
    assert |id + iv| == 25 && |kind + Tlv(SEQUENCE, id + iv)| == 38;
    NoneStays();
    hide Tlv, Into, Over, Identified, Octets;
    IntoTlv(SEQUENCE, kind, Tlv(SEQUENCE, id + iv), tail);
    OverTlv(OID, DATA_ID, Tlv(SEQUENCE, id + iv) + tail);
    IntoTlv(SEQUENCE, id, iv, tail);
    OidTlv(c, AES256_GCM_ID, iv + tail);
    OctetsTlv(p.ivData, tail);
  }

  lemma SizeReads(p: Parts, i: Ids)
    requires Sized(p) && Shaped(i)
    ensures GetSize(MessageOf(p, i)) == |EnvelopeOf(p, i)| && MessageOf(p, i)[|EnvelopeOf(p, i)|..] == p.payload
  {
    var x := Tlv(OID, ENVELOPED_ID) + Tlv(ZERO_TAG, Tlv(SEQUENCE, EnvelopedOf(p, i)));
    OuterLength(p, i);
    hide EnvelopedOf, Tlv, Version;
    ReadsTlv(SEQUENCE, Version(0) + Tlv(SEQUENCE, x), p.payload);
  }

  // ---------------------------------------------------------------- what a message is read as

  /** What the reader answers, by identifiers: another curve of the key or another hash is refused; after
      these, another cipher of the key is a success without outputs; then another cipher of the data is
      refused; and another curve inside the key is a success with the key left unset. */
  function Reading(p: Parts, i: Ids): Outcome {
    match RecipientResult(p, i)
    case Failed(out) => out
    case Got(fields) => if i.dataCipher == AES256_GCM_ID then Parsed(fields, p.ivData, p.payload) else Refused
  }

  lemma ParseByIdentifiers(p: Parts, i: Ids, id: seq<Byte>)
    requires Sized(p) && Shaped(i) && (id == [] || id == p.recipient)
    ensures Parse(MessageOf(p, i), id) == Reading(p, i)
  {
    var element, tail := Tlv(SEQUENCE, RecipientOf(p, i)), DataBlockOf(p, i.dataCipher) + p.payload;
    assert 0 < |element| < 1000 && |MessageOf(p, i)| > |EnvelopeOf(p, i)|;
    hide Tlv, Into, Over, Identified, Octets, FindRecipient, ParseRecipient, RecipientOf, SecretOf, EcTypeOf,
         DataBlockOf, MessageOf, EnvelopeOf, GetSize, RecipientResult, ToSet;
    SetReached(p, i);
    IntoTlv(SET, element, [], tail);
    assert element + [] == element && [] + tail == tail;
    OverTlv(SET, element, tail);
    RecipientFound(p, i, id, tail);
    RecipientReads(p, i, tail);
    DataReads(p, i.dataCipher);
    SizeReads(p, i);
  }

  /** Success with an output left unset, exactly: the curve, the hash of the key derivation and that of the
      MAC are the expected ones, and either the cipher of the key is another one, or the curve inside the key
      is and the cipher of the data is not. */
  lemma UnsetExactly(p: Parts, i: Ids, id: seq<Byte>)
    requires Sized(p) && Shaped(i) && (id == [] || id == p.recipient)
    ensures var o := Parse(MessageOf(p, i), id);
            (o.Silent? || (o.Parsed? && o.fields.pubkey.None?))
            <==> && i.curve == PRIME256V1_ID && i.kdfHash == SHA384_ID && i.macHash == SHA384_ID
                 && (i.keyCipher != AES256_CBC_ID || (i.keyCurve != PRIME256V1_ID && i.dataCipher == AES256_GCM_ID))
  {
    ParseByIdentifiers(p, i, id);
    hide Parse, MessageOf;
  }

  /** Parsing what create wrote gives back every field and the encrypted data, with the recipient named or any
      recipient. */
  lemma RoundTrip(p: Parts, id: seq<Byte>)
    requires Sized(p) && (id == [] || id == p.recipient)
    ensures Parse(Message(p), id) == Parsed(Fields(Some(p.pubkey), p.hmac, p.ivKey, p.key), p.ivData, p.payload)
  {
    StandardMessage(p);
    ParseByIdentifiers(p, STANDARD, id);
    hide Parse, Message, MessageOf;
  }

  /** For example: AES-256 in another mode for the key is answered with success, when the public key and the HMAC
      are set, and the IVs, the encrypted key and the payload are not. */
  lemma SilentExample(p: Parts)
    requires Sized(p)
    ensures Shaped(STANDARD.(keyCipher := AES256_GCM_ID))
    ensures Parse(MessageOf(p, STANDARD.(keyCipher := AES256_GCM_ID)), p.recipient)
            == Silent(Some(p.pubkey), Some(p.hmac))
  {
    assert AES256_GCM_ID[8] != AES256_CBC_ID[8];
    ParseByIdentifiers(p, STANDARD.(keyCipher := AES256_GCM_ID), p.recipient);
    hide Parse, MessageOf;
  }

  const PRIME192V1_ID: seq<Byte> := [0x2A, 0x86, 0x48, 0xCE, 0x3D, 0x03, 0x01, 0x01]

  /** ... and another curve inside the key leaves the key unset. */
  lemma UnsetExample(p: Parts)
    requires Sized(p)
    ensures Shaped(STANDARD.(keyCurve := PRIME192V1_ID))
    ensures var o := Parse(MessageOf(p, STANDARD.(keyCurve := PRIME192V1_ID)), p.recipient);
            o == Parsed(Fields(None, p.hmac, p.ivKey, p.key), p.ivData, p.payload)
  {
    assert PRIME192V1_ID[7] != PRIME256V1_ID[7];
    ParseByIdentifiers(p, STANDARD.(keyCurve := PRIME192V1_ID), p.recipient);
    hide Parse, MessageOf;
  }

  /** A message for someone else is refused: the scan goes on to what follows the only recipient. */
  lemma OtherRecipient(p: Parts, i: Ids, id: seq<Byte>)
    requires Sized(p) && Shaped(i) && 0 < |id| <= |p.recipient| && id != p.recipient[..|id|]
    ensures Parse(MessageOf(p, i), id) == Refused
  {
    var element, tail := Tlv(SEQUENCE, RecipientOf(p, i)), DataBlockOf(p, i.dataCipher) + p.payload;
    assert 0 < |element| < 1000;
    NotFound(p, i, id);
    hide Tlv, Into, Over, Identified, Octets, FindRecipient, ParseRecipient, RecipientOf, DataBlockOf, MessageOf, ToSet;
    SetReached(p, i);
    IntoTlv(SET, element, [], tail);
    assert element + [] == element && [] + tail == tail;
  }

  lemma NotFound(p: Parts, i: Ids, id: seq<Byte>)
    requires Sized(p) && Shaped(i) && 0 < |id| <= |p.recipient| && id != p.recipient[..|id|]
    ensures FindRecipient(Tlv(SEQUENCE, RecipientOf(p, i)) + (DataBlockOf(p, i.dataCipher) + p.payload), id)
            == Stop(Refused)
  {
    var tail := DataBlockOf(p, i.dataCipher) + p.payload;
    var u := EcTypeOf(i.curve) + (Tlv(OCTET_STRING, Tlv(SEQUENCE, SecretOf(p, i))) + tail);
    ElementReads(p, i, tail);
    Entered(p.recipient, u, id);
    Skipped(RecipientOf(p, i), tail);
    NoInteger(p, i);
    hide Tlv, RecipientOf, SecretOf, EcTypeOf, DataBlockOf, Into, Over, StepInto, Skip, Begins;
    NextElement(Tlv(SEQUENCE, RecipientOf(p, i)) + tail, Tlv(OCTET_STRING, p.recipient) + u, p.recipient + u, tail, id);
  }

  lemma Entered(recipient: seq<Byte>, u: seq<Byte>, id: seq<Byte>)
    requires 0 < |id| <= |recipient| < 126 && id != recipient[..|id|]
    ensures StepInto(OCTET_STRING, Tlv(OCTET_STRING, recipient) + u) == Some(recipient + u)
            && !Begins(recipient + u, id)
  {
    ReadsTlv(OCTET_STRING, recipient, u);
    assert (recipient + u)[..|id|] == recipient[..|id|];
  }

  lemma Skipped(x: seq<Byte>, tail: seq<Byte>)
    requires |x| < 1000
    ensures Skip(SEQUENCE, Tlv(SEQUENCE, x) + tail) == Some(tail)
  {
    ReadsTlv(SEQUENCE, x, tail);
  }

  /** The scan goes on behind an element with another id. */
  lemma NextElement(s: seq<Byte>, t: seq<Byte>, u: seq<Byte>, next: seq<Byte>, id: seq<Byte>)
    requires id != [] && Into(Over(Into(Some(s), SEQUENCE), INTEGER), ZERO_TAG) == Some(t)
    requires StepInto(OCTET_STRING, t) == Some(u) && !Begins(u, id) && Skip(SEQUENCE, s) == Some(next)
    requires Into(Over(Into(Some(next), SEQUENCE), INTEGER), ZERO_TAG) == None
    ensures FindRecipient(s, id) == Stop(Refused)
  {
    hide Into, Over, StepInto, Skip, Begins;
    assert FindRecipient(next, id) == Stop(Refused);
  }

  /** The data block does not begin like a recipient. */
  lemma NoInteger(p: Parts, i: Ids)
    requires Sized(p) && Shaped(i)
    ensures Into(Over(Into(Some(DataBlockOf(p, i.dataCipher) + p.payload), SEQUENCE), INTEGER), ZERO_TAG) == None
  {
    var kind, rest := Tlv(OID, DATA_ID), Tlv(SEQUENCE, Tlv(OID, i.dataCipher) + Tlv(OCTET_STRING, p.ivData));
    assert |kind + rest| == 38 && (kind + (rest + p.payload))[0] == OID;
    hide Tlv;
    EntersData(kind, rest, p.payload);
  }

  lemma EntersData(a: seq<Byte>, b: seq<Byte>, tail: seq<Byte>)
    requires 0 < |a + b| < 1000 && a + (b + tail) != []
    ensures Into(Some(Tlv(SEQUENCE, a + b) + tail), SEQUENCE) == Some(a + (b + tail))
  {
    IntoTlv(SEQUENCE, a, b, tail);
  }

  /** Looking for the recipient never ends in the silent success, whatever the input: an element that is skipped
      has been entered, so it has the right tag. */
  lemma {:induction false} ScanNeverSilent(s: seq<Byte>, id: seq<Byte>)
    ensures var found := FindRecipient(s, id);
            found.Stop? ==> found.out == Refused
    decreases |s|
  {
    EnteredTag(SEQUENCE, s);
    hide StepInto, Skip;
    match Skip(SEQUENCE, s)
    case None =>
    case Some(next) => ScanNeverSilent(next, id);
  }

  lemma EnteredTag(tag: Byte, s: seq<Byte>)
    ensures StepInto(tag, s).Some? ==> s[0] == tag
  {
  }
}
