/** Encrypted messages: create and parse of modules/crypto/secmodule/src/asn1-cryptogram.c.

    The functions up to `Message` give the structure of a message in the terms of its format. The methods
    that create one write it backwards, with the byte constants of the source, which are proved to be the
    beginnings of its elements. `Parse` follows the reader from element to element; the methods below it are
    the reader itself. */
module Cryptogram {
  import opened Bytes
  import opened Der

  const OK := 0
  const ERR_NULLPTR_ARGUMENT := -1
  const ERR_INCORRECT_PARAMETER := -4
  const ERR_CRYPTO := -32

  // ---------------------------------------------------------------- constants of the format

  const SHA384_ID: seq<Byte> := [0x60, 0x86, 0x48, 0x01, 0x65, 0x03, 0x04, 0x02, 0x02]
  const AES256_CBC_ID: seq<Byte> := [0x60, 0x86, 0x48, 0x01, 0x65, 0x03, 0x04, 0x01, 0x2A]
  const AES256_GCM_ID: seq<Byte> := [0x60, 0x86, 0x48, 0x01, 0x65, 0x03, 0x04, 0x01, 0x2E]
  const SHA256_ID: seq<Byte> := [0x60, 0x86, 0x48, 0x01, 0x65, 0x03, 0x04, 0x02, 0x01]
  const DATA_ID: seq<Byte> := [0x2A, 0x86, 0x48, 0x86, 0xF7, 0x0D, 0x01, 0x07, 0x01]
  const ENVELOPED_ID: seq<Byte> := [0x2A, 0x86, 0x48, 0x86, 0xF7, 0x0D, 0x01, 0x07, 0x03]
  const KDF2_ID: seq<Byte> := [0x28, 0x81, 0x8C, 0x71, 0x02, 0x05, 0x02]
  const EC_ID: seq<Byte> := [0x2A, 0x86, 0x48, 0xCE, 0x3D, 0x02, 0x01]
  const PRIME256V1_ID: seq<Byte> := [0x2A, 0x86, 0x48, 0xCE, 0x3D, 0x03, 0x01, 0x07]

  const AES256_GCM: seq<Byte> :=
    [0x30, 0x19, 0x06, 0x09, 0x60, 0x86, 0x48, 0x01, 0x65, 0x03, 0x04, 0x01, 0x2E, 0x04, 0x0C]
  const AES256_CBC: seq<Byte> :=
    [0x30, 0x1D, 0x06, 0x09, 0x60, 0x86, 0x48, 0x01, 0x65, 0x03, 0x04, 0x01, 0x2A, 0x04, 0x10]
  const PKCS7_DATA: seq<Byte> := [0x30, 0x26, 0x06, 0x09, 0x2A, 0x86, 0x48, 0x86, 0xF7, 0x0D, 0x01, 0x07, 0x01]
  const HMAC_INFO: seq<Byte> :=
    [0x30, 0x41, 0x30, 0x0D, 0x06, 0x09, 0x60, 0x86, 0x48, 0x01, 0x65, 0x03, 0x04, 0x02, 0x02, 0x05, 0x00, 0x04, 0x30]
  const HASH_INFO: seq<Byte> :=
    [0x30, 0x18, 0x06, 0x07, 0x28, 0x81, 0x8C, 0x71, 0x02, 0x05, 0x02, 0x30, 0x0D,
     0x06, 0x09, 0x60, 0x86, 0x48, 0x01, 0x65, 0x03, 0x04, 0x02, 0x02, 0x05, 0x00]
  const EC_TYPE_INFO: seq<Byte> :=
    [0x30, 0x13, 0x06, 0x07, 0x2A, 0x86, 0x48, 0xCE, 0x3D, 0x02, 0x01,
     0x06, 0x08, 0x2A, 0x86, 0x48, 0xCE, 0x3D, 0x03, 0x01, 0x07]
  const ENVELOPED_OID: seq<Byte> := [0x06, 0x09, 0x2A, 0x86, 0x48, 0x86, 0xF7, 0x0D, 0x01, 0x07, 0x03]
  const SHA256_SEQUENCE: seq<Byte> :=
    [0x30, 0x0D, 0x06, 0x09, 0x60, 0x86, 0x48, 0x01, 0x65, 0x03, 0x04, 0x02, 0x01, 0x05, 0x00]

  // ---------------------------------------------------------------- the structure

  /** What goes into a cryptogram. */
  datatype Parts = Parts(recipient: seq<Byte>, pubkey: seq<Byte>, hmac: seq<Byte>, ivKey: seq<Byte>, key: seq<Byte>,
                         ivData: seq<Byte>, payload: seq<Byte>)

  /** Sizes: a raw point, a SHA-384 HMAC, two IVs, an encrypted key with its padding. */
  predicate Fixed(p: Parts) {
    |p.recipient| < 126 && |p.pubkey| == 65 && |p.hmac| == 48 && |p.ivKey| == 16 && |p.key| == 48 && |p.ivData| == 12
  }

  /** ... with someone to receive it and something to send. */
  predicate Sized(p: Parts) {
    Fixed(p) && |p.recipient| > 0 && |p.payload| > 0
  }

  /** A public key with its algorithm, as the key converter produces it for prime256v1. */
  function KeyInfo(pubkey: seq<Byte>): (b: seq<Byte>)
    requires |pubkey| == 65
    ensures |b| == 91
  {
    Tlv(SEQUENCE, EcType() + Tlv(BIT_STRING, [0] + pubkey))
  }

  function EcType(): (b: seq<Byte>)
    ensures |b| == 21
  {
    Tlv(SEQUENCE, Tlv(OID, EC_ID) + Tlv(OID, PRIME256V1_ID))
  }

  function Version(n: Byte): (b: seq<Byte>)
    ensures |b| == 3
  {
    Tlv(INTEGER, [n])
  }

  function KdfInfo(): (b: seq<Byte>)
    ensures |b| == 26
  {
    Tlv(SEQUENCE, Tlv(OID, KDF2_ID) + Tlv(SEQUENCE, Tlv(OID, SHA384_ID) + Tlv(NULL, [])))
  }

  function HmacBlock(p: Parts): (b: seq<Byte>)
    requires Sized(p)
    ensures |b| == 67
  {
    Tlv(SEQUENCE, Tlv(SEQUENCE, Tlv(OID, SHA384_ID) + Tlv(NULL, [])) + Tlv(OCTET_STRING, p.hmac))
  }

  function KeyBlock(p: Parts): (b: seq<Byte>)
    requires Sized(p)
    ensures |b| == 83
  {
    Tlv(SEQUENCE, Tlv(SEQUENCE, Tlv(OID, AES256_CBC_ID) + Tlv(OCTET_STRING, p.ivKey)) + Tlv(OCTET_STRING, p.key))
  }

  /** The wrapped key: version, ephemeral key, key derivation, HMAC, encrypted key. */
  function Secret(p: Parts): (b: seq<Byte>)
    requires Sized(p)
    ensures |b| == 270
  {
    Version(0) + KeyInfo(p.pubkey) + KdfInfo() + HmacBlock(p) + KeyBlock(p)
  }

  function Recipient(p: Parts): (b: seq<Byte>)
    requires Sized(p)
    ensures |b| == 306 + |p.recipient|
  {
    Version(2) + Tlv(ZERO_TAG, Tlv(OCTET_STRING, p.recipient)) + EcType() + Tlv(OCTET_STRING, Tlv(SEQUENCE, Secret(p)))
  }

  function DataBlock(p: Parts): (b: seq<Byte>)
    requires Sized(p)
    ensures |b| == 40
  {
    Tlv(SEQUENCE, Tlv(OID, DATA_ID) + Tlv(SEQUENCE, Tlv(OID, AES256_GCM_ID) + Tlv(OCTET_STRING, p.ivData)))
  }

  function Enveloped(p: Parts): (b: seq<Byte>)
    requires Sized(p)
    ensures |b| == 357 + |p.recipient|
  {
    Version(2) + Tlv(SET, Tlv(SEQUENCE, Recipient(p))) + DataBlock(p)
  }

  function Envelope(p: Parts): (b: seq<Byte>)
    requires Sized(p)
    ensures |b| == 387 + |p.recipient|
  {
    Tlv(SEQUENCE, Version(0) + Tlv(SEQUENCE, Tlv(OID, ENVELOPED_ID) + Tlv(ZERO_TAG, Tlv(SEQUENCE, Enveloped(p)))))
  }

  /** The whole message: the envelope, then the encrypted data. */
  function Message(p: Parts): seq<Byte>
    requires Sized(p)
  {
    Envelope(p) + p.payload
  }

  // The byte constants of the source are the beginnings of these elements.

  lemma AlgorithmIs(prefix: seq<Byte>, id: seq<Byte>, iv: seq<Byte>)
    requires |id| == 9 && |iv| < 100
    requires prefix == [SEQUENCE, 13 + |iv|, OID, 9] + id + [OCTET_STRING, |iv|]
    ensures prefix + iv == Tlv(SEQUENCE, Tlv(OID, id) + Tlv(OCTET_STRING, iv))
  {
    assert Tlv(OID, id) + Tlv(OCTET_STRING, iv) == [OID, 9] + id + ([OCTET_STRING, |iv|] + iv);
  }

  lemma CbcIs(p: Parts)
    requires Sized(p)
    ensures AES256_CBC + p.ivKey == Tlv(SEQUENCE, Tlv(OID, AES256_CBC_ID) + Tlv(OCTET_STRING, p.ivKey))
  {
    assert AES256_CBC == [SEQUENCE, 29, OID, 9] + AES256_CBC_ID + [OCTET_STRING, 16];
    AlgorithmIs(AES256_CBC, AES256_CBC_ID, p.ivKey);
  }

  lemma DataBlockIs(p: Parts)
    requires Sized(p)
    ensures PKCS7_DATA + (AES256_GCM + p.ivData) == DataBlock(p)
  {
    var inner := AES256_GCM + p.ivData;
    GcmIs(p);
    TlvIs(SEQUENCE, Tlv(OID, DATA_ID) + inner);
    DataHead();
    hide Tlv, HeaderBytes;
    Regroup(HeaderBytes(SEQUENCE, 38), Tlv(OID, DATA_ID), inner);
  }

  lemma GcmIs(p: Parts)
    requires Sized(p)
    ensures AES256_GCM + p.ivData == Tlv(SEQUENCE, Tlv(OID, AES256_GCM_ID) + Tlv(OCTET_STRING, p.ivData))
  {
    assert AES256_GCM == [SEQUENCE, 25, OID, 9] + AES256_GCM_ID + [OCTET_STRING, 12];
    AlgorithmIs(AES256_GCM, AES256_GCM_ID, p.ivData);
  }

  lemma DataHead()
    ensures HeaderBytes(SEQUENCE, 38) + Tlv(OID, DATA_ID) == PKCS7_DATA && |Tlv(OID, DATA_ID)| == 11
  {
  }

  lemma HmacIs(p: Parts)
    requires Sized(p)
    ensures HMAC_INFO + p.hmac == HmacBlock(p)
  {
    var digest := Tlv(SEQUENCE, Tlv(OID, SHA384_ID) + Tlv(NULL, []));
    assert digest == [SEQUENCE, 13, OID, 9] + SHA384_ID + [NULL, 0];
    assert HMAC_INFO == [SEQUENCE, 65] + digest + [OCTET_STRING, 48];
    assert HmacBlock(p) == [SEQUENCE, 65] + (digest + ([OCTET_STRING, 48] + p.hmac));
    hide Tlv, HmacBlock;
    assert [SEQUENCE, 65] + (digest + ([OCTET_STRING, 48] + p.hmac)) == [SEQUENCE, 65] + digest + [OCTET_STRING, 48]
           + p.hmac;
  }

  lemma KdfIs()
    ensures HASH_INFO == KdfInfo()
  {
    var digest := Tlv(SEQUENCE, Tlv(OID, SHA384_ID) + Tlv(NULL, []));
    assert digest == [SEQUENCE, 13, OID, 9] + SHA384_ID + [NULL, 0];
    assert KdfInfo() == [SEQUENCE, 24] + ([OID, 7] + KDF2_ID + digest);
  }

  lemma EcTypeIs()
    ensures EC_TYPE_INFO == EcType()
  {
    assert Tlv(OID, EC_ID) == [OID, 7] + EC_ID && Tlv(OID, PRIME256V1_ID) == [OID, 8] + PRIME256V1_ID;
    assert EcType() == [SEQUENCE, 19] + ([OID, 7] + EC_ID + ([OID, 8] + PRIME256V1_ID));
  }

  lemma OthersAre(n: Byte)
    ensures ENVELOPED_OID == Tlv(OID, ENVELOPED_ID) && [INTEGER, 1, n] == Version(n)
  {
    assert Tlv(OID, ENVELOPED_ID) == [OID, 9] + ENVELOPED_ID;
  }

  lemma TlvIs(tag: Byte, content: seq<Byte>)
    ensures Tlv(tag, content) == HeaderBytes(tag, |content|) + content
    ensures |Tlv(tag, content)| == |content| + |HeaderBytes(tag, |content|)|
  {
  }

  lemma Regroup(a: seq<Byte>, b: seq<Byte>, c: seq<Byte>)
    ensures a + b + c == a + (b + c)
  {
  }

  // ---------------------------------------------------------------- create

  /** The block with the encrypted key. */
  method PutKeyBlock(w: Writer, p: Parts, start: nat) returns (ok: bool)
    requires w.Valid() && Sized(p) && w.total == start
    modifies w, w.data
    ensures w.Valid() && w.Puts(ok, KeyBlock(p))
  {
    hide Tlv, HeaderBytes, ArrayBytes, KeyBlock, Writer.Valid;
    ghost var o, x := w.done, ArrayBytes(OCTET_STRING, p.key);
    KeyBlockIs(p);
    var size;
    ok, size := w.PutArray(OCTET_STRING, p.key);
    if ok {
      ok := w.PutRaw(p.ivKey);
      Regroup(p.ivKey, x, o);
      x := p.ivKey + x;
    }
    if ok {
      ok := w.PutRaw(AES256_CBC);
      Regroup(AES256_CBC, x, o);
      x := AES256_CBC + x;
    }
    if ok {
      ok := w.PutHeader(SEQUENCE, w.total - start);
      Regroup(HeaderBytes(SEQUENCE, 81), x, o);
    }
  }

  lemma KeyBlockIs(p: Parts)
    requires Sized(p)
    ensures |ArrayBytes(OCTET_STRING, p.key)| == 50
    ensures KeyBlock(p) == HeaderBytes(SEQUENCE, 81) + (AES256_CBC + (p.ivKey + ArrayBytes(OCTET_STRING, p.key)))
  {
    CbcIs(p);
    ArrayIsTlv(OCTET_STRING, p.key);
    Regroup(AES256_CBC, p.ivKey, ArrayBytes(OCTET_STRING, p.key));
    TlvIs(SEQUENCE, AES256_CBC + p.ivKey + ArrayBytes(OCTET_STRING, p.key));
    hide Tlv, HeaderBytes, ArrayBytes;
  }

  /** Key derivation and HMAC, in front of the encrypted key. */
  method PutDerivation(w: Writer, p: Parts) returns (ok: bool)
    requires w.Valid() && Sized(p)
    modifies w, w.data
    ensures w.Valid() && w.Puts(ok, HASH_INFO + (HMAC_INFO + p.hmac))
  {
    hide Writer.Valid;
    ghost var o, x := w.done, p.hmac;
    ok := w.PutRaw(p.hmac);
    if ok {
      ok := w.PutRaw(HMAC_INFO);
      Regroup(HMAC_INFO, x, o);
      x := HMAC_INFO + x;
    }
    if ok {
      ok := w.PutRaw(HASH_INFO);
      Regroup(HASH_INFO, x, o);
    }
  }

  /** The wrapped key, up to its octet string. */
  method PutSecret(w: Writer, p: Parts, start: nat) returns (ok: bool)
    requires w.Valid() && Sized(p) && w.total == start
    modifies w, w.data
    ensures w.Valid() && w.Puts(ok, Tlv(OCTET_STRING, Tlv(SEQUENCE, Secret(p))))
  {
    hide Tlv, HeaderBytes, KeyBlock, Secret, KeyInfo, Writer.Valid;
    ghost var o, x := w.done, KeyBlock(p);
    SecretIs(p);
    ok := PutKeyBlock(w, p, start);
    if ok {
      ok := PutDerivation(w, p);
      ghost var d := HASH_INFO + (HMAC_INFO + p.hmac);
      Regroup(d, x, o);
      x := d + x;
    }
    if ok {
      ok := w.PutRaw(KeyInfo(p.pubkey));
      Regroup(KeyInfo(p.pubkey), x, o);
      x := KeyInfo(p.pubkey) + x;
    }
    if ok {
      ok := w.PutUint8(0);
      Regroup([INTEGER, 1, 0], x, o);
      x := [INTEGER, 1, 0] + x;
    }
    if ok {
      ok := WrapTwice(w, x, start, OCTET_STRING, o);
    }
  }

  /** A sequence around everything since start, and another element around that. */
  method WrapTwice(w: Writer, ghost x: seq<Byte>, start: nat, outer: Byte, ghost o: seq<Byte>) returns (ok: bool)
    requires w.Valid() && w.total == start + |x| && w.done == x + o && 0x80 <= |x| < 0xFF00
    modifies w, w.data
    ensures w.Valid() && (ok <==> old(w.pos) > 8)
    ensures ok ==> w.pos == old(w.pos) - 8 && w.total == old(w.total) + 8 && w.done == Tlv(outer, Tlv(SEQUENCE, x)) + o
  {
    hide Tlv, HeaderBytes, Writer.Valid;
    TlvIs(SEQUENCE, x);
    TlvIs(outer, Tlv(SEQUENCE, x));
    ok := w.PutHeader(SEQUENCE, w.total - start);
    Regroup(HeaderBytes(SEQUENCE, |x|), x, o);
    if ok {
      ok := w.PutHeader(outer, w.total - start);
      Regroup(HeaderBytes(outer, |x| + 4), Tlv(SEQUENCE, x), o);
    }
  }

  lemma SecretIs(p: Parts)
    requires Sized(p)
    ensures Secret(p) == [INTEGER, 1, 0] + (KeyInfo(p.pubkey) + (HASH_INFO + (HMAC_INFO + p.hmac) + KeyBlock(p)))
    ensures |Tlv(OCTET_STRING, Tlv(SEQUENCE, Secret(p)))| == 278
  {
    OthersAre(0);
    KdfIs();
    HmacIs(p);
    hide HeaderBytes, KeyBlock, KeyInfo, KdfInfo, HmacBlock, Version, Tlv;
    Regroup4([INTEGER, 1, 0], KeyInfo(p.pubkey), HASH_INFO, HMAC_INFO + p.hmac, KeyBlock(p));
  }

  lemma Regroup4(a: seq<Byte>, b: seq<Byte>, c: seq<Byte>, d: seq<Byte>, e: seq<Byte>)
    ensures a + b + c + d + e == a + (b + (c + d + e))
  {
    assert a + b + c + d + e == a + (b + c + d + e);
    assert b + c + d + e == b + (c + d + e);
  }

  /** The recipient's block, wrapped in a sequence and a set. */
  method PutRecipient(w: Writer, p: Parts, start: nat) returns (ok: bool)
    requires w.Valid() && Sized(p) && w.total == start
    modifies w, w.data
    ensures w.Valid() && w.Puts(ok, Tlv(SET, Tlv(SEQUENCE, Recipient(p))))
  {
    hide Tlv, HeaderBytes, Secret, EcType, Recipient, ArrayBytes, Writer.Valid;
    ghost var o, x := w.done, Tlv(OCTET_STRING, Tlv(SEQUENCE, Secret(p)));
    RecipientIs(p);
    ok := PutSecret(w, p, start);
    if ok {
      ok := w.PutRaw(EC_TYPE_INFO);
      Regroup(EC_TYPE_INFO, x, o);
      x := EC_TYPE_INFO + x;
    }
    if ok {
      ok := PutZeroElement(w, p);
      Regroup(ZeroElement(p), x, o);
      x := ZeroElement(p) + x;
    }
    if ok {
      ok := w.PutUint8(2);
      Regroup([INTEGER, 1, 2], x, o);
      x := [INTEGER, 1, 2] + x;
    }
    if ok {
      ok := WrapTwice(w, x, start, SET, o);
    }
  }

  function ZeroElement(p: Parts): (b: seq<Byte>)
    requires Sized(p)
    ensures |b| == 4 + |p.recipient|
  {
    Tlv(ZERO_TAG, Tlv(OCTET_STRING, p.recipient))
  }

  method PutZeroElement(w: Writer, p: Parts) returns (ok: bool)
    requires w.Valid() && Sized(p)
    modifies w, w.data
    ensures w.Valid() && w.Puts(ok, ZeroElement(p))
  {
    ArrayIsTlv(OCTET_STRING, p.recipient);
    TlvIs(ZERO_TAG, Tlv(OCTET_STRING, p.recipient));
    ghost var o, x := w.done, Tlv(OCTET_STRING, p.recipient);
    assert |x| == 2 + |p.recipient| && |HeaderBytes(ZERO_TAG, |x|)| == 2;
    hide Tlv, HeaderBytes, ArrayBytes, Writer.Valid;
    var size;
    ok, size := w.PutArray(OCTET_STRING, p.recipient);
    if ok {
      ok := w.PutHeader(ZERO_TAG, size);
      Regroup(HeaderBytes(ZERO_TAG, size), x, o);
    }
  }

  lemma RecipientIs(p: Parts)
    requires Sized(p)
    ensures Recipient(p)
            == [INTEGER, 1, 2] + (ZeroElement(p) + (EC_TYPE_INFO + Tlv(OCTET_STRING, Tlv(SEQUENCE, Secret(p)))))
    ensures |Tlv(OCTET_STRING, Tlv(SEQUENCE, Secret(p)))| == 278
            && |Tlv(SET, Tlv(SEQUENCE, Recipient(p)))| == |Recipient(p)| + 8
  {
    OthersAre(2);
    EcTypeIs();
    hide Tlv, Version, EcType, Secret;
    Regroup3([INTEGER, 1, 2], ZeroElement(p), EC_TYPE_INFO, Tlv(OCTET_STRING, Tlv(SEQUENCE, Secret(p))));
  }

  lemma Regroup3(a: seq<Byte>, b: seq<Byte>, c: seq<Byte>, d: seq<Byte>)
    ensures a + b + c + d == a + (b + (c + d))
  {
    assert a + b + c + d == a + (b + c + d);
  }

  /** IV and algorithm of the data. */
  method PutDataBlock(w: Writer, p: Parts) returns (ok: bool)
    requires w.Valid() && Sized(p)
    modifies w, w.data
    ensures w.Valid() && w.Puts(ok, DataBlock(p))
  {
    DataBlockIs(p);
    hide Tlv, DataBlock, Writer.Valid;
    ghost var o, x := w.done, p.ivData;
    ok := w.PutRaw(p.ivData);
    if ok {
      ok := w.PutRaw(AES256_GCM);
      Regroup(AES256_GCM, x, o);
      x := AES256_GCM + x;
    }
    if ok {
      ok := w.PutRaw(PKCS7_DATA);
      Regroup(PKCS7_DATA, x, o);
    }
  }

  /** Data block, recipient and version, wrapped in a sequence and the zero tag. */
  method PutEnveloped(w: Writer, p: Parts) returns (ok: bool)
    requires w.Valid() && Sized(p) && w.total == 0
    modifies w, w.data
    ensures w.Valid() && w.Puts(ok, Tlv(ZERO_TAG, Tlv(SEQUENCE, Enveloped(p))))
  {
    hide Tlv, HeaderBytes, Recipient, DataBlock, Enveloped, Writer.Valid;
    ghost var o, x := w.done, DataBlock(p);
    EnvelopedIs(p);
    ok := PutDataBlock(w, p);
    if ok {
      ok := PutRecipient(w, p, w.total);
      Regroup(Tlv(SET, Tlv(SEQUENCE, Recipient(p))), x, o);
      x := Tlv(SET, Tlv(SEQUENCE, Recipient(p))) + x;
    }
    if ok {
      ok := w.PutUint8(2);
      Regroup([INTEGER, 1, 2], x, o);
      x := [INTEGER, 1, 2] + x;
    }
    if ok {
      ok := WrapTwice(w, x, 0, ZERO_TAG, o);
    }
  }

  lemma EnvelopedIs(p: Parts)
    requires Sized(p)
    ensures Enveloped(p) == [INTEGER, 1, 2] + (Tlv(SET, Tlv(SEQUENCE, Recipient(p))) + DataBlock(p))
    ensures |Tlv(SET, Tlv(SEQUENCE, Recipient(p)))| == |Recipient(p)| + 8
    ensures |Tlv(ZERO_TAG, Tlv(SEQUENCE, Enveloped(p)))| == |Enveloped(p)| + 8
  {
    OthersAre(2);
    hide Version, Recipient, DataBlock, Tlv;
    Regroup([INTEGER, 1, 2], Tlv(SET, Tlv(SEQUENCE, Recipient(p))), DataBlock(p));
  }

  /** The enveloped data behind its type. */
  method PutContent(w: Writer, p: Parts) returns (ok: bool)
    requires w.Valid() && Sized(p) && w.total == 0
    modifies w, w.data
    ensures w.Valid() && w.Puts(ok, ENVELOPED_OID + Tlv(ZERO_TAG, Tlv(SEQUENCE, Enveloped(p))))
  {
    hide Tlv, HeaderBytes, Enveloped, Writer.Valid;
    ghost var o, x := w.done, Tlv(ZERO_TAG, Tlv(SEQUENCE, Enveloped(p)));
    ok := PutEnveloped(w, p);
    if ok {
      ok := w.PutRaw(ENVELOPED_OID);
      Regroup(ENVELOPED_OID, x, o);
    }
  }

  /** The outer layers. */
  method PutEnvelope(w: Writer, p: Parts) returns (ok: bool)
    requires w.Valid() && Sized(p) && w.total == 0
    modifies w, w.data
    ensures w.Valid() && w.Puts(ok, Envelope(p))
  {
    hide Tlv, HeaderBytes, Enveloped, Envelope, Writer.Valid;
    ghost var o, x := w.done, ENVELOPED_OID + Tlv(ZERO_TAG, Tlv(SEQUENCE, Enveloped(p)));
    ghost var n := |x|;
    EnvelopeIs(p);
    ok := PutContent(w, p);
    if ok {
      ok := w.PutHeader(SEQUENCE, w.total);
      Regroup(HeaderBytes(SEQUENCE, n), x, o);
      x := HeaderBytes(SEQUENCE, n) + x;
    }
    if ok {
      ok := w.PutUint8(0);
      Regroup([INTEGER, 1, 0], x, o);
      x := [INTEGER, 1, 0] + x;
    }
    if ok {
      ok := w.PutHeader(SEQUENCE, w.total);
      Regroup(HeaderBytes(SEQUENCE, n + 7), x, o);
    }
  }

  lemma EnvelopeIs(p: Parts)
    requires Sized(p)
    ensures var x := ENVELOPED_OID + Tlv(ZERO_TAG, Tlv(SEQUENCE, Enveloped(p)));
            && |x| == |Enveloped(p)| + 19 && |HeaderBytes(SEQUENCE, |x|)| == |HeaderBytes(SEQUENCE, |x| + 7)| == 4
            && Envelope(p) == HeaderBytes(SEQUENCE, |x| + 7) + ([INTEGER, 1, 0] + (HeaderBytes(SEQUENCE, |x|) + x))
  {
    OthersAre(0);
    hide Version, Enveloped;
    var x := ENVELOPED_OID + Tlv(ZERO_TAG, Tlv(SEQUENCE, Enveloped(p)));
    assert |x| == |Enveloped(p)| + 19 && |HeaderBytes(SEQUENCE, |x|)| == |HeaderBytes(SEQUENCE, |x| + 7)| == 4;
    TlvIs(SEQUENCE, x);
    TlvIs(SEQUENCE, [INTEGER, 1, 0] + Tlv(SEQUENCE, x));
    hide Tlv, HeaderBytes;
  }

  /** memmove of the finished bytes to the front of the buffer. */
  method MoveDown(data: array<Byte>, pos: nat, size: nat)
    requires pos + size <= data.Length
    modifies data
    ensures data[..size] == old(data[pos..pos + size])
  {
    var i := 0;
    while i < size
      invariant 0 <= i <= size
      invariant forall k :: 0 <= k < i ==> data[k] == old(data[pos + k])
      invariant forall k :: i <= k < data.Length ==> data[k] == old(data[k])
    {
      data[i] := data[pos + i];
      i := i + 1;
    }
  }

  /** vs_secmodule_virgil_cryptogram_create_sha384_aes256: it succeeds exactly when the buffer is
      longer than the message, and then the buffer begins with the message. */
  method Create(p: Parts, cryptogram: array<Byte>) returns (code: int, size: nat)
    requires Fixed(p)
    modifies cryptogram
    ensures code == if !Sized(p) then ERR_NULLPTR_ARGUMENT
                    else if cryptogram.Length > |Message(p)| then OK
                    else ERR_CRYPTO
    ensures code == OK ==> size == |Message(p)| < cryptogram.Length && cryptogram[..size] == Message(p)
    ensures code == ERR_NULLPTR_ARGUMENT ==> cryptogram[..] == old(cryptogram[..])
  {
    hide Envelope;
    size := 0;
    if |p.recipient| == 0 || |p.payload| == 0 {
      return ERR_NULLPTR_ARGUMENT, size;
    }
    var w := new Writer(cryptogram);
    var ok := w.PutRaw(p.payload);
    if !ok {
      return ERR_CRYPTO, size;
    }
    w.total := 0;
    assert p.payload + [] == p.payload;
    ok := PutEnvelope(w, p);
    if !ok {
      return ERR_CRYPTO, size;
    }
    size := w.total + |p.payload|;
    MoveDown(cryptogram, w.pos, size);
    code := OK;
  }

  /** 496 bytes on top of the encrypted data are enough for recipient ids of up to 100 bytes. */
  lemma SpareBytes(p: Parts)
    requires Sized(p)
    ensures |Message(p)| == |p.payload| + 387 + |p.recipient|
    ensures |p.recipient| <= 100 ==> |Message(p)| < |p.payload| + 496
  {
    hide Envelope;
  }

  // ---------------------------------------------------------------- parse

  /** What a reader has still in front of it; None once a step has failed. */
  type Rest = Option<seq<Byte>>

  function Into(r: Rest, tag: Byte): Rest {
    if r.None? then None else StepInto(tag, r.value)
  }

  function Over(r: Rest, tag: Byte): Rest {
    if r.None? then None else Skip(tag, r.value)
  }

  predicate Begins(s: seq<Byte>, x: seq<Byte>) {
    |x| <= |s| && s[..|x|] == x
  }

  /** A short object identifier whose value begins with id. */
  function Identified(r: Rest, id: seq<Byte>): Rest {
    if r.None? then None
    else
      match GetArray(OID, r.value)
      case None => None
      case Some((_, rest)) => if Begins(r.value[2..], id) then Some(rest) else None
  }

  /** An octet string of exactly n octets. */
  function Octets(r: Rest, n: nat): (o: Option<(seq<Byte>, seq<Byte>)>)
    ensures o.Some? ==> |o.value.0| == n
  {
    if r.None? then None
    else
      match GetArray(OCTET_STRING, r.value)
      case None => None
      case Some((x, rest)) => if |x| == n then Some((x, rest)) else None
  }

  /** The helper for the public key answers with an error code, which its caller takes for
      success, when the curve is another one; then the output is left unset. */
  datatype PubkeyResult = Found(key: seq<Byte>) | Unset | Missing

  function ParseKeyInfo(s: seq<Byte>): PubkeyResult {
    var curve := Over(Into(Into(Some(s), SEQUENCE), SEQUENCE), OID);
    match Identified(curve, PRIME256V1_ID)
    case None => Unset
    case Some(t) =>
      match GetArray(BIT_STRING, t)
      case None => Missing
      case Some((key, _)) => if |key| > 66 || |key| < 65 then Missing else Found(key[|key| - 65..])
  }

  /** The outputs; an output may be left unset. */
  datatype Fields = Fields(pubkey: Option<seq<Byte>>, hmac: seq<Byte>, ivKey: seq<Byte>, key: seq<Byte>)

  /** Refused is the error code; Silent is a return of success in the middle, when at most the public key and the
      HMAC have been set. */
  datatype Outcome =
    | Parsed(fields: Fields, ivData: seq<Byte>, payload: seq<Byte>)
    | Refused
    | Silent(pubkey: Option<seq<Byte>>, hmac: Option<seq<Byte>>)

  /** Why an element cannot be skipped: the source returns success on another tag, and the end of the input is
      refused like every read past it. */
  function NotSkipped(s: seq<Byte>): Outcome
    requires s != []
  {
    if s[0] != SEQUENCE then Silent(None, None) else Refused
  }

  /** The search for the recipient among the elements of the set. */
  datatype Search = At(rest: seq<Byte>) | Stop(out: Outcome)

  function FindRecipient(s: seq<Byte>, id: seq<Byte>): Search
    decreases |s|
  {
    match Into(Over(Into(Some(s), SEQUENCE), INTEGER), ZERO_TAG)
    case None => Stop(Refused)
    case Some(t) =>
      if id == [] then (match Skip(OCTET_STRING, t) case None => Stop(Refused) case Some(u) => At(u))
      else
        match StepInto(OCTET_STRING, t)
        case None => Stop(Refused)
        case Some(u) =>
          if Begins(u, id) then At(u[|id|..])
          else (match Skip(SEQUENCE, s) case None => Stop(NotSkipped(s)) case Some(next) => FindRecipient(next, id))
  }

  /** Encrypted key and IV, at the end of a recipient's block. */
  function ParseKeyBlock(s: seq<Byte>, pubkey: Option<seq<Byte>>, hmac: seq<Byte>): Result {
    match Identified(Into(Into(Some(s), SEQUENCE), SEQUENCE), AES256_CBC_ID)
    case None => Failed(Silent(pubkey, Some(hmac)))
    case Some(t) =>
      match GetArray(OCTET_STRING, t)
      case None => Failed(Silent(pubkey, Some(hmac)))
      case Some((ivKey, u)) =>
        if |ivKey| != 16 then Failed(Refused)
        else
          match Octets(Some(u), 48)
          case None => Failed(Refused)
          case Some((key, _)) => Got(Fields(pubkey, hmac, ivKey, key))
  }

  datatype Result = Got(fields: Fields) | Failed(out: Outcome)

  /** A recipient's block from behind the recipient id. */
  function ParseRecipient(s: seq<Byte>): Result {
    var inner :=
        Over(Into(Into(Identified(Over(Into(Some(s), SEQUENCE), OID), PRIME256V1_ID), OCTET_STRING), SEQUENCE),
            INTEGER);
    if inner.None? then Failed(Refused)
    else
      var found := ParseKeyInfo(inner.value);
      var derived :=
          Over(Identified(Into(Over(Into(Over(inner, SEQUENCE), SEQUENCE), OID), SEQUENCE), SHA384_ID), NULL);
      var mac := Over(Identified(Into(Into(derived, SEQUENCE), SEQUENCE), SHA384_ID), NULL);
      match Octets(mac, 48)
      case None => Failed(Refused)
      case Some((hmac, u)) =>
        if found.Missing? then Failed(Refused)
        else ParseKeyBlock(u, if found.Found? then Some(found.key) else None, hmac)
  }

  /** The way to the set of recipients. */
  function ToSet(data: seq<Byte>): Rest {
    Over(Into(Into(Over(Into(Over(Into(Some(data), SEQUENCE), INTEGER), SEQUENCE), OID), ZERO_TAG), SEQUENCE), INTEGER)
  }

  function Parse(data: seq<Byte>, id: seq<Byte>): Outcome {
    var set_ := ToSet(data);
    match Into(set_, SET)
    case None => Refused
    case Some(first) =>
      match FindRecipient(first, id)
      case Stop(out) => out
      case At(s) =>
        match ParseRecipient(s)
        case Failed(out) => out
        case Got(fields) =>
          match Octets(Identified(Into(Over(Into(Over(set_, SET), SEQUENCE), OID), SEQUENCE), AES256_GCM_ID), 12)
          case None => Refused
          case Some((ivData, _)) =>
            var size := GetSize(data);
            if |data| <= size then Refused else Parsed(fields, ivData, data[size..])
  }

  // ---------------------------------------------------------------- reading what was written

  lemma IntoTlv(tag: Byte, a: seq<Byte>, b: seq<Byte>, tail: seq<Byte>)
    requires |a + b| < 0x1_0000 && a + (b + tail) != []
    ensures Into(Some(Tlv(tag, a + b) + tail), tag) == Some(a + (b + tail))
  {
    ReadsTlv(tag, a + b, tail);
    assert a + b + tail == a + (b + tail);
  }

  lemma OverTlv(tag: Byte, content: seq<Byte>, tail: seq<Byte>)
    requires |content| < 0x1_0000
    ensures Over(Some(Tlv(tag, content) + tail), tag) == Some(tail)
  {
    ReadsTlv(tag, content, tail);
  }

  /** Into an octet string and the sequence inside it. */
  lemma Unwrap(x: seq<Byte>, tail: seq<Byte>)
    requires 0 < |x| < 1000
    ensures Into(Into(Some(Tlv(OCTET_STRING, Tlv(SEQUENCE, x)) + tail), OCTET_STRING), SEQUENCE) == Some(x + tail)
  {
    ReadsTlv(OCTET_STRING, Tlv(SEQUENCE, x), tail);
    ReadsTlv(SEQUENCE, x, tail);
    hide Tlv;
  }

  // ---------------------------------------------------------------- parse as a program

  /** The reader is where rest says; ok tells whether the chain of calls has succeeded so far. */
  ghost predicate Follows(r: Reader, ok: bool, rest: Rest)
    reads r
  {
    r.Valid() && rest == if ok then Some(r.Ahead()) else None
  }

  /** The next call of a chain, made only if the ones before succeeded. */
  method AndEnter(r: Reader, ok: bool, ghost rest: Rest, tag: Byte) returns (ok': bool, ghost rest': Rest)
    requires Follows(r, ok, rest)
    modifies r
    ensures rest' == Into(rest, tag) && Follows(r, ok', rest')
  {
    hide StepInto;
    rest' := Into(rest, tag);
    ok' := false;
    if ok {
      ok' := r.Enter(tag);
    }
  }

  method AndPass(r: Reader, ok: bool, ghost rest: Rest, tag: Byte) returns (ok': bool, ghost rest': Rest)
    requires Follows(r, ok, rest)
    modifies r
    ensures rest' == Over(rest, tag) && Follows(r, ok', rest')
  {
    hide Skip;
    rest' := Over(rest, tag);
    ok' := false;
    if ok {
      ok' := r.Pass(tag);
    }
  }

  method AndCheck(r: Reader, ok: bool, ghost rest: Rest, id: seq<Byte>) returns (ok': bool, ghost rest': Rest)
    requires Follows(r, ok, rest)
    modifies r
    ensures rest' == Identified(rest, id) && Follows(r, ok', rest')
  {
    hide Identified;
    rest' := Identified(rest, id);
    NothingIdentified(id);
    ok' := false;
    if ok {
      ok' := CheckId(r, id);
    }
  }

  lemma NothingIdentified(id: seq<Byte>)
    ensures Identified(None, id) == None
  {
  }

  method CheckId(r: Reader, id: seq<Byte>) returns (ok: bool)
    requires r.Valid()
    modifies r
    ensures r.Valid() && Identified(Some(old(r.Ahead())), id) == if ok then Some(r.Ahead()) else None
  {
    var here := r.Ahead();
    var value;
    ok, value := r.Take(OID);
    if ok {
      ok := Begins(here[2..], id);
    }
  }

  /** The loop over the recipients. */
  method SeekRecipient(r: Reader, id: seq<Byte>) returns (ok: bool, out: Outcome)
    requires r.Valid()
    modifies r
    ensures r.Valid() && FindRecipient(old(r.Ahead()), id) == if ok then At(r.Ahead()) else Stop(out)
  {
    hide StepInto, Skip;
    while true
      invariant r.Valid() && FindRecipient(r.Ahead(), id) == FindRecipient(old(r.Ahead()), id)
      decreases |r.Ahead()|
    {
      var saved := r.pos;
      var s := r.Ahead();
      ok := r.Enter(SEQUENCE);
      if ok {
        ok := r.Pass(INTEGER);
      }
      if ok {
        ok := r.Enter(ZERO_TAG);
      }
      if !ok {
        return false, Refused;
      }
      if |id| != 0 {
        ok := r.Enter(OCTET_STRING);
        if !ok {
          return false, Refused;
        }
        if Begins(r.Ahead(), id) {
          ghost var u := r.Ahead();
          r.pos := r.pos + |id|;
          assert r.Ahead() == u[|id|..];
          return true, Refused;
        }
        r.pos := saved;
        ok := r.Pass(SEQUENCE);
        if !ok {
          return false, NotSkipped(s);
        }
      } else {
        ok := r.Pass(OCTET_STRING);
        return ok, Refused;
      }
    }
  }

  method TakeOctets(r: Reader, n: nat) returns (ok: bool, x: seq<Byte>)
    requires r.Valid()
    modifies r
    ensures r.Valid() && Octets(Some(old(r.Ahead())), n) == if ok then Some((x, r.Ahead())) else None
  {
    ok, x := r.Take(OCTET_STRING);
    if ok && |x| != n {
      return false, x;
    }
  }

  method ReadKeyInfo(s: seq<Byte>) returns (found: PubkeyResult)
    ensures found == ParseKeyInfo(s)
  {
    hide Into, Over, Identified, GetArray;
    var r := new Reader(s);
    assert r.Ahead() == s;
    var ok;
    ghost var rest;
    ok, rest := AndEnter(r, true, Some(s), SEQUENCE);
    ok, rest := AndEnter(r, ok, rest, SEQUENCE);
    ok, rest := AndPass(r, ok, rest, OID);
    ok, rest := AndCheck(r, ok, rest, PRIME256V1_ID);
    if !ok {
      return Unset;
    }
    var key;
    ok, key := r.Take(BIT_STRING);
    if !ok || |key| > 66 || |key| < 65 {
      return Missing;
    }
    return Found(key[|key| - 65..]);
  }

  method ReadKeyBlock(r: Reader, pubkey: Option<seq<Byte>>, hmac: seq<Byte>) returns (res: Result)
    requires r.Valid()
    modifies r
    ensures res == ParseKeyBlock(old(r.Ahead()), pubkey, hmac)
  {
    hide Into, Over, Identified, GetArray, Octets;
    var ok, ivKey, key;
    ghost var rest;
    ok, rest := AndEnter(r, true, Some(r.Ahead()), SEQUENCE);
    ok, rest := AndEnter(r, ok, rest, SEQUENCE);
    ok, rest := AndCheck(r, ok, rest, AES256_CBC_ID);
    if !ok {
      return Failed(Silent(pubkey, Some(hmac)));
    }
    ok, ivKey := r.Take(OCTET_STRING);
    if !ok {
      return Failed(Silent(pubkey, Some(hmac)));
    }
    if |ivKey| != 16 {
      return Failed(Refused);
    }
    ok, key := TakeOctets(r, 48);
    if !ok {
      return Failed(Refused);
    }
    return Got(Fields(pubkey, hmac, ivKey, key));
  }

  /** Key derivation and HMAC. */
  method ReadDerivation(r: Reader, ghost inner: seq<Byte>) returns (ok: bool, hmac: seq<Byte>)
    requires r.Valid() && r.Ahead() == inner
    modifies r
    ensures r.Valid()
    ensures var derived :=
            Over(Identified(Into(Over(Into(Over(Some(inner), SEQUENCE), SEQUENCE), OID), SEQUENCE), SHA384_ID), NULL);
            var mac := Over(Identified(Into(Into(derived, SEQUENCE), SEQUENCE), SHA384_ID), NULL);
            Octets(mac, 48) == if ok then Some((hmac, r.Ahead())) else None
  {
    hide Into, Over, Identified;
    ghost var rest;
    hmac := [];
    ok, rest := AndPass(r, true, Some(inner), SEQUENCE);
    ok, rest := AndEnter(r, ok, rest, SEQUENCE);
    ok, rest := AndPass(r, ok, rest, OID);
    ok, rest := AndEnter(r, ok, rest, SEQUENCE);
    ok, rest := AndCheck(r, ok, rest, SHA384_ID);
    ok, rest := AndPass(r, ok, rest, NULL);
    ok, rest := AndEnter(r, ok, rest, SEQUENCE);
    ok, rest := AndEnter(r, ok, rest, SEQUENCE);
    ok, rest := AndCheck(r, ok, rest, SHA384_ID);
    ok, rest := AndPass(r, ok, rest, NULL);
    if ok {
      ok, hmac := TakeOctets(r, 48);
    }
  }

  method ReadRecipient(r: Reader) returns (res: Result)
    requires r.Valid()
    modifies r
    ensures res == ParseRecipient(old(r.Ahead()))
  {
    hide Into, Over, Identified, Octets, ParseKeyInfo, ParseKeyBlock;
    var ok, hmac;
    ghost var rest;
    ok, rest := AndEnter(r, true, Some(r.Ahead()), SEQUENCE);
    ok, rest := AndPass(r, ok, rest, OID);
    ok, rest := AndCheck(r, ok, rest, PRIME256V1_ID);
    ok, rest := AndEnter(r, ok, rest, OCTET_STRING);
    ok, rest := AndEnter(r, ok, rest, SEQUENCE);
    ok, rest := AndPass(r, ok, rest, INTEGER);
    if !ok {
      return Failed(Refused);
    }
    var found := ReadKeyInfo(r.Ahead());
    ok, hmac := ReadDerivation(r, r.Ahead());
    if found.Missing? || !ok {
      return Failed(Refused);
    }
    res := ReadKeyBlock(r, if found.Found? then Some(found.key) else None, hmac);
  }

  /** The data block behind the set. */
  method ReadData(r: Reader) returns (ok: bool, ivData: seq<Byte>)
    requires r.Valid()
    modifies r
    ensures r.Valid()
    ensures Octets(Identified(Into(Over(Into(Over(Some(old(r.Ahead())), SET), SEQUENCE), OID), SEQUENCE),
            AES256_GCM_ID), 12)
            == if ok then Some((ivData, r.Ahead())) else None
  {
    hide Into, Over, Identified;
    ghost var rest;
    ivData := [];
    ok, rest := AndPass(r, true, Some(r.Ahead()), SET);
    ok, rest := AndEnter(r, ok, rest, SEQUENCE);
    ok, rest := AndPass(r, ok, rest, OID);
    ok, rest := AndEnter(r, ok, rest, SEQUENCE);
    ok, rest := AndCheck(r, ok, rest, AES256_GCM_ID);
    if ok {
      ok, ivData := TakeOctets(r, 12);
    }
  }

  /** vs_secmodule_virgil_cryptogram_parse_sha384_aes256. */
  method ParseCryptogram(cryptogram: seq<Byte>, id: seq<Byte>) returns (out: Outcome)
    ensures out == Parse(cryptogram, id)
  {
    hide Into, Over, Identified, Octets, FindRecipient, ParseRecipient, GetSize;
    var r := new Reader(cryptogram);
    assert r.Ahead() == cryptogram;
    var ok;
    ghost var rest;
    ok, rest := AndEnter(r, true, Some(cryptogram), SEQUENCE);
    ok, rest := AndPass(r, ok, rest, INTEGER);
    ok, rest := AndEnter(r, ok, rest, SEQUENCE);
    ok, rest := AndPass(r, ok, rest, OID);
    ok, rest := AndEnter(r, ok, rest, ZERO_TAG);
    ok, rest := AndEnter(r, ok, rest, SEQUENCE);
    ok, rest := AndPass(r, ok, rest, INTEGER);
    var setPos := r.pos;
    ghost var set_ := rest;
    ok, rest := AndEnter(r, ok, rest, SET);
    if !ok {
      return Refused;
    }
    ok, out := SeekRecipient(r, id);
    if !ok {
      return;
    }
    var fields := ReadRecipient(r);
    if fields.Failed? {
      return fields.out;
    }
    assert set_ != None by { EnteredSome(set_, SET); }
    r.pos := setPos;
    var ivData;
    ok, ivData := ReadData(r);
    NoOctets();
    if !ok {
      return Refused;
    }
    var size := GetSize(cryptogram);
    if |cryptogram| <= size {
      return Refused;
    }
    return Parsed(fields.fields, ivData, cryptogram[size..]);
  }

  lemma EnteredSome(r: Rest, tag: Byte)
    ensures Into(r, tag).Some? ==> r.Some?
  {
  }

  lemma NoOctets()
    ensures forall n: nat :: Octets(None, n) == None
  {
  }
}
