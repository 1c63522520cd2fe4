/** The trust-list file across three programs: the Python tool that signs and writes it, the Go tool
    that splits it for the device, and the device that hashes and verifies the parts. */
module TrustListFile {
  import opened Bytes
  import opened Versions
  import F = Firmware
  import S = TrustListStore
  import K = KeyChain
  import opened SignatureBlocks
  import Sha256

  type Signature = F.Signature
  type Signing = seq<Byte> -> seq<Signature>

  datatype Option<T> = None | Some(value: T)

  const HEADER_SIZE := 18
  const SECP256R1 := 3
  const U16 := 0x1_0000
  const U32 := 0x1_0000_0000

  // ---------------------------------------------------------------- the Python tool

  datatype PubKey = PubKey(start: nat, expire: nat, keyType: Byte, ecType: Byte, meta: seq<Byte>, key: seq<Byte>)

  /** What a TrustList object is made from. */
  datatype Source = Source(version: Version, keys: seq<PubKey>, tlType: Byte, signers: seq<Byte>)

  function PubKeyBytes(k: PubKey): (b: seq<Byte>)
    ensures |b| == 12 + |k.meta| + |k.key|
  {
    BE(k.start, 4) + BE(k.expire, 4) + [k.keyType, k.ecType] + BE(|k.meta|, 2) + k.meta + k.key
  }

  function BodyBytes(ks: seq<PubKey>): seq<Byte> {
    if ks == [] then [] else PubKeyBytes(ks[0]) + BodyBytes(ks[1..])
  }

  function HeaderBytes(size: nat, version: Version, keys: nat, signatures: Byte): (b: seq<Byte>)
    ensures |b| == HEADER_SIZE
  {
    BE(size, 4) + F.VersionBytes(version) + BE(keys, 2) + [signatures]
  }

  /** Table of signature sizes; only the curve that the key table knows matters. */
  const SIGNATURE_SIZE := 64
  const PUB_KEY_SIZE := 65

  function ExpectedFooterSize(signers: seq<Byte>): nat {
    1 + SIGNATURE_SIZE * |signers| + PUB_KEY_SIZE * |signers| + 3 * |signers|
  }

  function Header(src: Source): (b: seq<Byte>)
    requires |src.signers| < 256
    ensures |b| == HEADER_SIZE
  {
    HeaderBytes(HEADER_SIZE + |BodyBytes(src.keys)| + ExpectedFooterSize(src.signers), src.version, |src.keys|,
        |src.signers|)
  }

  /** Header, body and list type. */
  function DataToSign(src: Source): seq<Byte>
    requires |src.signers| < 256
  {
    Header(src) + BodyBytes(src.keys) + [src.tlType]
  }

  function Footer(src: Source, sign: Signing): (b: seq<Byte>)
    requires |src.signers| < 256
    ensures b != []
  {
    [src.tlType] + F.SignaturesBytes(sign(DataToSign(src)))
  }

  function FileBytes(src: Source, sign: Signing): seq<Byte>
    requires |src.signers| < 256
  {
    Header(src) + BodyBytes(src.keys) + Footer(src, sign)
  }

  /** Every number fits its field (otherwise the conversion to bytes raises an error), signer
      keys are of the one supported curve, and every key has the size of its curve. */
  ghost predicate Serialisable(src: Source, sign: Signing) {
    && |src.signers| < 256 && |src.keys| < U16 && src.version.build < U32 && src.version.timestamp < U32
    && HEADER_SIZE + |BodyBytes(src.keys)| + ExpectedFooterSize(src.signers) < U32
    && (forall i :: 0 <= i < |src.keys| ==> KeyFits(src.keys[i]))
    && var ss := sign(DataToSign(src));
       |ss| == |src.signers| && forall i :: 0 <= i < |ss| ==> ss[i].ecType == SECP256R1 && F.WellSized(ss[i])
  }

  predicate KeyFits(k: PubKey) {
    k.start < U32 && k.expire < U32 && |k.meta| < U16 && F.Agreed(k.ecType) && |k.key| == F.PubkeyLen(k.ecType)
  }

  /** TrustList: header, body, footer and bytes are computed once and kept. */
  class Builder {
    const src: Source
    const sign: Signing
    var header: Option<seq<Byte>>
    var body: Option<seq<Byte>>
    var footer: Option<seq<Byte>>
    var bytes: Option<seq<Byte>>

    constructor (src: Source, sign: Signing)
      requires |src.signers| < 256
      ensures Valid() && this.src == src && this.sign == sign
    {
      this.src, this.sign := src, sign;
      header, body, footer, bytes := None, None, None, None;
    }

    ghost predicate Valid()
      reads this
    {
      && |src.signers| < 256
      && (header.Some? ==> header.value == Header(src)) && (body.Some? ==> body.value == BodyBytes(src.keys))
      && (footer.Some? ==> footer.value == Footer(src, sign)) && (bytes.Some? ==> bytes.value == FileBytes(src, sign))
    }

    method GetBody() returns (b: seq<Byte>)
      requires Valid()
      modifies this`body
      ensures Valid() && b == BodyBytes(src.keys)
    {
      if body == None {
        var buffer := [];
        var i := 0;
        while i < |src.keys|
          invariant 0 <= i <= |src.keys| && buffer + BodyBytes(src.keys[i..]) == BodyBytes(src.keys)
        {
          assert src.keys[i..][1..] == src.keys[i + 1..];
          buffer := buffer + PubKeyBytes(src.keys[i]);
          i := i + 1;
        }
        body := Some(buffer);
      }
      b := body.value;
    }

    method GetHeader() returns (h: seq<Byte>)
      requires Valid()
      modifies this`body, this`header
      ensures Valid() && h == Header(src)
    {
      if header == None {
        var n := |src.signers|;
        var footerSize := 1 + SIGNATURE_SIZE * n + PUB_KEY_SIZE * n + (1 + 1 + 1) * n;
        var b := GetBody();
        header := Some(HeaderBytes(HEADER_SIZE + |b| + footerSize, src.version, |src.keys|, n));
      }
      h := header.value;
    }

    method GetFooter() returns (f: seq<Byte>)
      requires Valid()
      modifies this`body, this`header, this`footer
      ensures Valid() && f == Footer(src, sign)
    {
      if footer == None {
        var h := GetHeader();
        var b := GetBody();
        var signatures := sign(h + b + [src.tlType]);
        var buffer := [src.tlType];
        var i := 0;
        while i < |signatures|
          invariant 0 <= i <= |signatures| && buffer == [src.tlType] + F.SignaturesBytes(signatures[..i])
        {
          assert signatures[..i + 1][..i] == signatures[..i];
          buffer := buffer + F.SignatureBytes(signatures[i]);
          i := i + 1;
        }
        assert signatures[..i] == signatures;
        footer := Some(buffer);
      }
      f := footer.value;
    }

    method GetBytes() returns (b: seq<Byte>)
      requires Valid()
      modifies this
      ensures Valid() && b == FileBytes(src, sign)
    {
      if bytes == None {
        var h := GetHeader();
        var k := GetBody();
        var f := GetFooter();
        bytes := Some(h + k + f);
      }
      b := bytes.value;
    }
  }

  /** The declared size is the length of the file. */
  lemma {:induction false} SignaturesLength(ss: seq<Signature>)
    requires forall i :: 0 <= i < |ss| ==> ss[i].ecType == SECP256R1 && F.WellSized(ss[i])
    ensures |F.SignaturesBytes(ss)| == (SIGNATURE_SIZE + PUB_KEY_SIZE + 3) * |ss|
  {
    if ss != [] {
      SignaturesLength(ss[..|ss| - 1]);
      assert F.WellSized(ss[|ss| - 1]);
    }
  }

  lemma DeclaredSize(src: Source, sign: Signing)
    requires Serialisable(src, sign)
    ensures S.TlSize(Header(src)) == |FileBytes(src, sign)|
    ensures S.KeysCount(Header(src)) == |src.keys| && S.SignaturesCount(Header(src)) == |src.signers|
    ensures S.TlVersion(Header(src)) == src.version
  {
    SignaturesLength(sign(DataToSign(src)));
    hide BodyBytes, F.SignaturesBytes, F.WellSized, KeyFits, DataToSign;
    HeaderReads(HEADER_SIZE + |BodyBytes(src.keys)| + ExpectedFooterSize(src.signers), src.version, |src.keys|,
        |src.signers|);
    hide HeaderBytes, S.TlSize, S.KeysCount, S.TlVersion;
  }

  lemma HeaderSlices(s: seq<Byte>, v: seq<Byte>, k: seq<Byte>, n: Byte)
    requires |s| == 4 && |v| == 11 && |k| == 2
    ensures var b := s + v + k + [n];
            |b| == 18 && b[0..4] == s && b[4..15] == v && b[15..17] == k && b[17] == n
  {
  }

  lemma HeaderReads(size: nat, version: Version, keys: nat, signatures: Byte)
    requires size < U32 && keys < U16 && version.build < U32 && version.timestamp < U32
    ensures var h := HeaderBytes(size, version, keys, signatures);
            && S.TlSize(h) == size && S.TlVersion(h) == version && S.KeysCount(h) == keys
            && S.SignaturesCount(h) == signatures
  {
    F.Words();
    BERoundTrip(size, 4);
    BERoundTrip(keys, 2);
    F.VersionRoundTrip(version);
    hide BE, FromBE, Pow256, F.VersionBytes;
    var h, v := HeaderBytes(size, version, keys, signatures), F.VersionBytes(version);
    HeaderSlices(BE(size, 4), v, BE(keys, 2), signatures);
    VersionAt(h, v);
  }

  /** Where the fields of the header lie, and in which byte order. */
  lemma HeaderLayout(size: nat, version: Version, keys: nat, signatures: Byte)
    requires size < U32 && keys < U16 && version.build < U32 && version.timestamp < U32
    ensures var h := HeaderBytes(size, version, keys, signatures);
            && Big32At(h, 0) == size && h[4..7] == [version.major, version.minor, version.patch]
            && Big32At(h, 7) == version.build && Big32At(h, 11) == version.timestamp
            && Big16At(h, 15) == keys && h[17] == signatures
  {
    var h, v := HeaderBytes(size, version, keys, signatures), F.VersionBytes(version);
    HeaderSlices(BE(size, 4), v, BE(keys, 2), signatures);
    assert v[3..7] == BE(version.build, 4) && v[7..11] == BE(version.timestamp, 4);
    hide BE, Big32At, Big16At;
    assert h[4..7] == h[4..15][..3] && h[7..11] == h[4..15][3..7] && h[11..15] == h[4..15][7..11];
    F.WordFits(h, 0, size);
    F.WordFits(h, 7, version.build);
    F.WordFits(h, 11, version.timestamp);
    F.WordFits(h, 15, keys);
  }

  /** The version inside a header. */
  lemma VersionAt(h: seq<Byte>, v: seq<Byte>)
    requires |h| == 18 && |v| == 11 && h[4..15] == v
    ensures S.TlVersion(h) == F.ParseVersion(v)
  {
    assert h[4] == v[0] && h[5] == v[1] && h[6] == v[2];
    assert h[7..11] == v[3..7] && h[11..15] == v[7..11];
  }
}
