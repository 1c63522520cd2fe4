/** Layouts of firmware files and the signer that builds them:
    tools/virgil-firmware-signer and modules/firmware/include/virgil/iot/firmware/firmware.h. */
module Firmware {
  import opened Bytes
  import opened Versions

  const HEADER_SIZE := 59
  const DESCRIPTOR_SIZE := 42
  const FOOTER_META_SIZE := 43
  const SIGNATURE_META_SIZE := 3

  const U16 := 0x1_0000
  const U32 := 0x1_0000_0000

  datatype Descriptor = Descriptor(
    manufacture: seq<Byte>, device: seq<Byte>, version: Version,
    padding: Byte, chunkSize: nat, length: nat, appSize: nat)

  datatype Header = Header(
    codeOffset: nat, codeLength: nat, footerOffset: nat, footerLength: nat, count: Byte, descriptor: Descriptor)

  datatype Signature = Signature(signer: Byte, ecType: Byte, hashType: Byte, sign: seq<Byte>, pubkey: seq<Byte>)

  /** Every field fits its place in the packed structure. */
  predicate Fits(d: Descriptor) {
    && |d.manufacture| == 16 && |d.device| == 4 && d.version.build < U32 && d.version.timestamp < U32
    && d.chunkSize < U16 && d.length < U32 && d.appSize < U32
  }

  predicate HeaderFits(h: Header) {
    h.codeOffset < U32 && h.codeLength < U32 && h.footerOffset < U32 && h.footerLength < U32 && Fits(h.descriptor)
  }

  // ---------------------------------------------------------------- big-endian layouts

  function VersionBytes(v: Version): (s: seq<Byte>)
    ensures |s| == 11
  {
    [v.major, v.minor, v.patch] + BE(v.build, 4) + BE(v.timestamp, 4)
  }

  function DescriptorBytes(d: Descriptor): (s: seq<Byte>)
    requires Fits(d)
    ensures |s| == DESCRIPTOR_SIZE
  {
    d.manufacture + d.device + VersionBytes(d.version)
    + [d.padding] + BE(d.chunkSize, 2) + BE(d.length, 4) + BE(d.appSize, 4)
  }

  function HeaderBytes(h: Header): (s: seq<Byte>)
    requires HeaderFits(h)
    ensures |s| == HEADER_SIZE
  {
    BE(h.codeOffset, 4) + BE(h.codeLength, 4) + BE(h.footerOffset, 4) + BE(h.footerLength, 4)
    + [h.count] + DescriptorBytes(h.descriptor)
  }

  function ParseVersion(b: seq<Byte>): (v: Version)
    requires |b| == 11
  {
    Version(b[0], b[1], b[2], FromBE(b[3..7]), FromBE(b[7..11]))
  }

  function ParseDescriptor(b: seq<Byte>): (d: Descriptor)
    requires |b| == DESCRIPTOR_SIZE
  {
    Descriptor(b[0..16], b[16..20], ParseVersion(b[20..31]), b[31],
               FromBE(b[32..34]), FromBE(b[34..38]), FromBE(b[38..42]))
  }

  function ParseHeader(b: seq<Byte>): (h: Header)
    requires |b| == HEADER_SIZE
  {
    Header(FromBE(b[0..4]), FromBE(b[4..8]), FromBE(b[8..12]), FromBE(b[12..16]), b[16], ParseDescriptor(b[17..59]))
  }

  lemma Words()
    ensures Pow256(2) == U16 && Pow256(4) == U32
  {
    assert Pow256(2) == U16;
  }

  lemma VersionRoundTrip(v: Version)
    requires v.build < U32 && v.timestamp < U32
    ensures ParseVersion(VersionBytes(v)) == v
  {
    Words();
    BERoundTrip(v.build, 4);
    BERoundTrip(v.timestamp, 4);
    hide BE, FromBE, Pow256;
    var b := VersionBytes(v);
    assert b[3..7] == BE(v.build, 4) && b[7..11] == BE(v.timestamp, 4);
  }

  lemma DescriptorRoundTrip(d: Descriptor)
    requires Fits(d)
    ensures ParseDescriptor(DescriptorBytes(d)) == d
  {
    Words();
    VersionRoundTrip(d.version);
    BERoundTrip(d.chunkSize, 2);
    BERoundTrip(d.length, 4);
    BERoundTrip(d.appSize, 4);
    hide BE, FromBE, Pow256, VersionBytes, ParseVersion;
    DescriptorSlices(d.manufacture, d.device, VersionBytes(d.version), d.padding,
                     BE(d.chunkSize, 2), BE(d.length, 4), BE(d.appSize, 4));
  }

  lemma DescriptorSlices(m: seq<Byte>, t: seq<Byte>, v: seq<Byte>, p: Byte, c: seq<Byte>, l: seq<Byte>, a: seq<Byte>)
    requires |m| == 16 && |t| == 4 && |v| == 11 && |c| == 2 && |l| == 4 && |a| == 4
    ensures var b := m + t + v + [p] + c + l + a;
            && |b| == 42 && b[0..16] == m && b[16..20] == t && b[20..31] == v && b[31] == p
            && b[32..34] == c && b[34..38] == l && b[38..42] == a
  {
  }

  /** What the device reads from a header is what the signer put in. */
  lemma HeaderRoundTrip(h: Header)
    requires HeaderFits(h)
    ensures ParseHeader(HeaderBytes(h)) == h
  {
    Words();
    DescriptorRoundTrip(h.descriptor);
    BERoundTrip(h.codeOffset, 4);
    BERoundTrip(h.codeLength, 4);
    BERoundTrip(h.footerOffset, 4);
    BERoundTrip(h.footerLength, 4);
    hide BE, FromBE, Pow256, DescriptorBytes, ParseDescriptor;
    HeaderSlices(BE(h.codeOffset, 4), BE(h.codeLength, 4), BE(h.footerOffset, 4), BE(h.footerLength, 4),
                 h.count, DescriptorBytes(h.descriptor));
  }

  lemma HeaderSlices(o: seq<Byte>, l: seq<Byte>, fo: seq<Byte>, fl: seq<Byte>, n: Byte, d: seq<Byte>)
    requires |o| == 4 && |l| == 4 && |fo| == 4 && |fl| == 4 && |d| == 42
    ensures var b := o + l + fo + fl + [n] + d;
            && |b| == 59 && b[0..4] == o && b[4..8] == l && b[8..12] == fo && b[12..16] == fl && b[16] == n
            && b[17..59] == d
  {
  }

  /** Four bytes of b are those of w. */
  lemma WordMoves(b: seq<Byte>, i: nat, w: seq<Byte>)
    requires i + |w| <= |b| && b[i..i + |w|] == w
    ensures |w| == 4 ==> Big32At(b, i) == Big32At(w, 0) && Little32At(b, i) == Little32At(w, 0)
    ensures |w| == 2 ==> Big16At(b, i) == Big16At(w, 0) && Little16At(b, i) == Little16At(w, 0)
  {
    assert forall k :: 0 <= k < |w| ==> b[i + k] == w[k];
  }

  lemma WordFits(b: seq<Byte>, i: nat, n: nat)
    ensures i + 4 <= |b| && n < U32 && b[i..i + 4] == BE(n, 4) ==> Big32At(b, i) == n
    ensures i + 2 <= |b| && n < U16 && b[i..i + 2] == BE(n, 2) ==> Big16At(b, i) == n
  {
    BEWords(n);
    hide BE, Big32At, Big16At;
    if i + 4 <= |b| && b[i..i + 4] == BE(n, 4) {
      WordMoves(b, i, BE(n, 4));
    }
    if i + 2 <= |b| && b[i..i + 2] == BE(n, 2) {
      WordMoves(b, i, BE(n, 2));
    }
  }

  /** Where the fields of a version lie, and in which byte order. */
  lemma VersionLayout(v: Version)
    requires v.build < U32 && v.timestamp < U32
    ensures var b := VersionBytes(v);
            && b[..3] == [v.major, v.minor, v.patch] && Big32At(b, 3) == v.build && Big32At(b, 7) == v.timestamp
  {
    hide BE, Big32At;
    var b := VersionBytes(v);
    assert b[3..7] == BE(v.build, 4) && b[7..11] == BE(v.timestamp, 4);
    WordFits(b, 3, v.build);
    WordFits(b, 7, v.timestamp);
  }

  /** The descriptor, in the footer and, 17 bytes on, in the header. */
  lemma DescriptorLayout(d: Descriptor)
    requires Fits(d)
    ensures var b := DescriptorBytes(d);
            && b[0..16] == d.manufacture && b[16..20] == d.device
            && b[20..23] == [d.version.major, d.version.minor, d.version.patch]
            && Big32At(b, 23) == d.version.build && Big32At(b, 27) == d.version.timestamp
            && b[31] == d.padding && Big16At(b, 32) == d.chunkSize && Big32At(b, 34) == d.length
            && Big32At(b, 38) == d.appSize
  {
    var b, v := DescriptorBytes(d), VersionBytes(d.version);
    DescriptorSlices(d.manufacture, d.device, v, d.padding, BE(d.chunkSize, 2), BE(d.length, 4), BE(d.appSize, 4));
    hide BE, Big32At, Big16At;
    assert v[3..7] == BE(d.version.build, 4) && v[7..11] == BE(d.version.timestamp, 4);
    assert b[20..23] == b[20..31][..3] && b[23..27] == b[20..31][3..7] && b[27..31] == b[20..31][7..11];
    WordFits(b, 23, d.version.build);
    WordFits(b, 27, d.version.timestamp);
    WordFits(b, 32, d.chunkSize);
    WordFits(b, 34, d.length);
    WordFits(b, 38, d.appSize);
  }

  lemma HeaderLayout(h: Header)
    requires HeaderFits(h)
    ensures var b := HeaderBytes(h);
            && Big32At(b, 0) == h.codeOffset && Big32At(b, 4) == h.codeLength && Big32At(b, 8) == h.footerOffset
            && Big32At(b, 12) == h.footerLength && b[16] == h.count && b[17..59] == DescriptorBytes(h.descriptor)
  {
    var b := HeaderBytes(h);
    HeaderSlices(BE(h.codeOffset, 4), BE(h.codeLength, 4), BE(h.footerOffset, 4), BE(h.footerLength, 4),
                 h.count, DescriptorBytes(h.descriptor));
    hide BE, Big32At, Big16At, DescriptorBytes, Fits;
    WordFits(b, 0, h.codeOffset);
    WordFits(b, 4, h.codeLength);
    WordFits(b, 8, h.footerOffset);
    WordFits(b, 12, h.footerLength);
  }

  // ---------------------------------------------------------------- sizes by curve

  /** GetPublicKeySizeByECType; case labels without a body give 0, an unknown type stops the tool (-1). */
  function SignerKeySize(ecType: Byte): int {
    match ecType
    case 1 => 0
    case 2 => 0
    case 3 => 65
    case 4 => 97
    case 5 => 133
    case 6 => 49
    case 7 => 57
    case 8 => 0
    case 9 => 0
    case 10 => 32
    case _ => -1
  }

  /** GetSignatureSizeByECType. */
  function SignerSignatureSize(ecType: Byte): int {
    match ecType
    case 1 => 0
    case 2 => 0
    case 3 => 64
    case 4 => 96
    case 5 => 132
    case 6 => 48
    case 7 => 56
    case 8 => 0
    case 10 => 64
    case 11 => 256
    case _ => -1
  }

  /** vs_secmodule_get_pubkey_len. */
  function PubkeyLen(ecType: Byte): int {
    match ecType
    case 1 => 49
    case 2 => 57
    case 3 => 65
    case 4 => 97
    case 5 => 133
    case 6 => 49
    case 7 => 57
    case 8 => 65
    case 9 => 32
    case 10 => 32
    case _ => -1
  }

  /** vs_secmodule_get_signature_len. */
  function SignatureLen(ecType: Byte): int {
    match ecType
    case 1 => 48
    case 2 => 56
    case 3 => 64
    case 4 => 96
    case 5 => 132
    case 6 => 48
    case 7 => 56
    case 8 => 64
    case 10 => 64
    case _ => -1
  }

  /** The curves whose sizes the signer and the device agree on. */
  predicate Agreed(ecType: Byte) {
    ecType == 3 || ecType == 4 || ecType == 5 || ecType == 6 || ecType == 7 || ecType == 10
  }

  lemma SizesAgree(ecType: Byte)
    ensures Agreed(ecType) <==>
      SignatureLen(ecType) > 0 && PubkeyLen(ecType) > 0
      && SignerSignatureSize(ecType) == SignatureLen(ecType) && SignerKeySize(ecType) == PubkeyLen(ecType)
  {
  }

  /** Bytes of a coordinate on the curve of a type. */
  function FieldSize(ecType: Byte): nat {
    match ecType
    case 1 => 24 // SECP192R1
    case 2 => 28 // SECP224R1
    case 3 => 32 // SECP256R1
    case 4 => 48 // SECP384R1
    case 5 => 66 // SECP521R1
    case 6 => 24 // SECP192K1
    case 7 => 28 // SECP224K1
    case 8 => 32 // SECP256K1
    case _ => 0
  }

  /** A key is an uncompressed point, and a signature a pair of numbers of that size; keys on Curve25519 and
      Ed25519 have 32 bytes, and only the latter have a signature. */
  lemma SizesByCurve(ecType: Byte)
    ensures FieldSize(ecType) > 0 ==>
              PubkeyLen(ecType) == 1 + 2 * FieldSize(ecType) && SignatureLen(ecType) == 2 * FieldSize(ecType)
    ensures FieldSize(ecType) == 0 && ecType != 9 && ecType != 10 ==> PubkeyLen(ecType) < 0 && SignatureLen(ecType) < 0
    ensures PubkeyLen(9) == PubkeyLen(10) == 32 && SignatureLen(9) < 0 && SignatureLen(10) == 64
  {
  }

  // ---------------------------------------------------------------- signatures

  /** Signature.ToBytes. */
  function SignatureBytes(s: Signature): (b: seq<Byte>)
    ensures |b| == SIGNATURE_META_SIZE + |s.sign| + |s.pubkey|
  {
    [s.signer, s.ecType, s.hashType] + s.sign + s.pubkey
  }

  function SignaturesBytes(ss: seq<Signature>): (b: seq<Byte>) {
    if ss == [] then [] else SignaturesBytes(ss[..|ss| - 1]) + SignatureBytes(ss[|ss| - 1])
  }

  /** The signature and the key have the lengths the device expects. */
  predicate WellSized(s: Signature) {
    SignatureLen(s.ecType) == |s.sign| > 0 && PubkeyLen(s.ecType) == |s.pubkey| > 0
  }

  lemma LastSignature(ss: seq<Signature>)
    requires ss != []
    ensures SignaturesBytes(ss) == SignaturesBytes(ss[..|ss| - 1]) + SignatureBytes(ss[|ss| - 1])
  {
  }

  lemma OneSignature(ss: seq<Signature>)
    requires |ss| == 1
    ensures SignaturesBytes(ss) == SignatureBytes(ss[0]) && SignaturesBytes(ss[1..]) == []
  {
    assert ss[..0] == [];
  }

  /** The bytes of the first signature of several come first. */
  lemma {:induction false} FirstSignature(ss: seq<Signature>)
    requires ss != []
    ensures SignaturesBytes(ss) == SignatureBytes(ss[0]) + SignaturesBytes(ss[1..])
  {
    hide *;
    var n := |ss| - 1;
    if n == 0 {
      OneSignature(ss);
    } else {
      FirstSignature(ss[..n]);
      assert ss[..n][1..] == ss[1..][..n - 1];
      LastSignature(ss);
      LastSignature(ss[1..]);
      Regroup(SignatureBytes(ss[0]), SignaturesBytes(ss[1..][..n - 1]), SignatureBytes(ss[n]));
    }
  }

  lemma Regroup(a: seq<Byte>, b: seq<Byte>, c: seq<Byte>)
    ensures a + b + c == a + (b + c)
  {
  }

  // ---------------------------------------------------------------- the two files

  /** The signing oracle: signatures over the bytes it is given, one per configured key. */
  type Signing = seq<Byte> -> seq<Signature>

  /** What the signer is configured with. */
  datatype Config = Config(code: seq<Byte>, programSize: int, ecTypes: seq<Byte>, manufacturer: seq<Byte>,
      model: seq<Byte>,
                           version: Version, chunkSize: int)

  /** copy into a fixed-size array. */
  function Fixed(s: seq<Byte>, n: nat): (r: seq<Byte>)
    ensures |r| == n
  {
    if |s| >= n then s[..n] else s + Fill(0, n - |s|)
  }

  function FooterSize(ecTypes: seq<Byte>): int {
    if ecTypes == [] then FOOTER_META_SIZE
    else
      var ec := ecTypes[|ecTypes| - 1];
      FooterSize(ecTypes[..|ecTypes| - 1]) + SIGNATURE_META_SIZE + SignerSignatureSize(ec) + SignerKeySize(ec)
  }

  /** The descriptor, with the conversions to fixed-width integers. */
  function DescriptorOf(c: Config): (d: Descriptor)
    ensures c.version.build < U32 && c.version.timestamp < U32 ==> Fits(d)
  {
    Descriptor(Fixed(c.manufacturer, 16), Fixed(c.model, 4), c.version, 0, c.chunkSize % U16,
               |c.code| % U32, c.programSize % U32)
  }

  function FooterMeta(c: Config): (b: seq<Byte>)
    requires Fits(DescriptorOf(c))
    ensures |b| == FOOTER_META_SIZE
  {
    [|c.ecTypes| % 256] + DescriptorBytes(DescriptorOf(c))
  }

  function FillerSize(c: Config): nat {
    var n := c.programSize - (|c.code| + FooterSize(c.ecTypes));
    if n > 0 then n else 0
  }

  /** What gets signed. */
  function SignedPart(c: Config): (b: seq<Byte>)
    requires Fits(DescriptorOf(c))
  {
    c.code + Fill(0xFF, FillerSize(c)) + FooterMeta(c)
  }

  /** The _Prog file. */
  function ProgFile(c: Config, sign: Signing): (b: seq<Byte>)
    requires Fits(DescriptorOf(c))
  {
    SignedPart(c) + SignaturesBytes(sign(SignedPart(c)))
  }

  function FooterBytes(c: Config, sign: Signing): (b: seq<Byte>)
    requires Fits(DescriptorOf(c))
  {
    FooterMeta(c) + SignaturesBytes(sign(SignedPart(c)))
  }

  function HeaderOf(c: Config): (h: Header)
    requires Fits(DescriptorOf(c))
    ensures HeaderFits(h)
  {
    Header(HEADER_SIZE, |c.code| % U32, (HEADER_SIZE + |c.code|) % U32, FooterSize(c.ecTypes) % U32,
           |c.ecTypes| % 256, DescriptorOf(c))
  }

  /** The _Update file. */
  function UpdateFile(c: Config, sign: Signing): (b: seq<Byte>)
    requires Fits(DescriptorOf(c))
  {
    HeaderBytes(HeaderOf(c)) + c.code + FooterBytes(c, sign)
  }

  /** The signer returns one signature per configured key, of that key's curve and sizes. */
  ghost predicate Signs(sign: Signing, c: Config, ss: seq<Signature>) {
    && |ss| == |c.ecTypes| < 256
    && forall i :: 0 <= i < |ss| ==> ss[i].ecType == c.ecTypes[i] && Agreed(ss[i].ecType) && WellSized(ss[i])
  }

  /** With agreed curves the declared footer length is the length of the footer. */
  lemma {:induction false} DeclaredSize(ecTypes: seq<Byte>, ss: seq<Signature>)
    requires |ss| == |ecTypes|
    requires forall i :: 0 <= i < |ss| ==> ss[i].ecType == ecTypes[i] && Agreed(ss[i].ecType) && WellSized(ss[i])
    ensures FooterSize(ecTypes) == FOOTER_META_SIZE + |SignaturesBytes(ss)|
  {
    if ss != [] {
      var n := |ss| - 1;
      DeclaredSize(ecTypes[..n], ss[..n]);
      SizesAgree(ecTypes[n]);
      hide Agreed, SignatureLen, PubkeyLen, SignerSignatureSize, SignerKeySize, SignatureBytes;
      assert WellSized(ss[n]);
    }
  }

  /** SignerUtility: buffers are appended to piece by piece, and the parts of the first file
      are kept for the second. */
  class SignerUtility {
    const config: Config
    const sign: Signing
    var firmwareCode: seq<Byte>
    var filler: seq<Byte>
    var signaturesCount: Byte
    var descriptor: Descriptor
    var signatures: seq<Signature>

    constructor (config: Config, sign: Signing)
      ensures this.config == config && this.sign == sign
    {
      this.config, this.sign := config, sign;
      firmwareCode, filler, signaturesCount, signatures := [], [], 0, [];
      descriptor := Descriptor([], [], config.version, 0, 0, 0, 0);
    }

    method CalculateFooterSize() returns (size: int)
      ensures size == FooterSize(config.ecTypes)
    {
      size := FOOTER_META_SIZE;
      var i := 0;
      while i < |config.ecTypes|
        invariant 0 <= i <= |config.ecTypes| && size == FooterSize(config.ecTypes[..i])
      {
        assert config.ecTypes[..i + 1][..i] == config.ecTypes[..i];
        size := size + SIGNATURE_META_SIZE;
        size := size + SignerSignatureSize(config.ecTypes[i]);
        size := size + SignerKeySize(config.ecTypes[i]);
        i := i + 1;
      }
      assert config.ecTypes[..i] == config.ecTypes;
    }

    /** The parts that createUpdateFile takes over. */
    ghost predicate Prepared()
      requires Fits(DescriptorOf(config))
      reads this
    {
      && firmwareCode == config.code && signaturesCount == |config.ecTypes| % 256
      && descriptor == DescriptorOf(config) && signatures == sign(SignedPart(config))
    }

    method AppendSignatures(buf: seq<Byte>, ss: seq<Signature>) returns (out: seq<Byte>)
      ensures out == buf + SignaturesBytes(ss)
    {
      out := buf;
      var i := 0;
      while i < |ss|
        invariant 0 <= i <= |ss| && out == buf + SignaturesBytes(ss[..i])
      {
        assert ss[..i + 1][..i] == ss[..i];
        out := out + SignatureBytes(ss[i]);
        i := i + 1;
      }
      assert ss[..i] == ss;
    }

    method CreateProgFile() returns (file: seq<Byte>)
      requires Fits(DescriptorOf(config))
      modifies this
      ensures file == ProgFile(config, sign) && Prepared()
    {
      var progBuf := config.code;
      var footerSize := CalculateFooterSize();
      var fillerLength := config.programSize - (|config.code| + footerSize);
      filler := [];
      var i := 0;
      while i < fillerLength
        invariant 0 <= i && (i <= fillerLength || i == 0) && filler == Fill(0xFF, i)
      {
        filler := filler + [0xFF];
        i := i + 1;
      }
      progBuf := progBuf + filler;
      signaturesCount := |config.ecTypes| % 256;
      descriptor := DescriptorOf(config);
      progBuf := progBuf + [signaturesCount];
      progBuf := progBuf + DescriptorBytes(descriptor);
      assert progBuf == SignedPart(config);
      signatures := sign(progBuf);
      file := AppendSignatures(progBuf, signatures);
      firmwareCode := config.code;
    }

    method CreateUpdateFile() returns (file: seq<Byte>)
      requires Fits(DescriptorOf(config)) && Prepared()
      ensures file == UpdateFile(config, sign)
    {
      var footerLen := CalculateFooterSize();
      var header := Header(HEADER_SIZE, |firmwareCode| % U32, (HEADER_SIZE + |firmwareCode|) % U32, footerLen % U32,
                           signaturesCount, descriptor);
      var updateBuf := HeaderBytes(header);
      updateBuf := updateBuf + firmwareCode;
      updateBuf := updateBuf + [signaturesCount];
      updateBuf := updateBuf + DescriptorBytes(descriptor);
      file := AppendSignatures(updateBuf, signatures);
      assert file == UpdateFile(config, sign);
    }
  }
}
