/** vs_firmware_verify_firmware: the signature check over the stored image, and that it accepts
    what the signer produced with trusted keys. */
module FirmwareVerify {
  import opened Bytes
  import opened Firmware
  import opened FirmwareStore
  import opened FirmwarePipeline
  import opened SignatureBlocks
  import FirmwareDownload
  import K = KeyChain
  import Sha256

  const RULES: seq<int> := [K.AUTH, K.FIRMWARE]

  /** The stored image is acceptable for the descriptor. */
  ghost predicate Genuine(m: K.SecModule, f: seq<Byte>, d: Descriptor)
    requires K.Provisioned(m)
  {
    && FooterPresent(f, d) && FOOTER_META_SIZE <= |f| - d.length <= FillSize(d)
    && K.Accepts(m, RULES, Sha256.Hash(HashedPart(f, d)), f[d.length..], f[d.length], FOOTER_META_SIZE)
  }

  method VerifyFirmware(storage: Storage, m: K.SecModule, d: Descriptor) returns (ok: bool)
    requires K.Provisioned(m) && 0 < d.chunkSize < U16 && d.length < U32
    requires var f := Contents(storage.files, DataId(d)); FooterPresent(f, d) ==> |f| - d.length >= FOOTER_META_SIZE
    ensures ok == Genuine(m, Contents(storage.files, DataId(d)), d)
  {
    hide K.Provisioned, K.Accepts, Sha256.Hash, HashedPart, FillSize, DataId, Contents;
    var code, digest := storage.HashImage(d);
    if code != 0 {
      return false;
    }
    var footer;
    code, footer := storage.LoadFooter(d, 0xFFFF);
    ok := K.CheckSignatures(m, RULES, digest[..], footer, footer[0], FOOTER_META_SIZE);
  }

  /** Which firmware is genuine: every signature in its footer is by a trusted key, and two of them, at different
      places, are by authentication or firmware keys (types 1 and 3) and, like all of these types, hold over
      the hash of code, fill and footer head. With slots that can be read, all such firmware is. */
  lemma GenuineMeans(m: K.SecModule, f: seq<Byte>, d: Descriptor)
    requires K.Provisioned(m) && d.length + 43 <= |f| < d.length + 65535
    requires |f| - d.length <= (d.appSize - d.length) % 0x1_0000_0000
    ensures var footer, fill := f[d.length..], (d.appSize - d.length) % 0x1_0000_0000 - (|f| - d.length);
            var hash := Sha256.Hash(f[..d.length] + Fill(0xFF, fill) + footer[..43]);
            var es := K.Entries(footer, footer[0], 43);
            && (Genuine(m, f, d) ==> es.Some? && K.WellSigned(m, 1, 3, hash, es.value))
            && (K.Readable(m) && es.Some? && K.WellSigned(m, 1, 3, hash, es.value) ==> Genuine(m, f, d))
  {
    var footer, hash := f[d.length..], Sha256.Hash(HashedPart(f, d));
    assert footer[0] == f[d.length] && footer[..43] == f[d.length..d.length + 43];
    assert FooterPresent(f, d);
    hide K.Provisioned, Sha256.Hash, K.Entries, K.WellSigned, K.Readable, K.Accepts;
    K.AcceptsMeans(m, 1, 3, hash, footer, footer[0], 43);
  }

  /** Nothing is genuine without a footer of at least 43 bytes and less than 64 KiB that fits behind the code. */
  lemma GenuineHasFooter(m: K.SecModule, f: seq<Byte>, d: Descriptor)
    requires K.Provisioned(m) && Genuine(m, f, d)
    ensures d.length + 43 <= |f| < d.length + 65535 && |f| - d.length <= (d.appSize - d.length) % 0x1_0000_0000
  {
    hide K.Accepts, K.Provisioned, HashedPart, Sha256.Hash;
  }

  /** Firmware signed by trusted keys verifies on the device that stored its code and footer. */
  lemma SignedIsGenuine(m: K.SecModule, c: Config, sign: Signing, dev: FirmwareDownload.Device)
    requires K.Provisioned(m) && Deployable(c, sign, dev) && Fits(DescriptorOf(c))
    requires Proper(m, 1, 3, Sha256.Hash(SignedPart(c)), sign(SignedPart(c)))
    ensures Genuine(m, c.code + FooterBytes(c, sign), DescriptorOf(c))
  {
    var ss, hash, footer := sign(SignedPart(c)), Sha256.Hash(SignedPart(c)), FooterBytes(c, sign);
    var f, d := c.code + footer, DescriptorOf(c);
    Lengths(c, sign, dev);
    FooterParts(c, sign, dev);
    ImageIsProgram(c, sign, dev);
    hide K.Provisioned, Sha256.Hash, HashedPart, FooterBytes, SignedPart, FillSize, DescriptorOf, HeaderOf, FooterSize,
         SignaturesBytes, Image, ProgFile, K.Accepts, Proper, DataId, FooterMeta;
    assert f[d.length..] == footer && f[d.length] == footer[0];
    ProperAccepted(m, 1, 3, hash, footer, FOOTER_META_SIZE, ss);
  }
}
