/** From the signer's two files to the installed image: the device rebuilds, from the update
    file alone, the very bytes of the program file, and hashes the very bytes that were signed. */
module FirmwarePipeline {
  import opened Bytes
  import opened Versions
  import opened Firmware
  import opened FirmwareStore
  import opened FirmwareDownload
  import opened FirmwareReception
  import Sha256

  /** What the signer wrote, seen as an upload. */
  ghost function UploadOf(c: Config, sign: Signing): Upload
    requires Fits(DescriptorOf(c))
  {
    Upload(HeaderOf(c), c.code, FooterBytes(c, sign))
  }

  /** A configuration the signer accepts and the device can take: numbers fit their fields, the
      program has room for code and footer, keys are of agreed curves, sizes respect the device. */
  ghost predicate Deployable(c: Config, sign: Signing, dev: Device) {
    && c.version.build < U32 && c.version.timestamp < U32
    && 0 < c.chunkSize < U16 && c.chunkSize <= dev.limit
    && |c.code| + FooterSize(c.ecTypes) <= c.programSize < U32
    && FooterSize(c.ecTypes) < 0xFFFF && FooterSize(c.ecTypes) <= dev.limit
    && HEADER_SIZE + |c.code| + FooterSize(c.ecTypes) < MAX_UPDATE_SIZE
    && (Fits(DescriptorOf(c)) ==> Signs(sign, c, sign(SignedPart(c))))
    && DataId(DescriptorOf(c)) != DESCRIPTORS
  }

  lemma FileIsUpload(c: Config, sign: Signing)
    requires Fits(DescriptorOf(c))
    ensures FileBytes(UploadOf(c, sign)) == UpdateFile(c, sign)
  {
    hide HeaderBytes, FooterBytes;
  }

  /** Lengths: the declared footer size is that of the footer, and nothing wraps. */
  lemma Lengths(c: Config, sign: Signing, dev: Device)
    requires Deployable(c, sign, dev)
    ensures Fits(DescriptorOf(c))
    ensures var f := FooterBytes(c, sign);
            && |f| == FooterSize(c.ecTypes) == |FooterMeta(c)| + |SignaturesBytes(sign(SignedPart(c)))|
            && FOOTER_META_SIZE <= |f| < 0xFFFF && HEADER_SIZE + |c.code| + |f| < MAX_UPDATE_SIZE
    ensures var h := HeaderOf(c);
            && h.codeOffset == HEADER_SIZE && h.codeLength == |c.code| == h.descriptor.length
            && h.footerOffset == HEADER_SIZE + |c.code| && h.footerLength == FooterSize(c.ecTypes)
            && h.descriptor == DescriptorOf(c) && h.descriptor.chunkSize == c.chunkSize
            && h.descriptor.appSize == c.programSize
  {
    DescriptorFits(c, sign, dev);
    FooterLength(c, sign, dev);
    DeployableSizes(c, sign, dev);
    HeaderLengths(c);
    hide SignaturesBytes, SignedPart, FooterSize, Deployable, FooterBytes, HeaderOf, DescriptorOf;
  }

  lemma DeployableSizes(c: Config, sign: Signing, dev: Device)
    requires Deployable(c, sign, dev)
    ensures 0 < c.chunkSize < U16 && |c.code| + FooterSize(c.ecTypes) <= c.programSize < U32
    ensures FooterSize(c.ecTypes) < 0xFFFF && HEADER_SIZE + |c.code| + FooterSize(c.ecTypes) < MAX_UPDATE_SIZE
  {
    hide SignedPart, FooterSize, DescriptorOf, DataId;
  }

  lemma HeaderLengths(c: Config)
    requires Fits(DescriptorOf(c)) && 0 < c.chunkSize < U16 && 0 <= c.programSize < U32
    requires HEADER_SIZE + |c.code| < U32 && 0 <= FooterSize(c.ecTypes) < 0xFFFF
    ensures var h := HeaderOf(c);
            && h.codeOffset == HEADER_SIZE && h.codeLength == |c.code| == h.descriptor.length
            && h.footerOffset == HEADER_SIZE + |c.code| && h.footerLength == FooterSize(c.ecTypes)
            && h.descriptor == DescriptorOf(c) && h.descriptor.chunkSize == c.chunkSize
            && h.descriptor.appSize == c.programSize
  {
    hide FooterSize, Fixed;
  }

  lemma DescriptorFits(c: Config, sign: Signing, dev: Device)
    requires Deployable(c, sign, dev)
    ensures Fits(DescriptorOf(c))
  {
    hide SignedPart, FooterSize, DataId, Fixed;
  }

  lemma FooterLength(c: Config, sign: Signing, dev: Device)
    requires Deployable(c, sign, dev) && Fits(DescriptorOf(c))
    ensures |FooterBytes(c, sign)| == FooterSize(c.ecTypes)
            == |FooterMeta(c)| + |SignaturesBytes(sign(SignedPart(c)))|
  {
    DeclaredSize(c.ecTypes, sign(SignedPart(c)));
    hide SignaturesBytes, SignedPart, FooterSize, Agreed, WellSized, DataId, FooterMeta, DescriptorOf;
  }

  lemma FooterParts(c: Config, sign: Signing, dev: Device)
    requires Deployable(c, sign, dev) && Fits(DescriptorOf(c))
    ensures var f := FooterBytes(c, sign);
            && |f| >= FOOTER_META_SIZE && f[..FOOTER_META_SIZE] == FooterMeta(c)
            && f[0] == |c.ecTypes| && f[1..43] == DescriptorBytes(DescriptorOf(c))
            && f[FOOTER_META_SIZE..] == SignaturesBytes(sign(SignedPart(c)))
  {
    hide SignaturesBytes, SignedPart, FooterSize, DescriptorBytes, Agreed, WellSized, DataId, Fixed, DescriptorOf;
    var meta := FooterMeta(c);
    assert meta[1..43] == DescriptorBytes(DescriptorOf(c));
  }

  /** The device reads the footer as the signer meant it. */
  lemma FooterReads(c: Config, sign: Signing, dev: Device)
    requires Deployable(c, sign, dev) && Fits(DescriptorOf(c))
    ensures var f := FooterBytes(c, sign);
            |f| >= 43 && ParseDescriptor(f[1..43]) == DescriptorOf(c) && FooterScan(f) == Size(|f|)
  {
    FooterParts(c, sign, dev);
    hide FooterBytes, DescriptorBytes, ParseDescriptor, SignaturesBytes, SignedPart, DescriptorOf, ScanSignatures,
         FooterSize, DataId, WellSized, Agreed;
    DescriptorRoundTrip(DescriptorOf(c));
    ScanFinds(FooterBytes(c, sign), FOOTER_META_SIZE, sign(SignedPart(c)));
  }

  lemma UploadIsSound(c: Config, sign: Signing, dev: Device)
    requires Deployable(c, sign, dev)
    ensures Fits(DescriptorOf(c)) && Sound(dev, UploadOf(c, sign)) && HeaderFits(HeaderOf(c))
  {
    Lengths(c, sign, dev);
    FooterReads(c, sign, dev);
    hide FooterBytes, HeaderOf, DescriptorOf, ParseDescriptor, FooterScan, SignedPart, FooterSize, DataId, Signs;
  }

  /** Code and footer stand in the data file: hashing it covers exactly the signed bytes, and
      installing it writes exactly the program file. */
  lemma ImageIsProgram(c: Config, sign: Signing, dev: Device)
    requires Deployable(c, sign, dev) && Fits(DescriptorOf(c))
    ensures var f, d := c.code + FooterBytes(c, sign), DescriptorOf(c);
            && f != [] && FooterPresent(f, d) && FOOTER_META_SIZE <= |f| - d.length <= FillSize(d)
            && HashedPart(f, d) == SignedPart(c) && Image(f, d) == ProgFile(c, sign)
  {
    Lengths(c, sign, dev);
    FooterParts(c, sign, dev);
    var f, d := c.code + FooterBytes(c, sign), DescriptorOf(c);
    var footer := FooterBytes(c, sign);
    hide Deployable, FooterBytes, SignaturesBytes, DescriptorOf, FooterSize, FooterMeta, HeaderOf;
    FillIs(c, sign, dev);
    assert f[..d.length] == c.code && f[d.length..] == footer;
    assert f[d.length..d.length + FOOTER_META_SIZE] == footer[..FOOTER_META_SIZE];
    assert footer == footer[..FOOTER_META_SIZE] + footer[FOOTER_META_SIZE..];
    hide FillSize, FillerSize;
  }

  lemma FillIs(c: Config, sign: Signing, dev: Device)
    requires Deployable(c, sign, dev) && Fits(DescriptorOf(c))
    ensures FillSize(DescriptorOf(c)) - FooterSize(c.ecTypes) == FillerSize(c)
  {
    Lengths(c, sign, dev);
    hide FooterBytes, SignaturesBytes, DescriptorOf, FooterSize, FooterMeta, HeaderOf, SignedPart, DataId;
  }

  /** End to end: whatever the division of the update file into blocks, what the device then
      installs is the program file, and what it hashes is what was signed. */
  lemma UpdateBecomesProgram(c: Config, sign: Signing, dev: Device, st: State, files: Files,
                             blocks: seq<seq<Byte>>, own: Descriptor, was: seq<Byte>)
    requires Deployable(c, sign, dev) && Initial(st) && Ready(dev, UploadOf(c, sign), files)
    requires Chunks(|c.code|, c.chunkSize) <= U16
    requires Joined(blocks) == UpdateFile(c, sign) && AllClear(0, blocks)
    requires Installable(DescriptorOf(c), own)
    ensures var o, d := Feed(dev, st, files, blocks), DescriptorOf(c);
            && o.Return? && o.ret == OK && o.st.step == Finished
            && var f := Contents(o.files, DataId(d));
               && InstallEffect(f, d, own, was) == Installed(OK, ProgFile(c, sign))
               && FooterPresent(f, d) && FOOTER_META_SIZE <= |f| - d.length <= FillSize(d)
               && HashedPart(f, d) == SignedPart(c)
  {
    var u := UploadOf(c, sign);
    Lengths(c, sign, dev);
    UploadIsSound(c, sign, dev);
    FileIsUpload(c, sign);
    SoundHeader(dev, u);
    OwnVersion(DescriptorOf(c), own);
    hide Deployable, Sound, Ready, Feed, UpdateFile, FileBytes, Chunks, AllClear, DescriptorOf, HeaderOf, FooterBytes,
         FooterSize, ProgFile, SignedPart, Contents, HeaderFits, DataId, CompareOwn, Installable, Image, HashedPart;
    AnyDivision(dev, u, st, files, blocks);
    ImageIsProgram(c, sign, dev);
  }

  /** The same on the programs themselves. */
  method Deploy(utility: SignerUtility, downloader: Downloader, blocks: seq<seq<Byte>>, own: Descriptor)
    returns (installed: int, digest: array<Byte>, prog: seq<Byte>)
    requires Deployable(utility.config, utility.sign, downloader.device)
    requires downloader.Valid() && Initial(downloader.View())
    requires Ready(downloader.device, UploadOf(utility.config, utility.sign), downloader.storage.files)
    requires Chunks(|utility.config.code|, utility.config.chunkSize) <= U16
    requires Joined(blocks) == UpdateFile(utility.config, utility.sign) && AllClear(0, blocks)
    requires Installable(DescriptorOf(utility.config), own)
    modifies utility, downloader, downloader.raw, downloader.buff, downloader.storage
    ensures prog == ProgFile(utility.config, utility.sign)
    ensures installed == OK && downloader.storage.image == prog
    ensures digest[..] == Sha256.Hash(SignedPart(utility.config))
  {
    ghost var c, sign := utility.config, utility.sign;
    var d := DescriptorOf(utility.config);
    Lengths(c, sign, downloader.device);
    UpdateBecomesProgram(c, sign, downloader.device, downloader.View(), downloader.storage.files, blocks, own, []);
    InstallKeepsOld(d, own);
    hide Deployable, Sound, Ready, Feed, UpdateFile, Chunks, AllClear, DescriptorOf, HeaderOf, FooterBytes, FooterSize,
         ProgFile, SignedPart, Contents, DataId, Installable, HashedPart, Sha256.Hash, Initial, InstallEffect;
    prog := utility.CreateProgFile();
    var update := utility.CreateUpdateFile();
    assert Joined(blocks) == update;
    var code := downloader.Receive(blocks);
    var storage := downloader.storage;
    code, digest := storage.HashImage(d);
    installed := storage.Install(d, own);
  }

  /** A successful installation does not depend on what was in the install space. */
  lemma InstallKeepsOld(d: Descriptor, own: Descriptor)
    ensures forall f, a, b :: InstallEffect(f, d, own, a).code == OK ==>
            InstallEffect(f, d, own, a) == InstallEffect(f, d, own, b)
  {
  }
}
