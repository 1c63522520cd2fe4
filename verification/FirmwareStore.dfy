/** The firmware storage of modules/firmware/src/firmware.c: the descriptor table, the image
    file, the byte stream that is hashed and the image that is installed. */
module FirmwareStore {
  import opened Bytes
  import opened Versions
  import opened Firmware
  import Sha256

  datatype Option<T> = None | Some(value: T)

  const ERR_INCORRECT_ARGUMENT := -3
  const ERR_NOT_FOUND := -9
  const ERR_INCORRECT_PARAMETER := -4
  const ERR_FORMAT_OVERFLOW := -22
  const ERR_VERIFY := -30
  const ERR_FILE := -40
  const ERR_FILE_READ := -41
  const ERR_FILE_WRITE := -42
  const ERR_FILE_DELETE := -43

  // ---------------------------------------------------------------- files

  type Files = map<seq<Byte>, seq<Byte>>

  /** A file that does not exist reads as empty: both have no positive size. */
  function Contents(files: Files, id: seq<Byte>): seq<Byte> {
    if id in files then files[id] else []
  }

  /** A file after data was saved at an offset; a gap is filled with zeros. */
  function Written(f: seq<Byte>, offset: nat, data: seq<Byte>): (g: seq<Byte>)
    ensures |g| >= offset + |data| && g[offset..offset + |data|] == data
  {
    (if offset <= |f| then f[..offset] else f + Fill(0, offset - |f|))
    + data
    + (if offset + |data| <= |f| then f[offset + |data|..] else [])
  }

  function DataId(d: Descriptor): seq<Byte> {
    d.manufacture + d.device + Fill(0, 12)
  }

  /** The file name "firmware_descriptors", padded with zeros. */
  const DESCRIPTORS: seq<Byte> := [
    0x66, 0x69, 0x72, 0x6D, 0x77, 0x61, 0x72, 0x65, 0x5F, 0x64, 0x65, 0x73, 0x63, 0x72, 0x69, 0x70,
    0x74, 0x6F, 0x72, 0x73, 0, 0, 0, 0, 0, 0, 0, 0, 0, 0, 0, 0]

  // ---------------------------------------------------------------- the descriptor table

  /** A descriptor as it lies in memory on a little-endian host. */
  function Record(d: Descriptor): (r: seq<Byte>)
    requires Fits(d)
    ensures |r| == DESCRIPTOR_SIZE && r[..20] == Key(d)
  {
    d.manufacture + d.device
    + ([d.version.major, d.version.minor, d.version.patch] + LE(d.version.build, 4) + LE(d.version.timestamp, 4)
       + [d.padding] + LE(d.chunkSize, 2) + LE(d.length, 4) + LE(d.appSize, 4))
  }

  /** Entries of the table are told apart by manufacturer and device type. */
  function Key(d: Descriptor): (k: seq<Byte>) {
    d.manufacture + d.device
  }

  /** The first record with the key. */
  function Lookup(t: seq<Byte>, key: seq<Byte>): (r: Option<seq<Byte>>)
    ensures r.Some? ==> |r.value| == DESCRIPTOR_SIZE && r.value[..20] == key
    decreases |t|
  {
    if |t| < DESCRIPTOR_SIZE then None
    else if t[..20] == key then Some(t[..42])
    else Lookup(t[42..], key)
  }

  /** Replaces the first record with the same key, or appends; an incomplete tail is dropped. */
  function Upsert(t: seq<Byte>, r: seq<Byte>): (t': seq<Byte>)
    requires |r| == DESCRIPTOR_SIZE
    ensures |t'| >= |t| && |t'| >= DESCRIPTOR_SIZE
    decreases |t|
  {
    if |t| < DESCRIPTOR_SIZE then r
    else if t[..20] == r[..20] then r + t[42..]
    else t[..42] + Upsert(t[42..], r)
  }

  function Remove(t: seq<Byte>, key: seq<Byte>): (t': seq<Byte>)
    ensures |t'| <= |t|
    decreases |t|
  {
    if |t| < DESCRIPTOR_SIZE then t
    else if t[..20] == key then t[42..]
    else t[..42] + Remove(t[42..], key)
  }

  ghost predicate UniqueKeys(t: seq<Byte>)
    decreases |t|
  {
    |t| < DESCRIPTOR_SIZE || (Lookup(t[42..], t[..20]).None? && UniqueKeys(t[42..]))
  }

  lemma HeadAndTail(h: seq<Byte>, t: seq<Byte>)
    requires |h| == DESCRIPTOR_SIZE
    ensures (h + t)[..42] == h && (h + t)[..20] == h[..20] && (h + t)[42..] == t
  {
  }

  lemma LookupHead(h: seq<Byte>, t: seq<Byte>, key: seq<Byte>)
    requires |h| == DESCRIPTOR_SIZE
    ensures Lookup(h + t, key) == if h[..20] == key then Some(h) else Lookup(t, key)
    ensures UniqueKeys(h + t) <==> Lookup(t, h[..20]).None? && UniqueKeys(t)
  {
    HeadAndTail(h, t);
  }

  /** The table is a map: saving a record is found under its key and changes no other key. */
  lemma {:induction false} LookupAfterUpsert(t: seq<Byte>, r: seq<Byte>, key: seq<Byte>)
    requires |r| == DESCRIPTOR_SIZE
    ensures Lookup(Upsert(t, r), key) == if key == r[..20] then Some(r) else Lookup(t, key)
    decreases |t|
  {
    if |t| < DESCRIPTOR_SIZE {
      assert r + [] == r;
      LookupHead(r, [], key);
    } else {
      var h, rest := t[..42], t[42..];
      assert h + rest == t && h[..20] == t[..20];
      LookupHead(h, rest, key);
      if h[..20] == r[..20] {
        LookupHead(r, rest, key);
      } else {
        LookupAfterUpsert(rest, r, key);
        LookupHead(h, Upsert(rest, r), key);
      }
    }
  }

  lemma {:induction false} UpsertKeepsUnique(t: seq<Byte>, r: seq<Byte>)
    requires |r| == DESCRIPTOR_SIZE && UniqueKeys(t)
    ensures UniqueKeys(Upsert(t, r))
    decreases |t|
  {
    if |t| < DESCRIPTOR_SIZE {
      assert r + [] == r;
      LookupHead(r, [], []);
    } else {
      var h, rest := t[..42], t[42..];
      assert h + rest == t && h[..20] == t[..20];
      if h[..20] == r[..20] {
        LookupHead(r, rest, []);
      } else {
        UpsertKeepsUnique(rest, r);
        LookupAfterUpsert(rest, r, h[..20]);
        LookupHead(h, Upsert(rest, r), []);
      }
    }
  }

  /** With unique keys, removing a key removes just that key. */
  lemma {:induction false} LookupAfterRemove(t: seq<Byte>, gone: seq<Byte>, key: seq<Byte>)
    requires UniqueKeys(t)
    ensures Lookup(Remove(t, gone), key) == if key == gone then None else Lookup(t, key)
    ensures UniqueKeys(Remove(t, gone))
    decreases |t|
  {
    if |t| >= DESCRIPTOR_SIZE {
      var h, rest := t[..42], t[42..];
      assert h + rest == t && h[..20] == t[..20];
      if h[..20] != gone {
        LookupAfterRemove(rest, gone, key);
        LookupAfterRemove(rest, gone, h[..20]);
        LookupHead(h, Remove(rest, gone), key);
      }
    }
  }

  /** Offset of the first record with the key; the end of the records if there is none. */
  function Position(t: seq<Byte>, key: seq<Byte>): (p: nat)
    ensures p <= |t|
    decreases |t|
  {
    if |t| < DESCRIPTOR_SIZE || t[..20] == key then 0 else 42 + Position(t[42..], key)
  }

  /** The three operations go by position. */
  ghost predicate ByPosition(t: seq<Byte>, key: seq<Byte>, r: seq<Byte>)
    requires |r| == DESCRIPTOR_SIZE
  {
    var p := Position(t, key);
    && Lookup(t, key) == (if p + 42 <= |t| then Some(t[p..p + 42]) else None)
    && Upsert(t, r) == t[..p] + r + (if p + 42 <= |t| then t[p + 42..] else [])
    && (p + 42 <= |t| ==> Remove(t, key) == t[..p] + t[p + 42..])
  }

  lemma FirstMatches(t: seq<Byte>, key: seq<Byte>, r: seq<Byte>)
    requires |r| == DESCRIPTOR_SIZE && r[..20] == key && (|t| < DESCRIPTOR_SIZE || t[..20] == key)
    ensures ByPosition(t, key, r)
  {
    assert t[..0] + r == r;
  }

  lemma FirstDiffers(t: seq<Byte>, key: seq<Byte>, r: seq<Byte>)
    requires |r| == DESCRIPTOR_SIZE && r[..20] == key && |t| >= DESCRIPTOR_SIZE && t[..20] != key
    requires ByPosition(t[42..], key, r)
    ensures ByPosition(t, key, r)
  {
    hide Position, Lookup, Upsert, Remove;
    Missed(t, key, r);
    var q := Position(t[42..], key);
    Behind(t, q);
    Regroup(t[..42], t[42..][..q], r);
  }

  lemma Missed(t: seq<Byte>, key: seq<Byte>, r: seq<Byte>)
    requires |r| == DESCRIPTOR_SIZE && r[..20] == key && |t| >= DESCRIPTOR_SIZE && t[..20] != key
    ensures Position(t, key) == 42 + Position(t[42..], key) && Lookup(t, key) == Lookup(t[42..], key)
    ensures Upsert(t, r) == t[..42] + Upsert(t[42..], r) && Remove(t, key) == t[..42] + Remove(t[42..], key)
  {
  }

  lemma Behind(t: seq<Byte>, q: nat)
    requires 42 + q <= |t|
    ensures t[..42] + t[42..][..q] == t[..42 + q]
    ensures q + 84 <= |t| ==> t[42..][q..q + 42] == t[q + 42..q + 84] && t[42..][q + 42..] == t[q + 84..]
  {
  }

  lemma {:induction false} AtPosition(t: seq<Byte>, key: seq<Byte>, r: seq<Byte>)
    requires |r| == DESCRIPTOR_SIZE && r[..20] == key
    ensures ByPosition(t, key, r)
    decreases |t|
  {
    hide ByPosition, Lookup, Upsert, Remove, Position;
    if |t| >= DESCRIPTOR_SIZE && t[..20] != key {
      AtPosition(t[42..], key, r);
      FirstDiffers(t, key, r);
    } else {
      FirstMatches(t, key, r);
    }
  }

  lemma PositionStep(t: seq<Byte>, p: nat, key: seq<Byte>)
    requires p <= |t| && p + Position(t[p..], key) == Position(t, key)
    ensures if p + 42 <= |t| && t[p..p + 42][..20] != key
            then p + 42 + Position(t[p + 42..], key) == Position(t, key)
            else Position(t, key) == p
  {
    if p + 42 <= |t| {
      assert t[p..][42..] == t[p + 42..] && t[p..p + 42][..20] == t[p..][..20];
    }
  }

  // ---------------------------------------------------------------- file operations

  /** What a file operation answers and leaves behind. */
  datatype Effect = Effect(code: int, files: Files)

  function WriteFile(files: Files, limit: nat, id: seq<Byte>, offset: nat, data: seq<Byte>): Effect {
    if |data| > limit then Effect(ERR_INCORRECT_ARGUMENT, files)
    else Effect(OK, files[id := Written(Contents(files, id), offset, data)])
  }

  /** Where the signatures of a footer end, when they all lie inside it and are supported. */
  datatype Scan = Size(size: nat) | Unsupported | Outside

  function ScanSignatures(buf: seq<Byte>, count: nat, pos: nat): Scan
    decreases count
  {
    if count == 0 then Size(pos)
    else if pos + 2 > |buf| then Outside
    else
      var signLen, keyLen := SignatureLen(buf[pos + 1]), PubkeyLen(buf[pos + 1]);
      if signLen > 0 && keyLen > 0 then ScanSignatures(buf, count - 1, pos + SIGNATURE_META_SIZE + signLen + keyLen)
      else Unsupported
  }

  function FooterScan(buf: seq<Byte>): Scan {
    if buf == [] then Outside else ScanSignatures(buf, buf[0], FOOTER_META_SIZE)
  }

  /** One well-sized signature is skipped. */
  lemma ScanStep(buf: seq<Byte>, count: nat, pos: nat, s: Signature, rest: seq<Byte>)
    requires pos <= |buf| && buf[pos..] == SignatureBytes(s) + rest && WellSized(s)
    ensures pos + |SignatureBytes(s)| <= |buf| && buf[pos + |SignatureBytes(s)|..] == rest
    ensures ScanSignatures(buf, count + 1, pos) == ScanSignatures(buf, count, pos + |SignatureBytes(s)|)
  {
    hide SignatureLen, PubkeyLen;
    var b := SignatureBytes(s);
    assert (b + rest)[1] == b[1] == s.ecType;
    assert buf[pos + 1] == buf[pos..][1];
    assert buf[pos + |b|..] == buf[pos..][|b|..];
  }

  /** The scan of what the signer wrote ends where the signatures end. */
  lemma {:induction false} ScanFinds(buf: seq<Byte>, pos: nat, ss: seq<Signature>)
    requires pos <= |buf| && buf[pos..] == SignaturesBytes(ss)
    requires forall i :: 0 <= i < |ss| ==> WellSized(ss[i])
    ensures ScanSignatures(buf, |ss|, pos) == Size(|buf|)
    decreases |ss|
  {
    if ss != [] {
      hide *;
      FirstSignature(ss);
      ScanStep(buf, |ss| - 1, pos, ss[0], SignaturesBytes(ss[1..]));
      ScanFinds(buf, pos + |SignatureBytes(ss[0])|, ss[1..]);
    }
  }

  /** vs_firmware_save_firmware_footer, on a buffer that holds the whole footer. */
  function SaveFooterEffect(files: Files, limit: nat, d: Descriptor, footer: seq<Byte>): Effect {
    match FooterScan(footer)
    case Size(n) =>
      if n <= |footer| then WriteFile(files, limit, DataId(d), d.length, footer[..n]) else Effect(ERR_FILE, files)
    case _ => Effect(ERR_FILE, files)
  }

  function SaveDescriptorEffect(files: Files, limit: nat, d: Descriptor): Effect
    requires Fits(d)
  {
    WriteFile(files, limit, DESCRIPTORS, 0, Upsert(Contents(files, DESCRIPTORS), Record(d)))
  }

  /** vs_firmware_delete_firmware for a table that is empty or has the descriptor's key. */
  function DeleteEffect(files: Files, limit: nat, d: Descriptor): Effect {
    var t := Remove(Contents(files, DESCRIPTORS), Key(d));
    var files1 := files - {DESCRIPTORS};
    var e := if Contents(files, DESCRIPTORS) == [] then Effect(ERR_NOT_FOUND, files)
             else if t == [] then Effect(OK, files1)
             else WriteFile(files1, limit, DESCRIPTORS, 0, t);
    if DataId(d) in e.files then Effect(e.code, e.files - {DataId(d)}) else Effect(ERR_FILE_DELETE, e.files)
  }

  /** Deleting firmware removes its record, if there is one, and its data file, and touches no other record and
      no other file; it succeeds exactly if there were records and the data file. */
  lemma DeleteMeans(files: Files, limit: nat, d: Descriptor, key: seq<Byte>, id: seq<Byte>)
    requires UniqueKeys(Contents(files, DESCRIPTORS)) && |Contents(files, DESCRIPTORS)| <= limit
    requires DataId(d) != DESCRIPTORS
    ensures var e := DeleteEffect(files, limit, d);
            && Lookup(Contents(e.files, DESCRIPTORS), key)
               == (if key == Key(d) then None else Lookup(Contents(files, DESCRIPTORS), key))
            && DataId(d) !in e.files
            && (id != DataId(d) && id != DESCRIPTORS ==>
                  (id in e.files <==> id in files) && Contents(e.files, id) == Contents(files, id))
            && (e.code == OK <==> Contents(files, DESCRIPTORS) != [] && DataId(d) in files)
  {
    var t := Contents(files, DESCRIPTORS);
    LookupAfterRemove(t, Key(d), key);
    var t' := Remove(t, Key(d));
    assert Written([], 0, t') == t';
    hide Remove, UniqueKeys, Written, DataId;
    assert Lookup([], key).None?;
    hide Lookup;
  }

  // ---------------------------------------------------------------- the image

  /** Bytes of 0xFF between code and footer; the subtraction wraps like the source's. */
  function FillSize(d: Descriptor): nat {
    (d.appSize - d.length) % U32
  }

  /** The stored file has a footer of acceptable size. */
  predicate FooterPresent(f: seq<Byte>, d: Descriptor) {
    0 < |f| - d.length < 0xFFFF
  }

  /** Code, fill, footer. */
  function Image(f: seq<Byte>, d: Descriptor): seq<Byte>
    requires FooterPresent(f, d) && |f| - d.length <= FillSize(d)
  {
    f[..d.length] + Fill(0xFF, FillSize(d) - (|f| - d.length)) + f[d.length..]
  }

  /** Code, fill, the head of the footer. */
  function HashedPart(f: seq<Byte>, d: Descriptor): seq<Byte>
    requires FooterPresent(f, d) && FOOTER_META_SIZE <= |f| - d.length <= FillSize(d)
  {
    f[..d.length] + Fill(0xFF, FillSize(d) - (|f| - d.length)) + f[d.length..d.length + FOOTER_META_SIZE]
  }

  /** vs_firmware_compare_own_version; only a descriptor that differs in both parts of the key is foreign. */
  function CompareOwn(d: Descriptor, own: Descriptor): int {
    if own.manufacture != d.manufacture && own.device != d.device then ERR_NOT_FOUND
    else Compare(d.version, own.version)
  }

  datatype Installed = Installed(code: int, image: seq<Byte>)

  /** vs_firmware_install_firmware: the return code and what has been written to the install space. */
  function InstallEffect(f: seq<Byte>, d: Descriptor, own: Descriptor, was: seq<Byte>): Installed {
    if CompareOwn(d, own) != OK then Installed(ERR_VERIFY, was)
    else if f == [] then Installed(ERR_FILE, [])
    else if !FooterPresent(f, d) then Installed(ERR_FORMAT_OVERFLOW, [])
    else if |f| - d.length > FillSize(d) then Installed(ERR_FILE, f[..d.length])
    else Installed(OK, Image(f, d))
  }

  /** Firmware for this device, and of a higher version than the one it runs. */
  ghost predicate Installable(d: Descriptor, own: Descriptor) {
    (d.manufacture == own.manufacture || d.device == own.device) && Higher(d.version, own.version)
  }

  lemma OwnVersion(d: Descriptor, own: Descriptor)
    ensures CompareOwn(d, own) == OK <==> Installable(d, own)
    ensures CompareOwn(d, own) == OLD_VERSION <==>
            (d.manufacture == own.manufacture || d.device == own.device) && !Higher(d.version, own.version)
    ensures CompareOwn(d, own) == ERR_NOT_FOUND <==> d.manufacture != own.manufacture && d.device != own.device
  {
    CompareIsLexicographic(d.version, own.version);
    hide Higher;
  }

  /** Firmware that is not for this device, or not higher, leaves the install space as it was. Any other is
      installed exactly if it has a footer of less than 64 KiB for which there is room behind the code: the
      code first, the footer last, and 0xFF in between. */
  lemma InstallMeans(f: seq<Byte>, d: Descriptor, own: Descriptor, was: seq<Byte>)
    requires Fits(d)
    ensures var i := InstallEffect(f, d, own, was);
            var footer, room := |f| - d.length, (d.appSize - d.length) % 0x1_0000_0000;
            if !Installable(d, own) then i == Installed(ERR_VERIFY, was)
            else if !(0 < footer < 65535) then
              i.image == [] && i.code == if f == [] then ERR_FILE else ERR_FORMAT_OVERFLOW
            else if footer > room then i.image == f[..d.length] && i.code == ERR_FILE
            else
              && i.code == OK && |i.image| == d.length + room
              && forall k :: 0 <= k < d.length + room ==>
                 i.image[k] == if k < d.length then f[k]
                               else if k < d.length + room - footer then 0xFF else f[k - room + footer]
  {
    OwnVersion(d, own);
    hide CompareOwn, Installable;
  }

  class Storage {
    const limit: nat
    var files: Files
    var image: seq<Byte>

    constructor (limit: nat)
      ensures this.limit == limit && files == map[] && image == []
    {
      this.limit, files, image := limit, map[], [];
    }

    // -------------------------------------------------------------- reading and writing

    method ReadData(id: seq<Byte>, offset: nat, size: nat) returns (code: int, data: seq<Byte>)
      ensures var f := Contents(files, id);
              if f == [] || |f| < offset then code == ERR_FILE && data == []
              else code == OK && data == f[offset..if |f| - offset > size then offset + size else |f|]
    {
      var f := Contents(files, id);
      if |f| <= 0 || |f| < offset {
        return ERR_FILE, [];
      }
      var bytesLeft := |f| - offset;
      var dataSize := if bytesLeft > size then size else bytesLeft;
      return OK, f[offset..offset + dataSize];
    }

    method WriteData(id: seq<Byte>, offset: nat, data: seq<Byte>) returns (code: int)
      modifies this`files
      ensures Effect(code, files) == WriteFile(old(files), limit, id, offset, data)
    {
      if |data| > limit {
        return ERR_INCORRECT_ARGUMENT;
      }
      files := files[id := Written(Contents(files, id), offset, data)];
      return OK;
    }

    method SaveChunk(d: Descriptor, chunk: seq<Byte>, offset: nat) returns (code: int)
      modifies this`files
      ensures Effect(code, files) == WriteFile(old(files), limit, DataId(d), offset, chunk)
    {
      code := WriteData(DataId(d), offset, chunk);
    }

    method SaveFooter(d: Descriptor, footer: seq<Byte>) returns (code: int)
      requires FooterScan(footer) != Outside
      requires FooterScan(footer).Size? ==> FooterScan(footer).size <= |footer|
      modifies this`files
      ensures Effect(code, files) == SaveFooterEffect(old(files), limit, d, footer)
    {
      var i, footerSize := 0, FOOTER_META_SIZE;
      while i < footer[0]
        invariant 0 <= i <= footer[0] && footerSize >= 0
        invariant ScanSignatures(footer, footer[0] - i, footerSize) == FooterScan(footer)
      {
        var signLen := SignatureLen(footer[footerSize + 1]);
        var keyLen := PubkeyLen(footer[footerSize + 1]);
        if signLen <= 0 || keyLen <= 0 {
          return ERR_FILE;
        }
        footerSize := footerSize + SIGNATURE_META_SIZE + signLen + keyLen;
        i := i + 1;
      }
      code := WriteData(DataId(d), d.length, footer[..footerSize]);
    }

    // -------------------------------------------------------------- descriptors

    /** The search loop over the records. */
    method Search(buf: seq<Byte>, key: seq<Byte>) returns (offset: nat)
      ensures offset == Position(buf, key)
    {
      hide Position;
      assert buf[0..] == buf;
      offset := 0;
      while offset + DESCRIPTOR_SIZE <= |buf|
        invariant offset <= |buf| && offset + Position(buf[offset..], key) == Position(buf, key)
      {
        PositionStep(buf, offset, key);
        if buf[offset..offset + 42][..20] == key {
          return;
        }
        offset := offset + DESCRIPTOR_SIZE;
      }
      PositionStep(buf, offset, key);
    }

    method SaveDescriptor(d: Descriptor) returns (code: int)
      requires Fits(d)
      modifies this`files
      ensures Effect(code, files) == SaveDescriptorEffect(old(files), limit, d)
    {
      hide Upsert, Position, Lookup, Remove, Written;
      var buf, record := Contents(files, DESCRIPTORS), Record(d);
      hide Record, LE;
      AtPosition(buf, Key(d), record);
      var newbuf;
      if |buf| > 0 {
        var offset := Search(buf, Key(d));
        newbuf := buf[..offset] + record + if offset + DESCRIPTOR_SIZE <= |buf| then buf[offset + DESCRIPTOR_SIZE..]
            else [];
      } else {
        newbuf := record;
        assert buf[..0] + record + [] == record;
      }
      code := WriteData(DESCRIPTORS, 0, newbuf);
    }

    method LoadDescriptor(key: seq<Byte>) returns (code: int, r: seq<Byte>)
      requires |key| == 20
      ensures match Lookup(Contents(files, DESCRIPTORS), key)
              case None => code == ERR_NOT_FOUND
              case Some(found) => code == OK && r == found
    {
      hide Upsert, Position, Lookup, Remove;
      var buf := Contents(files, DESCRIPTORS);
      AtPosition(buf, key, key + Fill(0, 22));
      var offset := Search(buf, key);
      if offset + DESCRIPTOR_SIZE <= |buf| {
        return OK, buf[offset..offset + DESCRIPTOR_SIZE];
      }
      return ERR_NOT_FOUND, [];
    }

    method DeleteFirmware(d: Descriptor) returns (code: int)
      requires |Key(d)| == 20
      requires var t := Contents(files, DESCRIPTORS); t == [] || Lookup(t, Key(d)).Some?
      modifies this`files
      ensures Effect(code, files) == DeleteEffect(old(files), limit, d)
    {
      hide Upsert, Position, Lookup, Remove, Written;
      var buf := Contents(files, DESCRIPTORS);
      code := ERR_NOT_FOUND;
      if |buf| > 0 {
        AtPosition(buf, Key(d), Key(d) + Fill(0, 22));
        var offset := Search(buf, Key(d));
        buf := buf[..offset] + buf[offset + DESCRIPTOR_SIZE..];
        files := files - {DESCRIPTORS};
        code := OK;
        if |buf| != 0 {
          code := WriteData(DESCRIPTORS, 0, buf);
        }
      }
      if DataId(d) !in files {
        return ERR_FILE_DELETE;
      }
      files := files - {DataId(d)};
    }

    // -------------------------------------------------------------- verifying and installing

    method LoadFooter(d: Descriptor, size: nat) returns (code: int, data: seq<Byte>)
      ensures var f := Contents(files, DataId(d));
              if f == [] then code == ERR_FILE_READ
              else if !FooterPresent(f, d) then code == ERR_FORMAT_OVERFLOW
              else if |f| - d.length > size then code == ERR_FILE
              else code == OK && data == f[d.length..]
    {
      var f := Contents(files, DataId(d));
      data := [];
      if |f| > 0 {
        var footerSize := |f| - d.length;
        if !(footerSize > 0 && footerSize < 0xFFFF) {
          return ERR_FORMAT_OVERFLOW, data;
        }
        if footerSize > size {
          return ERR_FILE, data;
        }
        code, data := ReadData(DataId(d), d.length, footerSize);
        return;
      }
      return ERR_FILE_READ, data;
    }

    /** The stored code, chunk by chunk, into the hash. */
    method HashCode(d: Descriptor, ctx: Sha256.Context) returns (code: int)
      requires 0 < d.chunkSize < U16 && d.length < U32 && FooterPresent(Contents(files, DataId(d)), d)
      requires ctx.Valid() && ctx.fed == []
      modifies ctx`total0, ctx`total1, ctx`fed, ctx.state, ctx.buffer
      ensures code == OK && ctx.Valid() && ctx.fed == Contents(files, DataId(d))[..d.length]
    {
      hide Sha256.Context.Valid, DataId;
      var offset := 0;
      ghost var f := Contents(files, DataId(d));
      PresentLength(f, d);
      while offset < d.length
        invariant 0 <= offset <= d.length && ctx.Valid() && ctx.fed == f[..offset]
        invariant ctx.state == old(ctx.state) && ctx.buffer == old(ctx.buffer)
      {
        var rest := d.length - offset;
        var size := if rest > d.chunkSize then d.chunkSize else rest;
        var buf;
        code, buf := ReadData(DataId(d), offset, size);
        if code != OK {
          return;
        }
        ctx.Update(buf[..size]);
        assert f[..offset] + f[offset..offset + size] == f[..offset + size];
        offset := offset + size;
      }
      code := OK;
    }

    lemma PresentLength(f: seq<Byte>, d: Descriptor)
      requires FooterPresent(f, d)
      ensures d.length < |f| && f != [] && |f| - d.length < 0xFFFF && f[..0] == []
    {
    }

    /** Fill bytes, at most a chunk at a time, into the hash. */
    method HashFill(chunkSize: nat, fill: nat, ctx: Sha256.Context)
      requires 0 < chunkSize < U16 && ctx.Valid()
      modifies ctx`total0, ctx`total1, ctx`fed, ctx.state, ctx.buffer
      ensures ctx.Valid() && ctx.fed == old(ctx.fed) + Fill(0xFF, fill)
    {
      hide Sha256.Context.Valid;
      var left := fill;
      var buf := Fill(0xFF, if chunkSize > left then left else chunkSize);
      assert ctx.fed + Fill(0xFF, 0) == ctx.fed;
      while left > 0
        invariant 0 <= left <= fill && ctx.Valid() && ctx.fed == old(ctx.fed) + Fill(0xFF, fill - left)
        invariant |buf| <= chunkSize && (left >= chunkSize ==> |buf| == chunkSize)
                  && (left < chunkSize ==> left <= |buf|)
        invariant forall i :: 0 <= i < |buf| ==> buf[i] == 0xFF
        invariant ctx.state == old(ctx.state) && ctx.buffer == old(ctx.buffer)
      {
        var size := if chunkSize > left then left else chunkSize;
        ctx.Update(buf[..size]);
        assert buf[..size] == Fill(0xFF, size);
        FillMore(0xFF, fill - left, size);
        left := left - size;
      }
    }

    /** The first part of the footer, into the hash. */
    method HashFooter(d: Descriptor, footerSize: nat, ctx: Sha256.Context) returns (code: int)
      requires ctx.Valid() && FooterPresent(Contents(files, DataId(d)), d)
      requires |Contents(files, DataId(d))| - d.length == footerSize >= FOOTER_META_SIZE
      modifies ctx`total0, ctx`total1, ctx`fed, ctx.state, ctx.buffer
      ensures code == OK && ctx.Valid()
      ensures ctx.fed == old(ctx.fed) + Contents(files, DataId(d))[d.length..d.length + FOOTER_META_SIZE]
    {
      hide Sha256.Context.Valid, DataId, Contents;
      ghost var f := Contents(files, DataId(d));
      var footer;
      code, footer := LoadFooter(d, footerSize);
      ctx.Update(footer[..FOOTER_META_SIZE]);
      assert footer[..FOOTER_META_SIZE] == f[d.length..d.length + FOOTER_META_SIZE];
    }

    /** The hash that vs_firmware_verify_firmware checks signatures against. */
    method HashImage(d: Descriptor) returns (code: int, digest: array<Byte>)
      requires 0 < d.chunkSize < U16 && d.length < U32
      requires var f := Contents(files, DataId(d)); FooterPresent(f, d) ==> |f| - d.length >= FOOTER_META_SIZE
      ensures fresh(digest)
      ensures var f := Contents(files, DataId(d));
              if f == [] then code == ERR_FILE
              else if !FooterPresent(f, d) then code == ERR_FORMAT_OVERFLOW
              else if |f| - d.length > FillSize(d) then code == ERR_INCORRECT_PARAMETER
              else code == OK && digest[..] == Sha256.Hash(HashedPart(f, d))
    {
      hide Sha256.Hash, Sha256.Context.Valid, DataId, Contents, FillSize;
      digest := new Byte[32](_ => 0);
      var f := Contents(files, DataId(d));
      if |f| <= 0 {
        return ERR_FILE, digest;
      }
      var footerSize := |f| - d.length;
      if !(footerSize > 0 && footerSize < 0xFFFF) {
        return ERR_FORMAT_OVERFLOW, digest;
      }
      var ctx := new Sha256.Context();
      code := HashCode(d, ctx);
      var fill := FillSize(d);
      if footerSize > fill {
        return ERR_INCORRECT_PARAMETER, digest;
      }
      HashFill(d.chunkSize, fill - footerSize, ctx);
      code := HashFooter(d, footerSize, ctx);
      FinishHash(ctx, digest);
    }

    method FinishHash(ctx: Sha256.Context, digest: array<Byte>)
      requires ctx.Valid() && digest.Length == 32 && digest != ctx.buffer
      modifies ctx`total0, ctx`total1, ctx.state, ctx.buffer, digest
      ensures digest[..] == Sha256.Hash(old(ctx.fed))
    {
      hide Sha256.Hash, Sha256.Context.Valid;
      ctx.Final(digest);
      assert Sha256.Hash(old(ctx.fed)) + old(digest[32..]) == Sha256.Hash(old(ctx.fed));
    }

    /** The stored code, chunk by chunk, into the install space. */
    method InstallCode(d: Descriptor) returns (code: int)
      requires 0 < d.chunkSize && FooterPresent(Contents(files, DataId(d)), d) && image == []
      modifies this`image
      ensures code == OK && image == Contents(files, DataId(d))[..d.length]
    {
      ghost var f := Contents(files, DataId(d));
      var offset := 0;
      while offset < d.length
        invariant 0 <= offset <= d.length && image == f[..offset]
      {
        var rest := d.length - offset;
        var size := if rest > d.chunkSize then d.chunkSize else rest;
        var buf;
        code, buf := ReadData(DataId(d), offset, size);
        if code != OK {
          return;
        }
        assert f[..offset] + f[offset..offset + size] == f[..offset + size];
        image := image + buf;
        offset := offset + size;
      }
      code := OK;
    }

    method InstallFill(chunkSize: nat, fill: nat)
      requires 0 < chunkSize
      modifies this`image
      ensures image == old(image) + Fill(0xFF, fill)
    {
      var left := fill;
      var buf := Fill(0xFF, if chunkSize > left then left else chunkSize);
      assert image + Fill(0xFF, 0) == image;
      while left > 0
        invariant 0 <= left <= fill && image == old(image) + Fill(0xFF, fill - left)
        invariant |buf| <= chunkSize && (left >= chunkSize ==> |buf| == chunkSize)
                  && (left < chunkSize ==> left <= |buf|)
      {
        var size := if chunkSize > left then left else chunkSize;
        FillMore(0xFF, fill - left, size);
        image := image + buf[..size];
        assert buf[..size] == Fill(0xFF, size);
        left := left - size;
      }
    }

    method Install(d: Descriptor, own: Descriptor) returns (code: int)
      requires 0 < d.chunkSize
      modifies this`image
      ensures Installed(code, image) == InstallEffect(Contents(files, DataId(d)), d, own, old(image))
    {
      code := CompareOwn(d, own);
      if code == OLD_VERSION {
        return ERR_VERIFY;
      }
      if code != OK {
        return ERR_VERIFY;
      }
      image := [];
      var f := Contents(files, DataId(d));
      if |f| <= 0 {
        return ERR_FILE;
      }
      var footerSize := |f| - d.length;
      if !(footerSize > 0 && footerSize < 0xFFFF) {
        return ERR_FORMAT_OVERFLOW;
      }
      code := InstallCode(d);
      var fill := FillSize(d);
      if footerSize > fill {
        return ERR_FILE;
      }
      InstallFill(d.chunkSize, fill - footerSize);
      var footer;
      code, footer := LoadFooter(d, footerSize);
      image := image + footer;
    }
  }

  lemma FillMore(b: Byte, n: nat, m: nat)
    ensures Fill(b, n) + Fill(b, m) == Fill(b, n + m)
  {
  }
}
