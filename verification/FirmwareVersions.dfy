/** A download never replaces firmware by an older one: what the handler of modules/cloud/src/cloud.c does
    with a header, in terms of the versions in the descriptor table and of the device's own version. */
module FirmwareVersions {
  import opened Bytes
  import opened Versions
  import opened Firmware
  import opened FirmwareStore
  import opened FirmwareDownload

  // ---------------------------------------------------------------- records

  /** The version kept in a record is the one that was stored. */
  lemma RecordRoundTrip(d: Descriptor)
    requires Fits(d)
    ensures RecordVersion(Record(d)) == d.version
  {
    Words();
    LERoundTrip(d.version.build, 4);
    LERoundTrip(d.version.timestamp, 4);
    hide LE, FromLE, Pow256;
    var r, v := Record(d), d.version;
    assert r[23..27] == LE(v.build, 4) && r[27..31] == LE(v.timestamp, 4);
  }

  /** Where the fields of a record lie, on a little-endian host. */
  lemma RecordLayout(d: Descriptor)
    requires Fits(d)
    ensures var r := Record(d);
            && r[..16] == d.manufacture && r[16..20] == d.device
            && r[20..23] == [d.version.major, d.version.minor, d.version.patch]
            && Little32At(r, 23) == d.version.build && Little32At(r, 27) == d.version.timestamp && r[31] == d.padding
            && Little16At(r, 32) == d.chunkSize && Little32At(r, 34) == d.length && Little32At(r, 38) == d.appSize
  {
    LEWords(d.version.build);
    LEWords(d.version.timestamp);
    LEWords(d.chunkSize);
    LEWords(d.length);
    LEWords(d.appSize);
    hide LE, Little32At, Little16At;
    var r := Record(d);
    RecordSlices(d);
    WordMoves(r, 23, LE(d.version.build, 4));
    WordMoves(r, 27, LE(d.version.timestamp, 4));
    WordMoves(r, 32, LE(d.chunkSize, 2));
    WordMoves(r, 34, LE(d.length, 4));
    WordMoves(r, 38, LE(d.appSize, 4));
  }

  lemma RecordSlices(d: Descriptor)
    requires Fits(d)
    ensures var r := Record(d);
            && r[..16] == d.manufacture && r[16..20] == d.device
            && r[20..23] == [d.version.major, d.version.minor, d.version.patch]
            && r[23..27] == LE(d.version.build, 4) && r[27..31] == LE(d.version.timestamp, 4) && r[31] == d.padding
            && r[32..34] == LE(d.chunkSize, 2) && r[34..38] == LE(d.length, 4) && r[38..42] == LE(d.appSize, 4)
  {
    hide LE;
  }

  /** What a record was made from. */
  function DescriptorOfRecord(r: seq<Byte>): Descriptor
    requires |r| == DESCRIPTOR_SIZE
  {
    Descriptor(r[0..16], r[16..20], RecordVersion(r), r[31], FromLE(r[32..34]), FromLE(r[34..38]), FromLE(r[38..42]))
  }

  lemma LEParts(r: seq<Byte>)
    requires |r| == DESCRIPTOR_SIZE
    ensures FromLE(r[23..27]) < U32 && FromLE(r[27..31]) < U32 && FromLE(r[32..34]) < U16
    ensures FromLE(r[34..38]) < U32 && FromLE(r[38..42]) < U32
    ensures LE(FromLE(r[23..27]), 4) == r[23..27] && LE(FromLE(r[27..31]), 4) == r[27..31]
    ensures LE(FromLE(r[32..34]), 2) == r[32..34]
    ensures LE(FromLE(r[34..38]), 4) == r[34..38] && LE(FromLE(r[38..42]), 4) == r[38..42]
  {
    Words();
    hide LE, FromLE, Pow256;
    forall lo, hi | 0 <= lo <= hi <= 42
      ensures FromLE(r[lo..hi]) < Pow256(hi - lo) && LE(FromLE(r[lo..hi]), hi - lo) == r[lo..hi]
    {
      FromLEBound(r[lo..hi]);
      LEOfFromLE(r[lo..hi]);
    }
  }

  /** Every 42 bytes are the record of a descriptor. */
  lemma EveryRecord(r: seq<Byte>)
    requires |r| == DESCRIPTOR_SIZE
    ensures Fits(DescriptorOfRecord(r)) && Record(DescriptorOfRecord(r)) == r
  {
    LEParts(r);
    Reassembled(r);
    hide LE, FromLE;
  }

  lemma Reassembled(r: seq<Byte>)
    requires |r| == DESCRIPTOR_SIZE
    ensures r == r[0..16] + r[16..20] + ([r[20], r[21], r[22]] + r[23..27] + r[27..31]
                 + [r[31]] + r[32..34] + r[34..38] + r[38..42])
  {
    assert r[20..32] == [r[20], r[21], r[22]] + r[23..27] + r[27..31] + [r[31]];
    assert r[32..42] == r[32..34] + r[34..38] + r[38..42];
    assert r == r[0..16] + r[16..20] + (r[20..32] + r[32..42]);
  }

  // ---------------------------------------------------------------- what is wanted

  function Table(files: Files): seq<Byte> {
    Contents(files, DESCRIPTORS)
  }

  /** A descriptor is of interest: higher than the device's own version if it shares the manufacturer or the
      device type, and higher than what is stored for both; with nothing stored, not all zeros. */
  ghost predicate Wanted(t: seq<Byte>, own: Descriptor, d: Descriptor) {
    && (d.manufacture == own.manufacture || d.device == own.device ==> Higher(d.version, own.version))
    && match Lookup(t, d.manufacture + d.device)
       case None => exists i: nat :: i < 4 && Rank(d.version)[i] != 0
       case Some(r) => forall d0 :: Fits(d0) && Record(d0) == r ==> Higher(d.version, d0.version)
  }

  lemma HigherThanZero(v: Version)
    ensures Newer(v, Version(0, 0, 0, 0, 0)) <==> exists i: nat :: i < 4 && Rank(v)[i] != 0
  {
    var r := Rank(v);
    if Newer(v, Version(0, 0, 0, 0, 0)) {
      assert r[0] != 0 || r[1] != 0 || r[2] != 0 || r[3] != 0;
    }
  }

  /** The version check of the handler decides exactly that. */
  lemma WantedIsNew(files: Files, own: Descriptor, d: Descriptor)
    ensures IsNew(files, own, d) <==> Wanted(Table(files), own, d)
  {
    CompareIsLexicographic(d.version, own.version);
    match Lookup(Table(files), Key(d)) {
      case None => HigherThanZero(d.version);
      case Some(r) =>
        EveryRecord(r);
        var d0 := DescriptorOfRecord(r);
        RecordRoundTrip(d0);
        CompareIsLexicographic(d.version, d0.version);
        hide Record, Higher, Compare, DescriptorOfRecord, RecordVersion;
        forall d1 | Fits(d1) && Record(d1) == r
          ensures RecordVersion(r) == d1.version
        {
          RecordRoundTrip(d1);
        }
    }
  }

  // ---------------------------------------------------------------- what becomes of the table

  /** Keys are unique and the table can be written. */
  ghost predicate Tidy(t: seq<Byte>, limit: nat) {
    UniqueKeys(t) && |t| <= limit
  }

  /** The record of d is stored under its key; every other key is as before. */
  ghost predicate StoredIn(t: seq<Byte>, t': seq<Byte>, d: Descriptor)
    requires Fits(d)
  {
    forall key :: Lookup(t', key) == if key == Key(d) then Some(Record(d)) else Lookup(t, key)
  }

  lemma {:induction false} UpsertLength(t: seq<Byte>, r: seq<Byte>)
    requires |r| == DESCRIPTOR_SIZE && Lookup(t, r[..20]).Some?
    ensures |Remove(t, r[..20])| == |t| - DESCRIPTOR_SIZE
  {
    if t[..20] != r[..20] {
      UpsertLength(t[42..], r);
    }
  }

  lemma {:induction false} UpsertGrows(t: seq<Byte>, r: seq<Byte>)
    requires |r| == DESCRIPTOR_SIZE
    ensures |Upsert(t, r)| <= |t| + DESCRIPTOR_SIZE
    decreases |t|
  {
    if |t| >= DESCRIPTOR_SIZE && t[..20] != r[..20] {
      UpsertGrows(t[42..], r);
    }
  }

  /** Removing a stored record and saving another under its key takes no more room. */
  lemma RemoveThenUpsert(t: seq<Byte>, d: Descriptor, limit: nat)
    requires Fits(d) && Tidy(t, limit)
    ensures Lookup(t, Key(d)).Some? ==> |Upsert(Remove(t, Key(d)), Record(d))| <= limit
    ensures UniqueKeys(Upsert(t, Record(d))) && UniqueKeys(Upsert(Remove(t, Key(d)), Record(d)))
    ensures StoredIn(t, Upsert(t, Record(d)), d)
    ensures StoredIn(t, Upsert(Remove(t, Key(d)), Record(d)), d)
  {
    var r, t1 := Record(d), Remove(t, Key(d));
    hide Lookup, Upsert, Remove, UniqueKeys;
    if Lookup(t, Key(d)).Some? {
      UpsertLength(t, r);
      UpsertGrows(t1, r);
    }
    UpsertKeepsUnique(t, r);
    LookupAfterRemove(t, Key(d), []);
    UpsertKeepsUnique(t1, r);
    forall key
      ensures Lookup(Upsert(t, r), key) == if key == Key(d) then Some(r) else Lookup(t, key)
      ensures Lookup(Upsert(t1, r), key) == if key == Key(d) then Some(r) else Lookup(t, key)
    {
      LookupAfterUpsert(t, r, key);
      LookupAfterRemove(t, Key(d), key);
      LookupAfterUpsert(t1, r, key);
    }
  }

  /** Preparing the storage for d leaves everything as it was, or stores the record of d in place of the
      one under its key. It fails only if there is no such record and no room for one more. */
  lemma PrepareTable(files: Files, limit: nat, d: Descriptor)
    requires Fits(d) && Tidy(Table(files), limit) && DataId(d) != DESCRIPTORS
    ensures var e := Prepare(files, limit, d);
            && Tidy(Table(e.files), limit)
            && (e.code == OK ==> StoredIn(Table(files), Table(e.files), d))
            && (e.code != OK ==> e.files == files && Lookup(Table(files), Key(d)).None?
                                 && |Table(files)| + DESCRIPTOR_SIZE > limit)
  {
    var t := Table(files);
    RemoveThenUpsert(t, d, limit);
    PrepareIs(files, limit, d);
    UpsertGrows(t, Record(d));
    hide Lookup, Upsert, Remove, UniqueKeys, Prepare, StoredIn, Record, DataId;
  }

  lemma PrepareIs(files: Files, limit: nat, d: Descriptor)
    requires Fits(d) && |Table(files)| <= limit && DataId(d) != DESCRIPTORS
    ensures var t, r, e := Table(files), Record(d), Prepare(files, limit, d);
            if Lookup(t, Key(d)).Some? then
              |Upsert(Remove(t, Key(d)), r)| <= limit ==>
                e.code == OK && Table(e.files) == Upsert(Remove(t, Key(d)), r)
            else if |Upsert(t, r)| <= limit then e.code == OK && Table(e.files) == Upsert(t, r)
            else e.code != OK && e.files == files
  {
    var t, r := Table(files), Record(d);
    WrittenWhole(t, Upsert(t, r));
    WrittenWhole([], Remove(t, Key(d)));
    WrittenWhole([], Upsert([], r));
    WrittenWhole(Remove(t, Key(d)), Upsert(Remove(t, Key(d)), r));
    hide Upsert, Remove, Record, DataId, Written;
    assert Lookup([], Key(d)).None?;
    hide Lookup;
  }

  lemma WrittenWhole(f: seq<Byte>, data: seq<Byte>)
    ensures |data| >= |f| ==> Written(f, 0, data) == data
  {
  }

  // ---------------------------------------------------------------- one call

  /** The table is left alone, unless the data file goes by its name. */
  ghost predicate Apart(d: Descriptor, files: Files, files': Files) {
    DataId(d) != DESCRIPTORS ==> Table(files') == Table(files)
  }

  lemma WriteApart(files: Files, limit: nat, d: Descriptor, offset: nat, data: seq<Byte>)
    ensures Apart(d, files, WriteFile(files, limit, DataId(d), offset, data).files)
  {
    hide Written, DataId;
  }

  /** Chunks go to the data file. */
  lemma {:induction false} ChunksApart(dev: Device, st: State, files: Files, rest: seq<Byte>)
    requires Typed(st)
    ensures match ChunkPhase(dev, st, files, rest)
            case Stop(Fault) => true
            case Stop(Return(st1, files1, _)) =>
              Apart(st.header.descriptor, files, files1) && st1.header == st.header && st1.step == st.step
            case Continue(st1, files1, _) =>
              && Apart(st.header.descriptor, files, files1) && st1.header == st.header
              && (st1.step == st.step || st1.step == AtFooter)
    decreases |rest|, RoundsLeft(st)
  {
    hide ChunkRound, RoundsLeft, DataId;
    if rest != [] && st.step == AtChunks {
      RoundApart(dev, st, files, rest);
      var p := ChunkRound(dev, st, files, rest);
      if p.Continue? && p.st.step == AtChunks {
        ChunksApart(dev, p.st, p.files, p.rest);
      }
    }
  }

  lemma RoundApart(dev: Device, st: State, files: Files, rest: seq<Byte>)
    requires Typed(st) && st.step == AtChunks
    ensures match ChunkRound(dev, st, files, rest)
            case Stop(Fault) => true
            case Stop(Return(st1, files1, _)) =>
              Apart(st.header.descriptor, files, files1) && st1.header == st.header && st1.step == AtChunks
            case Continue(st1, files1, _) =>
              && Apart(st.header.descriptor, files, files1) && st1.header == st.header
              && (st1.step == AtChunks || st1.step == AtFooter)
  {
    hide Overwrite, WriteFile, RoundsLeft, Grown, DataId;
    if st.offset <= st.header.codeLength {
      var length := ChunkLength(st.header, st.offset);
      if length <= |st.buff| && st.used <= length {
        var size := if st.used + |rest| > length then length - st.used else |rest|;
        var buff := Overwrite(st.buff, st.used, rest[..size]);
        WriteApart(files, dev.limit, st.header.descriptor, st.offset, buff[..length]);
      }
    }
  }

  lemma FooterApart(dev: Device, st: State, files: Files, rest: seq<Byte>, blockSize: nat)
    requires Typed(st) && st.step != AtHeader
    ensures match FooterPhase(dev, st, files, rest, blockSize)
            case Fault => true
            case Return(st1, files1, _) =>
              Apart(st.header.descriptor, files, files1) && st1.header == st.header && st1.step != AtHeader
  {
    hide Overwrite, WriteFile, DataId, FooterScan, ParseDescriptor;
    var d := st.header.descriptor;
    forall data
      ensures Apart(d, files, WriteFile(files, dev.limit, DataId(d), d.length, data).files)
    {
      WriteApart(files, dev.limit, d, d.length, data);
    }
  }

  /** Chunks and footer, from where the header phase has left the handler. */
  lemma RestApart(dev: Device, st: State, files: Files, rest: seq<Byte>, blockSize: nat)
    requires Typed(st) && st.step != AtHeader
    ensures match ChunkPhase(dev, st, files, rest)
            case Stop(Fault) => true
            case Stop(Return(st1, files1, _)) =>
              Apart(st.header.descriptor, files, files1) && st1.header == st.header && st1.step != AtHeader
            case Continue(st1, files1, rest1) =>
              && Apart(st.header.descriptor, files, files1) && st1.header == st.header && st1.step != AtHeader
              && match FooterPhase(dev, st1, files1, rest1, blockSize)
                 case Fault => true
                 case Return(st2, files2, _) =>
                   Apart(st.header.descriptor, files, files2) && st2.header == st.header && st2.step != AtHeader
  {
    hide ChunkPhase, FooterPhase, DataId, Contents;
    ChunksApart(dev, st, files, rest);
    var q := ChunkPhase(dev, st, files, rest);
    if q.Continue? {
      FooterApart(dev, q.st, q.files, q.rest, blockSize);
    }
  }

  /** Past the header a call keeps header and table. */
  lemma LaterCall(dev: Device, st: State, files: Files, block: seq<Byte>)
    requires Typed(st) && st.step != AtHeader
    ensures var o := Handle(dev, st, files, block);
            o.Return? ==> Apart(st.header.descriptor, files, o.files) && o.st.header == st.header
                          && o.st.step != AtHeader
  {
    hide HeaderPhase, ChunkPhase, FooterPhase, DataId;
    RestApart(dev, st, files, block, |block|);
  }

  // ---------------------------------------------------------------- the header

  /** The offsets and lengths in a header agree, and the file is smaller than 2 MiB. */
  predicate Consistent(h: Header) {
    && h.descriptor.length == h.codeLength && h.codeOffset == 59 && h.codeLength <= h.footerOffset
    && (h.footerOffset + h.footerLength) % 0x1_0000_0000 < 0x20_0000
  }

  /** What a complete header leads to. */
  lemma AcceptTable(dev: Device, st: State, files: Files)
    requires Typed(st)
    ensures var h := ParseHeader(st.raw);
            var d := h.descriptor;
            && Fits(d)
            && var p := AcceptHeader(dev, st, files);
               if !Consistent(h) || !Wanted(Table(files), dev.own, d) then p == Stop(Return(st.(header := h), files, 0))
               else if DataId(d) != DESCRIPTORS && Tidy(Table(files), dev.limit) then
                 (match p
                 case Stop(Fault) => d.chunkSize == 0
                 case Stop(Return(st1, files1, ret)) =>
                   && ret == 0 && files1 == files && st1 == st.(header := h)
                   && Lookup(Table(files), Key(d)).None? && |Table(files)| + DESCRIPTOR_SIZE > dev.limit
                 case Continue(st1, files1, _) =>
                   && st1.header == h && st1.step == AtChunks && st1.used == st.used
                   && StoredIn(Table(files), Table(files1), d) && Tidy(Table(files1), dev.limit))
               else true
  {
    ParsedFits(st.raw);
    var h := ParseHeader(st.raw);
    var d := h.descriptor;
    WantedIsNew(files, dev.own, d);
    hide ParseHeader, IsNew, Prepare, Lookup, StoredIn, Tidy, Wanted, Grown, Quantity, DataId, Contents;
    if DataId(d) != DESCRIPTORS && Tidy(Table(files), dev.limit) {
      PrepareTable(files, dev.limit, d);
    }
  }

  /** The block completes a header. */
  ghost predicate Completes(st: State, block: seq<Byte>, h: Header) {
    && Typed(st) && st.step == AtHeader && st.used <= HEADER_SIZE <= st.used + |block| && HeaderFits(h)
    && st.raw[..st.used] + block[..HEADER_SIZE - st.used] == HeaderBytes(h)
  }

  lemma CompleteRaw(st: State, block: seq<Byte>, h: Header)
    requires Completes(st, block, h)
    ensures var raw := Overwrite(st.raw, st.used, block[..HEADER_SIZE - st.used]);
            |raw| == HEADER_SIZE && ParseHeader(raw) == h
  {
    HeaderRoundTrip(h);
    hide HeaderBytes, ParseHeader, HeaderFits;
    var raw := Overwrite(st.raw, st.used, block[..HEADER_SIZE - st.used]);
    assert raw == raw[..HEADER_SIZE];
  }

  /** A header that is inconsistent or not wanted is refused, and the files stay as they are. */
  lemma UnwantedRefused(dev: Device, st: State, files: Files, block: seq<Byte>, h: Header)
    requires Completes(st, block, h)
    requires !Consistent(h) || !Wanted(Table(files), dev.own, h.descriptor)
    ensures var o := Handle(dev, st, files, block);
            o.Return? && o.ret == 0 && o.files == files && o.st.step == AtHeader
  {
    CompleteRaw(st, block, h);
    hide HeaderBytes, ParseHeader, HeaderFits, AcceptHeader, Overwrite, Wanted, Table;
    var raw := Overwrite(st.raw, st.used, block[..HEADER_SIZE - st.used]);
    AcceptTable(dev, st.(raw := raw, used := HEADER_SIZE), files);
  }

  /** The header has been taken and its record is stored; no other key has changed. */
  ghost predicate Settled(limit: nat, t: seq<Byte>, h: Header, st: State, files: Files)
    requires HeaderFits(h)
  {
    && st.header == h && st.step != AtHeader && StoredIn(t, Table(files), h.descriptor)
    && Tidy(Table(files), limit)
  }

  /** A new key, and no room for its record. */
  predicate Full(t: seq<Byte>, limit: nat, d: Descriptor) {
    Lookup(t, Key(d)).None? && |t| + DESCRIPTOR_SIZE > limit
  }

  lemma HeaderPhaseIs(dev: Device, st: State, files: Files, block: seq<Byte>)
    requires Typed(st) && st.used <= HEADER_SIZE <= st.used + |block|
    ensures var size := HEADER_SIZE - st.used;
            var st1 := st.(raw := Overwrite(st.raw, st.used, block[..size]), used := HEADER_SIZE);
            var p := AcceptHeader(dev, st1, files);
            HeaderPhase(dev, st, files, block)
            == if p.Stop? then p
               else if size == |block| then Stop(Return(p.st, p.files, |block|))
               else Continue(p.st.(used := 0), p.files, block[size..])
  {
    hide Overwrite, AcceptHeader;
  }

  lemma AcceptSettles(dev: Device, st: State, files: Files, h: Header)
    requires Typed(st) && ParseHeader(st.raw) == h && HeaderFits(h) && st.step == AtHeader
    requires Consistent(h) && Wanted(Table(files), dev.own, h.descriptor)
    requires Tidy(Table(files), dev.limit) && DataId(h.descriptor) != DESCRIPTORS
    ensures match AcceptHeader(dev, st, files)
            case Stop(Fault) => true
            case Stop(Return(st1, files1, ret)) =>
              ret == 0 && files1 == files && st1.step == AtHeader && Full(Table(files), dev.limit, h.descriptor)
            case Continue(st1, files1, _) =>
              forall n: nat :: Settled(dev.limit, Table(files), h, st1.(used := n), files1)
  {
    AcceptTable(dev, st, files);
    hide ParseHeader, AcceptHeader, Wanted, Table, DataId, StoredIn, Tidy, Lookup, Consistent, Fits, Key;
  }

  lemma WantedHeader(dev: Device, st: State, files: Files, block: seq<Byte>, h: Header)
    requires Completes(st, block, h) && Consistent(h) && Wanted(Table(files), dev.own, h.descriptor)
    requires Tidy(Table(files), dev.limit) && DataId(h.descriptor) != DESCRIPTORS
    ensures match HeaderPhase(dev, st, files, block)
            case Stop(Fault) => true
            case Stop(Return(st1, files1, ret)) =>
              || Settled(dev.limit, Table(files), h, st1, files1)
              || (ret == 0 && files1 == files && st1.step == AtHeader && Full(Table(files), dev.limit, h.descriptor))
            case Continue(st1, files1, _) => Settled(dev.limit, Table(files), h, st1, files1)
  {
    CompleteRaw(st, block, h);
    HeaderPhaseIs(dev, st, files, block);
    hide HeaderBytes, ParseHeader, AcceptHeader, HeaderPhase, Overwrite, Wanted, Table, DataId, Tidy, Consistent,
         HeaderFits, Full, Settled;
    var raw := Overwrite(st.raw, st.used, block[..HEADER_SIZE - st.used]);
    var st1 := st.(raw := raw, used := HEADER_SIZE);
    AcceptSettles(dev, st1, files, h);
    var p := AcceptHeader(dev, st1, files);
    if p.Continue? {
      assert Settled(dev.limit, Table(files), h, p.st.(used := p.st.used), p.files);
      assert p.st.(used := p.st.used) == p.st;
    }
  }

  lemma SettledStays(limit: nat, t: seq<Byte>, h: Header, st: State, files: Files, st': State, files': Files)
    requires HeaderFits(h) && Settled(limit, t, h, st, files) && DataId(h.descriptor) != DESCRIPTORS
    requires Apart(h.descriptor, files, files') && st'.header == h && st'.step != AtHeader
    ensures Settled(limit, t, h, st', files')
  {
    hide Table, DataId, StoredIn, Tidy, HeaderFits;
  }

  lemma RestSettled(dev: Device, t: seq<Byte>, h: Header, st: State, files: Files, rest: seq<Byte>, blockSize: nat)
    requires HeaderFits(h) && Settled(dev.limit, t, h, st, files) && DataId(h.descriptor) != DESCRIPTORS && Typed(st)
    ensures match ChunkPhase(dev, st, files, rest)
            case Stop(Fault) => true
            case Stop(Return(st1, files1, _)) => Settled(dev.limit, t, h, st1, files1)
            case Continue(st1, files1, rest1) =>
              && Settled(dev.limit, t, h, st1, files1)
              && match FooterPhase(dev, st1, files1, rest1, blockSize)
                 case Fault => true
                 case Return(st2, files2, _) => Settled(dev.limit, t, h, st2, files2)
  {
    assert st.header == h && st.step != AtHeader;
    hide Settled, HeaderFits, ChunkPhase, FooterPhase, DataId, Apart;
    RestApart(dev, st, files, rest, blockSize);
    var q := ChunkPhase(dev, st, files, rest);
    if q.Continue? {
      SettledStays(dev.limit, t, h, st, files, q.st, q.files);
      var o := FooterPhase(dev, q.st, q.files, q.rest, blockSize);
      if o.Return? {
        SettledStays(dev.limit, t, h, st, files, o.st, o.files);
      }
    } else if q.out.Return? {
      SettledStays(dev.limit, t, h, st, files, q.out.st, q.out.files);
    }
  }

  /** Any other header has its record stored, whatever becomes of the rest of the block, unless there is no
      room for it. */
  lemma WantedStored(dev: Device, st: State, files: Files, block: seq<Byte>, h: Header)
    requires Completes(st, block, h) && Consistent(h) && Wanted(Table(files), dev.own, h.descriptor)
    requires Tidy(Table(files), dev.limit) && DataId(h.descriptor) != DESCRIPTORS
    ensures var o := Handle(dev, st, files, block);
            o.Return? ==>
              || Settled(dev.limit, Table(files), h, o.st, o.files)
              || (o.ret == 0 && o.files == files && o.st.step == AtHeader
                  && Full(Table(files), dev.limit, h.descriptor))
  {
    WantedHeader(dev, st, files, block, h);
    assert Typed(st) && st.step == AtHeader && HeaderFits(h);
    var p := HeaderPhase(dev, st, files, block);
    hide Completes, Consistent, Wanted, Tidy, DataId, HeaderFits, Full, HeaderPhase, ChunkPhase, FooterPhase, Settled,
         Table;
    if p.Continue? {
      RestSettled(dev, Table(files), h, p.st, p.files, p.rest, |block|);
    }
  }

  lemma HeaderTaken(dev: Device, st: State, files: Files, block: seq<Byte>, h: Header)
    requires Completes(st, block, h)
    ensures var o := Handle(dev, st, files, block);
            o.Return? ==> o.st.header == h && (o.st.step == AtHeader ==> o.ret == 0)
  {
    CompleteRaw(st, block, h);
    HeaderPhaseIs(dev, st, files, block);
    hide HeaderBytes, ParseHeader, HeaderFits, AcceptHeader, HeaderPhase, Overwrite, ChunkPhase, FooterPhase;
    var size := HEADER_SIZE - st.used;
    var st1 := st.(raw := Overwrite(st.raw, st.used, block[..size]), used := HEADER_SIZE);
    AcceptTakes(dev, st1, files);
    var p := AcceptHeader(dev, st1, files);
    if p.Continue? {
      RestApart(dev, p.st.(used := 0), p.files, block[size..], |block|);
      hide Apart;
    }
  }

  lemma AcceptTakes(dev: Device, st: State, files: Files)
    requires Typed(st)
    ensures var h := ParseHeader(st.raw);
            match AcceptHeader(dev, st, files)
            case Stop(Fault) => true
            case Stop(Return(st1, _, ret)) => st1.header == h && st1.step == st.step && ret == 0
            case Continue(st1, _, _) => st1.header == h && st1.step == AtChunks
  {
    hide ParseHeader, IsNew, Prepare, Grown, Quantity;
  }

  /** A block that does not complete the header changes nothing but the bytes received. */
  lemma HeaderGrows(dev: Device, st: State, files: Files, block: seq<Byte>)
    requires Typed(st) && st.step == AtHeader && st.used + |block| < HEADER_SIZE
    ensures var o := Handle(dev, st, files, block);
            && o.Return? && o.files == files && o.ret == |block| && o.st.step == AtHeader
            && o.st.used == st.used + |block|
  {
    hide Overwrite, AcceptHeader;
  }

  // ---------------------------------------------------------------- the two version checks

  /** Firmware of which a version not lower is stored is refused. */
  lemma StoredNotReplaced(dev: Device, st: State, files: Files, block: seq<Byte>, h: Header, d0: Descriptor)
    requires Completes(st, block, h) && Fits(d0)
    requires Lookup(Table(files), h.descriptor.manufacture + h.descriptor.device) == Some(Record(d0))
    requires !exists i: nat :: i < 4 && BiggerAt(Rank(h.descriptor.version), Rank(d0.version), i)
    ensures var o := Handle(dev, st, files, block);
            o.Return? && o.ret == 0 && o.files == files && o.st.step == AtHeader
  {
    hide Handle, HeaderBytes, Record, Lookup, Table, Completes, Fits;
    UnwantedRefused(dev, st, files, block, h);
  }

  /** So is firmware of the device's manufacturer or type that is not higher than the device's own. */
  lemma OwnNotUndercut(dev: Device, st: State, files: Files, block: seq<Byte>, h: Header)
    requires Completes(st, block, h)
    requires h.descriptor.manufacture == dev.own.manufacture || h.descriptor.device == dev.own.device
    requires !exists i: nat :: i < 4 && BiggerAt(Rank(h.descriptor.version), Rank(dev.own.version), i)
    ensures var o := Handle(dev, st, files, block);
            o.Return? && o.ret == 0 && o.files == files && o.st.step == AtHeader
  {
    hide Handle, HeaderBytes, Lookup, Table, Completes;
    UnwantedRefused(dev, st, files, block, h);
  }

  // ---------------------------------------------------------------- whole transfers

  /** The first 59 bytes are not complete yet, or they are behind. */
  predicate Open(st: State) {
    Typed(st) && (st.step == AtHeader ==> st.used < HEADER_SIZE)
  }

  /** The handler has gone past the header, and a wanted record is stored; or the table is the old one. */
  ghost predicate Renewed(dev: Device, st: State, t: seq<Byte>, st': State, t': seq<Byte>) {
    var d := st'.header.descriptor;
    if st.step == AtHeader && st'.step != AtHeader then Fits(d) && Wanted(t, dev.own, d) && StoredIn(t, t', d)
    else t' == t
  }

  lemma EveryVersion(b: seq<Byte>)
    requires |b| == 11
    ensures VersionBytes(ParseVersion(b)) == b
  {
    BEOfFromBE(b[3..7]);
    BEOfFromBE(b[7..11]);
    hide BE, FromBE;
  }

  lemma EveryDescriptor(b: seq<Byte>)
    requires |b| == DESCRIPTOR_SIZE && Fits(ParseDescriptor(b))
    ensures DescriptorBytes(ParseDescriptor(b)) == b
  {
    EveryVersion(b[20..31]);
    BEOfFromBE(b[32..34]);
    BEOfFromBE(b[34..38]);
    BEOfFromBE(b[38..42]);
    hide BE, FromBE, VersionBytes, ParseVersion;
    assert b == b[0..16] + b[16..20] + b[20..31] + [b[31]] + b[32..34] + b[34..38] + b[38..42];
  }

  /** Every 59 bytes are a header. */
  lemma EveryHeader(b: seq<Byte>)
    requires |b| == HEADER_SIZE
    ensures HeaderFits(ParseHeader(b)) && HeaderBytes(ParseHeader(b)) == b
  {
    ParsedFits(b);
    EveryDescriptor(b[17..59]);
    BEOfFromBE(b[0..4]);
    BEOfFromBE(b[4..8]);
    BEOfFromBE(b[8..12]);
    BEOfFromBE(b[12..16]);
    hide BE, FromBE, DescriptorBytes, ParseDescriptor, Fits;
    assert b == b[0..4] + b[4..8] + b[8..12] + b[12..16] + [b[16]] + b[17..59];
  }

  /** The header has been taken before, or is not taken, or is taken now. */
  lemma CallRenews(dev: Device, st: State, files: Files, block: seq<Byte>)
    requires Open(st) && Tidy(Table(files), dev.limit)
    requires var o := Handle(dev, st, files, block);
             o.Return? && ((o.ret == |block| && o.st.step == AtHeader) || DataId(o.st.header.descriptor) != DESCRIPTORS)
    ensures var o := Handle(dev, st, files, block);
            && Renewed(dev, st, Table(files), o.st, Table(o.files)) && Tidy(Table(o.files), dev.limit)
            && (o.ret == |block| ==> Open(o.st))
            && (st.step != AtHeader ==> o.st.header == st.header && o.st.step != AtHeader)
  {
    hide Handle, DataId, Tidy, Table, Wanted, StoredIn;
    if st.step != AtHeader {
      LaterCall(dev, st, files, block);
    } else if st.used + |block| < HEADER_SIZE {
      HeaderGrows(dev, st, files, block);
    } else {
      HeaderRenews(dev, st, files, block);
    }
  }

  lemma HeaderRenews(dev: Device, st: State, files: Files, block: seq<Byte>)
    requires Open(st) && st.step == AtHeader && HEADER_SIZE <= st.used + |block| && Tidy(Table(files), dev.limit)
    requires var o := Handle(dev, st, files, block);
             o.Return? && ((o.ret == |block| && o.st.step == AtHeader) || DataId(o.st.header.descriptor) != DESCRIPTORS)
    ensures var o := Handle(dev, st, files, block);
            && Renewed(dev, st, Table(files), o.st, Table(o.files)) && Tidy(Table(o.files), dev.limit)
            && (o.ret == |block| ==> Open(o.st))
  {
    var b := st.raw[..st.used] + block[..HEADER_SIZE - st.used];
    EveryHeader(b);
    var h, o := ParseHeader(b), Handle(dev, st, files, block);
    hide Handle, DataId, Tidy, Table, Wanted, StoredIn, ParseHeader, HeaderBytes, Consistent, Full;
    if !Consistent(h) || !Wanted(Table(files), dev.own, h.descriptor) {
      UnwantedRefused(dev, st, files, block, h);
    } else {
      HeaderTaken(dev, st, files, block, h);
      WantedStored(dev, st, files, block, h);
    }
  }

  lemma {:induction false} LaterFeed(dev: Device, st: State, files: Files, blocks: seq<seq<Byte>>)
    requires Typed(st) && st.step != AtHeader
    ensures var o := Feed(dev, st, files, blocks);
            o.Return? ==> o.st.header == st.header && o.st.step != AtHeader
    decreases |blocks|
  {
    hide Handle, Apart;
    if blocks != [] {
      LaterCall(dev, st, files, blocks[0]);
      var o := Handle(dev, st, files, blocks[0]);
      if o.Return? && o.ret == |blocks[0]| {
        LaterFeed(dev, o.st, o.files, blocks[1..]);
      }
    }
  }

  /** A whole transfer, complete or not, leaves the table as it was or stores one wanted record. */
  lemma {:induction false} FeedRenews(dev: Device, st: State, files: Files, blocks: seq<seq<Byte>>)
    requires Open(st) && Tidy(Table(files), dev.limit)
    requires var o := Feed(dev, st, files, blocks);
             o.Return? && DataId(o.st.header.descriptor) != DESCRIPTORS
    ensures var o := Feed(dev, st, files, blocks);
            Renewed(dev, st, Table(files), o.st, Table(o.files)) && Tidy(Table(o.files), dev.limit)
    decreases |blocks|
  {
    hide Handle, DataId, Tidy, Table, Wanted, StoredIn, Fits;
    if blocks != [] {
      var o := Handle(dev, st, files, blocks[0]);
      if o.ret == |blocks[0]| && o.st.step != AtHeader {
        LaterFeed(dev, o.st, o.files, blocks[1..]);
      }
      CallRenews(dev, st, files, blocks[0]);
      if o.ret == |blocks[0]| {
        FeedRenews(dev, o.st, o.files, blocks[1..]);
      }
    }
  }

  /** A version not lower than v is stored under the key. */
  ghost predicate AtLeast(t: seq<Byte>, key: seq<Byte>, v: Version) {
    exists d :: Fits(d) && Lookup(t, key) == Some(Record(d)) && !Higher(v, d.version)
  }

  /** Over any transfer, complete or not, the version stored under a key never goes down, and no key is lost. */
  lemma VersionsNeverFall(dev: Device, st: State, files: Files, blocks: seq<seq<Byte>>, key: seq<Byte>, v: Version)
    requires Open(st) && Tidy(Table(files), dev.limit) && AtLeast(Table(files), key, v)
    requires var o := Feed(dev, st, files, blocks);
             o.Return? && DataId(o.st.header.descriptor) != DESCRIPTORS
    ensures var o := Feed(dev, st, files, blocks);
            AtLeast(Table(o.files), key, v) && Tidy(Table(o.files), dev.limit)
  {
    hide Feed, DataId, Tidy, Table, Record, Higher, Fits;
    FeedRenews(dev, st, files, blocks);
    var o := Feed(dev, st, files, blocks);
    var d := o.st.header.descriptor;
    if Table(o.files) != Table(files) && key == Key(d) {
      var d0 :| Fits(d0) && Lookup(Table(files), key) == Some(Record(d0)) && !Higher(v, d0.version);
      NotLower(v, d0.version, d.version);
    }
  }

  /** Firmware whose ids spell the name of the descriptor table is stored over the table: the first chunk
      becomes its first record. */
  lemma TableOverwritten(files: Files, limit: nat, d: Descriptor, chunk: seq<Byte>)
    requires d.manufacture + d.device == [
      0x66, 0x69, 0x72, 0x6D, 0x77, 0x61, 0x72, 0x65, 0x5F, 0x64, 0x65, 0x73, 0x63, 0x72, 0x69, 0x70,
      0x74, 0x6F, 0x72, 0x73]
    requires DESCRIPTOR_SIZE <= |chunk| <= limit
    ensures var e := WriteFile(files, limit, DataId(d), 0, chunk);
            e.code == OK && Lookup(Table(e.files), chunk[..20]) == Some(chunk[..42])
  {
    assert DataId(d) == DESCRIPTORS;
    var t := Table(files);
    var w := Written(t, 0, chunk);
    assert w[..42] == chunk[..42] && w[..20] == chunk[..20] by {
      assert w[0..|chunk|] == chunk;
    }
  }
}
