/** Any division of an update file into blocks leads the download handler through the same states.

    `At` describes the state after the first k bytes of the file: in the header, in the code with part of
    a chunk in the buffer, in the footer, or complete. One round of the chunk loop, one phase, one call
    and one transfer each keep that description. At the end stand the two limits of the handler: the
    number of chunks, and the block that ends with the header. */
module FirmwareReception {
  import opened Bytes
  import opened Versions
  import opened Firmware
  import opened FirmwareStore
  import opened FirmwareDownload
  import V = FirmwareVersions

  /** The parts of an update file. */
  datatype Upload = Upload(header: Header, code: seq<Byte>, footer: seq<Byte>)

  function FileBytes(u: Upload): seq<Byte>
    requires HeaderFits(u.header)
  {
    HeaderBytes(u.header) + u.code + u.footer
  }

  function Body(u: Upload): seq<Byte> {
    u.code + u.footer
  }

  /** A consistent upload that respects the limits of the device. */
  predicate Sound(dev: Device, u: Upload) {
    var h, d := u.header, u.header.descriptor;
    && HeaderFits(h) && h.codeOffset == HEADER_SIZE && h.codeLength == d.length == |u.code|
    && h.footerOffset == HEADER_SIZE + |u.code| && h.footerLength == |u.footer| >= FOOTER_META_SIZE
    && HEADER_SIZE + |u.code| + |u.footer| < MAX_UPDATE_SIZE
    && 0 < d.chunkSize <= dev.limit && |u.footer| <= dev.limit
    && ParseDescriptor(u.footer[1..43]) == d && FooterScan(u.footer) == Size(|u.footer|)
    && DataId(d) != DESCRIPTORS
  }

  /** The storage is ready for the upload: its version is higher than those it would replace, its descriptor
      can be stored, and a data file belongs to a stored descriptor. */
  ghost predicate Ready(dev: Device, u: Upload, files: Files) {
    var d := u.header.descriptor;
    && Fits(d) && V.Wanted(V.Table(files), dev.own, d) && Prepare(files, dev.limit, d).code == OK
    && (Lookup(Contents(files, DESCRIPTORS), Key(d)).None? ==> DataId(d) !in files)
  }

  /** Number of chunks of at most c bytes. */
  function Chunks(l: nat, c: nat): nat
    requires c > 0
  {
    if l == 0 then 0 else 1 + Chunks(if l > c then l - c else 0, c)
  }

  // ---------------------------------------------------------------- states

  /** The buffer never shrinks below its first size. */
  ghost predicate Roomy(st: State) {
    Typed(st) && |st.buff| >= HEADER_SIZE
  }

  ghost predicate InHeader(u: Upload, st: State, k: nat)
    requires HeaderFits(u.header)
  {
    && Roomy(st) && st.step == AtHeader && st.used == k < HEADER_SIZE && st.raw[..k] == HeaderBytes(u.header)[..k]
    && st.offset == 0 && st.count == 0
  }

  /** pos bytes of the code have been received; those of the current chunk are in the buffer. */
  ghost predicate InCode(dev: Device, u: Upload, st: State, files: Files, pos: nat)
    requires Sound(dev, u)
  {
    && Roomy(st) && st.step == AtChunks && st.header == u.header && st.offset + st.used == pos <= |u.code|
    && (st.used < ChunkLength(u.header, st.offset) || u.code == []) && |st.buff| >= u.header.descriptor.chunkSize
    && st.buff[..st.used] == u.code[st.offset..pos]
    && Contents(files, DataId(u.header.descriptor)) == u.code[..st.offset]
    && (u.code != [] ==> RoundsLeft(st) == Chunks(|u.code| - st.offset, u.header.descriptor.chunkSize))
  }

  ghost predicate InFooter(dev: Device, u: Upload, st: State, files: Files, pos: nat)
    requires Sound(dev, u)
  {
    && Roomy(st) && st.step == AtFooter && st.header == u.header && st.used == pos < |u.footer| <= |st.buff|
    && st.buff[..pos] == u.footer[..pos]
    && Contents(files, DataId(u.header.descriptor)) == u.code
  }

  ghost predicate Complete(dev: Device, u: Upload, st: State, files: Files)
    requires Sound(dev, u)
  {
    && Roomy(st) && st.step == Finished && st.header == u.header
    && Contents(files, DataId(u.header.descriptor)) == Body(u)
  }

  /** Where the handler is after the first k bytes of the file, whatever the blocks were. */
  ghost predicate At(dev: Device, u: Upload, st: State, files: Files, k: nat)
    requires Sound(dev, u)
  {
    if k < HEADER_SIZE then InHeader(u, st, k) && Ready(dev, u, files)
    else if k < HEADER_SIZE + |u.code| then InCode(dev, u, st, files, k - HEADER_SIZE)
    else if k < HEADER_SIZE + |Body(u)| then InFooter(dev, u, st, files, k - HEADER_SIZE - |u.code|)
    else k == HEADER_SIZE + |Body(u)| && Complete(dev, u, st, files)
  }

  // ---------------------------------------------------------------- slices

  lemma SliceSplit(b: seq<Byte>, i: nat, m: nat, j: nat)
    requires i <= m <= j <= |b|
    ensures b[i..j][..m - i] == b[i..m] && b[i..j][m - i..] == b[m..j] && b[i..m] + b[m..j] == b[i..j]
  {
  }

  lemma BodySlices(u: Upload, i: nat, j: nat)
    requires i <= j <= |Body(u)|
    ensures j <= |u.code| ==> Body(u)[i..j] == u.code[i..j]
    ensures |u.code| <= i ==> Body(u)[i..j] == u.footer[i - |u.code|..j - |u.code|]
  {
  }

  lemma FileSlices(u: Upload, i: nat, j: nat)
    requires HeaderFits(u.header) && i <= j <= HEADER_SIZE + |Body(u)|
    ensures |FileBytes(u)| == HEADER_SIZE + |Body(u)|
    ensures j <= HEADER_SIZE ==> FileBytes(u)[i..j] == HeaderBytes(u.header)[i..j]
    ensures HEADER_SIZE <= i ==> FileBytes(u)[i..j] == Body(u)[i - HEADER_SIZE..j - HEADER_SIZE]
  {
    hide HeaderBytes;
    assert FileBytes(u) == HeaderBytes(u.header) + Body(u);
  }

  lemma OverwritePrefix(b: seq<Byte>, at: nat, data: seq<Byte>)
    requires at + |data| <= |b|
    ensures Overwrite(b, at, data)[..at + |data|] == b[..at] + data
  {
  }

  lemma WrittenAtEnd(f: seq<Byte>, data: seq<Byte>)
    ensures Written(f, |f|, data) == f + data
  {
  }

  // ---------------------------------------------------------------- chunks

  lemma ChunksLeft(l: nat, c: nat)
    requires c > 0
    ensures l > 0 ==> Chunks(l, c) == 1 + Chunks(if l > c then l - c else 0, c)
    ensures Chunks(l, c) == 0 <==> l == 0
  {
  }

  /** The chunk in the buffer extends the stored code. */
  lemma WriteExtends(files: Files, limit: nat, id: seq<Byte>, code: seq<Byte>, offset: nat, n: nat)
    requires offset + n <= |code| && n <= limit && Contents(files, id) == code[..offset]
    ensures WriteFile(files, limit, id, offset, code[offset..offset + n]) == Effect(OK, files[id := code[..offset + n]])
  {
    WrittenAtEnd(code[..offset], code[offset..offset + n]);
    assert code[..offset] + code[offset..offset + n] == code[..offset + n];
    hide Written;
  }

  /** A chunk is complete in the buffer. */
  ghost predicate ChunkFull(dev: Device, u: Upload, st: State, files: Files, n: nat)
    requires Sound(dev, u)
  {
    && Roomy(st) && st.step == AtChunks && st.header == u.header && st.offset <= |u.code|
    && n == ChunkLength(u.header, st.offset) == st.used && |st.buff| >= u.header.descriptor.chunkSize
    && st.buff[..n] == u.code[st.offset..st.offset + n]
    && Contents(files, DataId(u.header.descriptor)) == u.code[..st.offset]
    && (u.code != [] ==> n > 0 && RoundsLeft(st) == Chunks(|u.code| - st.offset, u.header.descriptor.chunkSize))
  }

  lemma StoredChunk(dev: Device, u: Upload, st: State, files: Files, n: nat)
    requires Sound(dev, u) && ChunkFull(dev, u, st, files, n)
    ensures var count := (st.count + 1) % U16;
            var files' := files[DataId(u.header.descriptor) := u.code[..st.offset + n]];
            var st' := st.(used := 0, offset := st.offset + n, count := count);
            StoreChunk(dev, st, files, n)
            == if count == st.quantity then
                Continue(st'.(buff := Grown(st.buff, u.header.footerLength), step := AtFooter), files', [])
               else Continue(st', files', [])
  {
    WriteExtends(files, dev.limit, DataId(u.header.descriptor), u.code, st.offset, n);
    hide WriteFile, FooterScan, ParseDescriptor, RoundsLeft, Chunks, HeaderFits, DataId;
  }

  /** The last chunk is the one after which nothing is left. */
  lemma LastChunk(dev: Device, u: Upload, st: State, files: Files, n: nat)
    requires Sound(dev, u) && ChunkFull(dev, u, st, files, n)
    ensures st.offset + n <= |u.code|
    ensures u.code != [] ==>
      Chunks(|u.code| - st.offset - n, u.header.descriptor.chunkSize) == RoundsLeft(st) - 1
      && (RoundsLeft(st) == 1 <==> st.offset + n == |u.code|)
  {
    hide RoundsLeft, FooterScan, ParseDescriptor, HeaderFits, DataId;
    ChunksLeft(|u.code| - st.offset, u.header.descriptor.chunkSize);
    ChunksLeft(|u.code| - st.offset - n, u.header.descriptor.chunkSize);
    hide Chunks;
  }

  /** A round that completes its chunk: stored, and either the next chunk or the footer begins. */
  lemma StoreKeeps(dev: Device, u: Upload, st: State, files: Files, n: nat)
    requires Sound(dev, u) && ChunkFull(dev, u, st, files, n)
    ensures var p := StoreChunk(dev, st, files, n);
            && p.Continue? && st.offset + n <= |u.code|
            && (if RoundsLeft(st) > 1 then p.st.step == AtChunks && InCode(dev, u, p.st, p.files, st.offset + n)
                else p.st.step == AtFooter && st.offset + n == |u.code| && InFooter(dev, u, p.st, p.files, 0))
  {
    var count := (st.count + 1) % U16;
    hide *;
    StoredChunk(dev, u, st, files, n);
    LastChunk(dev, u, st, files, n);
    FullTyped(dev, u, st, files, n);
    CounterRuns(st, count);
    if RoundsLeft(st) > 1 {
      NextInCode(dev, u, st, files, n);
    } else {
      NextInFooter(dev, u, st, files, n);
    }
  }

  lemma FullTyped(dev: Device, u: Upload, st: State, files: Files, n: nat)
    requires Sound(dev, u) && ChunkFull(dev, u, st, files, n)
    ensures Typed(st) && st.offset + n <= |u.code| && n <= |st.buff| && st.step == AtChunks
    ensures u.code == [] ==> st.offset + n == |u.code|
  {
    hide RoundsLeft, Chunks, FooterScan, ParseDescriptor, HeaderFits, DataId;
  }

  lemma Stored(files: Files, id: seq<Byte>, data: seq<Byte>)
    ensures Contents(files[id := data], id) == data
  {
  }

  /** The next chunk begins. */
  lemma NextInCode(dev: Device, u: Upload, st: State, files: Files, n: nat)
    requires Sound(dev, u) && ChunkFull(dev, u, st, files, n) && st.offset + n <= |u.code| && RoundsLeft(st) > 1
    requires u.code != [] ==> Chunks(|u.code| - st.offset - n, u.header.descriptor.chunkSize) == RoundsLeft(st) - 1
    requires u.code != [] ==> st.offset + n != |u.code|
    ensures InCode(dev, u, st.(used := 0, offset := st.offset + n, count := (st.count + 1) % U16),
                   files[DataId(u.header.descriptor) := u.code[..st.offset + n]], st.offset + n)
  {
    var st' := st.(used := 0, offset := st.offset + n, count := (st.count + 1) % U16);
    CounterRuns(st, (st.count + 1) % U16);
    RoundsOf(st', st.(count := st'.count));
    Stored(files, DataId(u.header.descriptor), u.code[..st.offset + n]);
    hide RoundsLeft, Chunks, FooterScan, ParseDescriptor, HeaderFits, DataId, Contents;
    assert st.buff[..0] == u.code[st.offset + n..st.offset + n] == [];
  }

  lemma RoundsOf(a: State, b: State)
    requires a.quantity == b.quantity && a.count == b.count
    ensures RoundsLeft(a) == RoundsLeft(b)
  {
  }

  /** The footer begins. */
  lemma NextInFooter(dev: Device, u: Upload, st: State, files: Files, n: nat)
    requires Sound(dev, u) && ChunkFull(dev, u, st, files, n) && st.offset + n == |u.code|
    ensures InFooter(dev, u, st.(used := 0, offset := st.offset + n, count := (st.count + 1) % U16,
                                 buff := Grown(st.buff, u.header.footerLength), step := AtFooter),
                     files[DataId(u.header.descriptor) := u.code[..st.offset + n]], 0)
  {
    Stored(files, DataId(u.header.descriptor), u.code[..st.offset + n]);
    hide RoundsLeft, Chunks, FooterScan, ParseDescriptor, HeaderFits, DataId, Contents;
    assert u.code[..|u.code|] == u.code;
  }

  /** Part of a chunk arrives. */
  ghost function Received(st: State, data: seq<Byte>): State
    requires st.used + |data| <= |st.buff|
  {
    st.(buff := Overwrite(st.buff, st.used, data), used := st.used + |data|)
  }

  /** The buffer then holds the chunk so far. */
  lemma ReceivedSlice(dev: Device, u: Upload, st: State, files: Files, pos: nat, size: nat)
    requires Sound(dev, u) && InCode(dev, u, st, files, pos)
    requires st.used + size <= ChunkLength(u.header, st.offset)
    ensures st.used + size <= |st.buff| && pos + size <= |u.code|
    ensures var st1 := Received(st, u.code[pos..pos + size]);
            && st1.buff[..st1.used] == u.code[st.offset..pos + size] && |st1.buff| == |st.buff|
            && RoundsLeft(st1) == RoundsLeft(st) && st1 == st.(buff := st1.buff, used := st.used + size)
  {
    InCodeBounds(dev, u, st, files, pos);
    BufferedCode(dev, u, st, files, pos);
    hide *;
    ReceivedParts(st, u.code[pos..pos + size]);
    OverwritePrefix(st.buff, st.used, u.code[pos..pos + size]);
    SliceSplit(u.code, st.offset, pos, pos + size);
    SameRounds(st, u.code[pos..pos + size]);
  }

  lemma ReceivedParts(st: State, data: seq<Byte>)
    requires st.used + |data| <= |st.buff|
    ensures var st1 := Received(st, data);
            && st1.buff == Overwrite(st.buff, st.used, data) && |st1.buff| == |st.buff| && st1.used == st.used + |data|
            && st1 == st.(buff := st1.buff, used := st.used + |data|)
  {
    hide Overwrite;
  }

  lemma BufferedCode(dev: Device, u: Upload, st: State, files: Files, pos: nat)
    requires Sound(dev, u) && InCode(dev, u, st, files, pos)
    ensures st.used <= |st.buff| && st.offset <= pos <= |u.code| && st.buff[..st.used] == u.code[st.offset..pos]
  {
    hide RoundsLeft, Chunks, FooterScan, ParseDescriptor, HeaderFits, DataId, Contents;
  }

  lemma ReceivedKeeps(dev: Device, u: Upload, st: State, files: Files, pos: nat, size: nat)
    requires Sound(dev, u) && InCode(dev, u, st, files, pos)
    requires st.used + size <= ChunkLength(u.header, st.offset)
    ensures st.used + size <= |st.buff| && pos + size <= |u.code|
    ensures var st1 := Received(st, u.code[pos..pos + size]);
            if st1.used == ChunkLength(u.header, st.offset) then ChunkFull(dev, u, st1, files, st1.used)
            else InCode(dev, u, st1, files, pos + size)
  {
    hide RoundsLeft, Chunks, FooterScan, ParseDescriptor, HeaderFits, DataId, Contents, Received;
    ReceivedSlice(dev, u, st, files, pos, size);
  }

  lemma SameRounds(st: State, data: seq<Byte>)
    requires st.used + |data| <= |st.buff|
    ensures RoundsLeft(Received(st, data)) == RoundsLeft(st)
  {
    hide Overwrite;
  }

  /** How much of the rest belongs to the current chunk. */
  ghost function Taken(u: Upload, st: State, rest: seq<Byte>): nat
    requires st.offset <= u.header.codeLength && st.used <= ChunkLength(u.header, st.offset)
  {
    var length := ChunkLength(u.header, st.offset);
    if st.used + |rest| > length then length - st.used else |rest|
  }

  lemma RoundIs(dev: Device, u: Upload, st: State, files: Files, pos: nat, rest: seq<Byte>)
    requires Roomy(st) && st.header == u.header && st.offset <= u.header.codeLength
    requires st.used <= ChunkLength(u.header, st.offset) <= |st.buff|
    ensures var size := Taken(u, st, rest);
            var st1 := Received(st, rest[..size]);
            var full := st1.used == ChunkLength(u.header, st.offset);
            var p := ChunkRound(dev, st, files, rest);
            if !full then p == Continue(st1, files, rest[size..])
            else
              var q := StoreChunk(dev, st1, files, st1.used);
              q.Continue? ==> p == Continue(q.st, q.files, rest[size..])
  {
    hide Overwrite, StoreChunk, RoundsLeft, ChunkLength;
  }

  /** The step, position and files after a round. */
  ghost predicate RoundDone(dev: Device, u: Upload, p: Phase, end: nat)
    requires Sound(dev, u)
  {
    && p.Continue? && |p.rest| <= end <= |Body(u)| && p.rest == Body(u)[end - |p.rest|..end]
    && var pos := end - |p.rest|;
       if p.st.step == AtChunks then pos <= |u.code| && InCode(dev, u, p.st, p.files, pos)
       else p.st.step == AtFooter && pos == |u.code| && InFooter(dev, u, p.st, p.files, 0)
  }

  /** One round of the chunk loop on the next bytes of the body. */
  lemma RoundKeeps(dev: Device, u: Upload, st: State, files: Files, pos: nat, rest: seq<Byte>)
    requires Sound(dev, u) && InCode(dev, u, st, files, pos)
    requires pos + |rest| <= |Body(u)| && rest == Body(u)[pos..pos + |rest|] && rest != []
    ensures RoundDone(dev, u, ChunkRound(dev, st, files, rest), pos + |rest|)
  {
    hide *;
    InCodeBounds(dev, u, st, files, pos);
    var size := Taken(u, st, rest);
    TakenBounds(u, st, rest);
    SliceSplit(Body(u), pos, pos + size, pos + |rest|);
    BodySlices(u, pos, pos + size);
    ReceivedKeeps(dev, u, st, files, pos, size);
    RoundIs(dev, u, st, files, pos, rest);
    var st1 := Received(st, rest[..size]);
    ReceivedIs(st, rest[..size]);
    var p := ChunkRound(dev, st, files, rest);
    if st1.used == ChunkLength(u.header, st.offset) {
      StoreKeeps(dev, u, st1, files, st1.used);
      DoneRound(dev, u, p, pos + size, pos + |rest|);
    } else {
      InCodeBounds(dev, u, st1, files, pos + size);
      DoneRound(dev, u, p, pos + size, pos + |rest|);
    }
  }

  lemma DoneRound(dev: Device, u: Upload, p: Phase, pos: nat, end: nat)
    requires Sound(dev, u) && p.Continue? && pos <= end <= |Body(u)| && p.rest == Body(u)[pos..end]
    requires if p.st.step == AtChunks then pos <= |u.code| && InCode(dev, u, p.st, p.files, pos)
             else p.st.step == AtFooter && pos == |u.code| && InFooter(dev, u, p.st, p.files, 0)
    ensures RoundDone(dev, u, p, end)
  {
    hide Sound, InCode, InFooter, Body;
  }

  lemma TakenBounds(u: Upload, st: State, rest: seq<Byte>)
    requires st.offset <= u.header.codeLength && st.used <= ChunkLength(u.header, st.offset)
    ensures Taken(u, st, rest) <= |rest| && st.used + Taken(u, st, rest) <= ChunkLength(u.header, st.offset)
  {
    hide ChunkLength;
  }

  lemma ReceivedIs(st: State, data: seq<Byte>)
    requires st.used + |data| <= |st.buff|
    ensures Received(st, data).used == st.used + |data| && Received(st, data).offset == st.offset
    ensures Received(st, data).step == st.step
  {
    hide Overwrite;
  }

  lemma InCodeBounds(dev: Device, u: Upload, st: State, files: Files, pos: nat)
    requires Sound(dev, u) && InCode(dev, u, st, files, pos)
    ensures Typed(st)
    ensures Roomy(st) && st.step == AtChunks && st.header == u.header && st.offset + st.used == pos <= |u.code|
    ensures u.header.codeLength == |u.code| && st.used <= ChunkLength(u.header, st.offset) <= |u.code| - st.offset
    ensures ChunkLength(u.header, st.offset) <= |st.buff|
  {
    hide RoundsLeft, Chunks, FooterScan, ParseDescriptor, HeaderFits, DataId;
  }

  /** The end of the chunk loop: the block is used up, or the footer begins. */
  ghost predicate PhaseDone(dev: Device, u: Upload, p: Phase, end: nat)
    requires Sound(dev, u)
  {
    RoundDone(dev, u, p, end) && (p.st.step == AtChunks ==> p.rest == [])
  }

  lemma {:induction false} PhaseKeeps(dev: Device, u: Upload, st: State, files: Files, pos: nat, rest: seq<Byte>)
    requires Sound(dev, u) && InCode(dev, u, st, files, pos) && Typed(st)
    requires pos + |rest| <= |Body(u)| && rest == Body(u)[pos..pos + |rest|]
    ensures PhaseDone(dev, u, ChunkPhase(dev, st, files, rest), pos + |rest|)
    decreases |rest|, RoundsLeft(st)
  {
    hide *;
    InCodeBounds(dev, u, st, files, pos);
    if rest == [] {
      PhaseIs(dev, st, files, rest);
      DoneRound(dev, u, ChunkPhase(dev, st, files, rest), pos, pos);
      DonePhase(dev, u, ChunkPhase(dev, st, files, rest), pos);
    } else {
      RoundKeeps(dev, u, st, files, pos, rest);
      var p := ChunkRound(dev, st, files, rest);
      RoundParts(dev, u, p, pos + |rest|);
      PhaseIs(dev, st, files, rest);
      if p.st.step == AtChunks {
        InCodeBounds(dev, u, p.st, p.files, pos + |rest| - |p.rest|);
        PhaseKeeps(dev, u, p.st, p.files, pos + |rest| - |p.rest|, p.rest);
      } else {
        DonePhase(dev, u, p, pos + |rest|);
      }
    }
  }

  lemma DonePhase(dev: Device, u: Upload, p: Phase, end: nat)
    requires Sound(dev, u) && RoundDone(dev, u, p, end) && (p.st.step == AtChunks ==> p.rest == [])
    ensures PhaseDone(dev, u, p, end)
  {
    hide Sound, RoundDone;
  }

  lemma RoundParts(dev: Device, u: Upload, p: Phase, end: nat)
    requires Sound(dev, u) && RoundDone(dev, u, p, end)
    ensures p.Continue? && |p.rest| <= end <= |Body(u)| && p.rest == Body(u)[end - |p.rest|..end]
    ensures var pos := end - |p.rest|;
            if p.st.step == AtChunks then pos <= |u.code| && InCode(dev, u, p.st, p.files, pos)
            else p.st.step == AtFooter && pos == |u.code| && InFooter(dev, u, p.st, p.files, 0)
  {
    hide Sound, InCode, InFooter, Body;
  }

  /** The chunk loop, one round unfolded. */
  lemma PhaseIs(dev: Device, st: State, files: Files, rest: seq<Byte>)
    requires Typed(st)
    ensures rest == [] || st.step != AtChunks ==> ChunkPhase(dev, st, files, rest) == Continue(st, files, rest)
    ensures rest != [] && st.step == AtChunks && ChunkRound(dev, st, files, rest).Continue? ==>
              var p := ChunkRound(dev, st, files, rest);
              && (p.st.step == AtChunks ==> ChunkPhase(dev, st, files, rest) == ChunkPhase(dev, p.st, p.files, p.rest))
              && (p.st.step != AtChunks ==> ChunkPhase(dev, st, files, rest) == p)
  {
    hide ChunkRound, RoundsLeft;
  }

  // ---------------------------------------------------------------- footer

  /** A scan that ends inside a prefix does not look further. */
  lemma {:induction false} ScanPrefix(a: seq<Byte>, b: seq<Byte>, count: nat, pos: nat)
    requires ScanSignatures(a, count, pos).Size? && ScanSignatures(a, count, pos).size <= |a|
    ensures ScanSignatures(a + b, count, pos) == ScanSignatures(a, count, pos)
    decreases count
  {
    if count > 0 {
      assert (a + b)[pos + 1] == a[pos + 1];
      ScanPrefix(a, b, count - 1, pos + SIGNATURE_META_SIZE + SignatureLen(a[pos + 1]) + PubkeyLen(a[pos + 1]));
    }
  }

  /** The complete footer in a buffer that may be longer: it is accepted and stored. */
  lemma FooterAccepted(dev: Device, u: Upload, files: Files, buff: seq<Byte>)
    requires Sound(dev, u) && |u.footer| <= |buff| && buff[..|u.footer|] == u.footer
    requires Contents(files, DataId(u.header.descriptor)) == u.code
    ensures ParseDescriptor(buff[1..43]) == u.header.descriptor
    ensures FooterScan(buff) == Size(|u.footer|)
    ensures SaveFooterEffect(files, dev.limit, u.header.descriptor, buff)
            == Effect(OK, files[DataId(u.header.descriptor) := Body(u)])
  {
    var tail := buff[|u.footer|..];
    assert buff == u.footer + tail;
    assert buff[1..43] == u.footer[1..43] && buff[0] == u.footer[0];
    hide ParseDescriptor, HeaderFits, DataId, Written, ScanSignatures;
    ScanPrefix(u.footer, tail, u.footer[0], FOOTER_META_SIZE);
    WrittenAtEnd(u.code, u.footer);
  }

  lemma FooterIs(dev: Device, u: Upload, st: State, files: Files, rest: seq<Byte>, blockSize: nat)
    requires Sound(dev, u) && Typed(st) && st.header == u.header && st.used + |rest| <= |u.footer| <= |st.buff|
    requires st.used + |rest| == |u.footer| ==>
      var b := Overwrite(st.buff, st.used, rest);
      && ParseDescriptor(b[1..43]) == u.header.descriptor && FooterScan(b) == Size(|u.footer|)
      && SaveFooterEffect(files, dev.limit, u.header.descriptor, b).code == OK
    ensures var b := Overwrite(st.buff, st.used, rest);
            FooterPhase(dev, st, files, rest, blockSize)
            == if st.used + |rest| < |u.footer| then Return(st.(buff := b, used := st.used + |rest|), files, blockSize)
               else Return(st.(buff := b, used := 0, step := Finished),
                           SaveFooterEffect(files, dev.limit, u.header.descriptor, b).files, blockSize)
  {
    hide ParseDescriptor, FooterScan, SaveFooterEffect, HeaderFits, DataId, Overwrite;
  }

  lemma InFooterParts(dev: Device, u: Upload, st: State, files: Files, pos: nat)
    requires Sound(dev, u) && InFooter(dev, u, st, files, pos)
    ensures Roomy(st) && st.step == AtFooter && st.header == u.header && st.used == pos < |u.footer| <= |st.buff|
    ensures Typed(st)
    ensures st.buff[..pos] == u.footer[..pos] && Contents(files, DataId(u.header.descriptor)) == u.code
  {
    hide ParseDescriptor, FooterScan, HeaderFits, DataId, Contents;
  }

  lemma MoreFooter(dev: Device, u: Upload, st: State, files: Files, pos: nat, b: seq<Byte>, end: nat)
    requires Sound(dev, u) && InFooter(dev, u, st, files, pos) && pos <= end < |u.footer|
    requires |b| == |st.buff| && b[..end] == u.footer[..end]
    ensures InFooter(dev, u, st.(buff := b, used := end), files, end)
  {
    hide ParseDescriptor, FooterScan, HeaderFits, DataId, Contents;
  }

  lemma WholeFooter(dev: Device, u: Upload, st: State, files: Files, b: seq<Byte>)
    requires Sound(dev, u) && Roomy(st) && st.header == u.header && |b| == |st.buff|
    ensures Complete(dev, u, st.(buff := b, used := 0, step := Finished), files[DataId(u.header.descriptor) := Body(u)])
  {
    Stored(files, DataId(u.header.descriptor), Body(u));
    hide ParseDescriptor, FooterScan, HeaderFits, DataId, Contents, Sound;
  }

  lemma FooterKeeps(dev: Device, u: Upload, st: State, files: Files, pos: nat, rest: seq<Byte>, blockSize: nat)
    requires Sound(dev, u) && InFooter(dev, u, st, files, pos)
    requires pos + |rest| <= |u.footer| && rest == u.footer[pos..pos + |rest|]
    ensures var o := FooterPhase(dev, st, files, rest, blockSize);
            && o.Return? && o.ret == blockSize
            && if pos + |rest| < |u.footer| then InFooter(dev, u, o.st, o.files, pos + |rest|)
               else Complete(dev, u, o.st, o.files)
  {
    hide *;
    InFooterParts(dev, u, st, files, pos);
    var end, b := pos + |rest|, Overwrite(st.buff, pos, rest);
    OverwritePrefix(st.buff, pos, rest);
    SliceSplit(u.footer, 0, pos, end);
    assert u.footer[0..end] == u.footer[..end] && u.footer[0..pos] == u.footer[..pos];
    if end < |u.footer| {
      MoreFooter(dev, u, st, files, pos, b, end);
    } else {
      assert u.footer[..end] == u.footer;
      FooterAccepted(dev, u, files, b);
      WholeFooter(dev, u, st, files, b);
    }
    FooterIs(dev, u, st, files, rest, blockSize);
  }

  // ---------------------------------------------------------------- header

  /** Storing the descriptor of a new firmware leaves no old image behind. */
  lemma PreparedEmpty(dev: Device, u: Upload, files: Files)
    requires Sound(dev, u) && Ready(dev, u, files)
    ensures Contents(Prepare(files, dev.limit, u.header.descriptor).files, DataId(u.header.descriptor)) == []
  {
    hide Lookup, Upsert, Remove, Written, Record, ParseDescriptor, FooterScan, HeaderFits, V.Wanted, DataId;
  }

  lemma {:induction false} ChunksIsQuotient(l: nat, c: nat)
    requires c > 0
    ensures Chunks(l, c) == l / c + if l % c == 0 then 0 else 1
    decreases l
  {
    if l > c {
      ChunksIsQuotient(l - c, c);
      Less(l, c);
    } else if l == c {
      assert l / c == 1 && l % c == 0;
    }
  }

  lemma Less(l: nat, c: nat)
    requires l >= c > 0
    ensures l / c == (l - c) / c + 1 && l % c == (l - c) % c
  {
    assert l - c == c * ((l - c) / c) + (l - c) % c;
    assert l == c * ((l - c) / c + 1) + (l - c) % c by {
      assert c * ((l - c) / c + 1) == c * ((l - c) / c) + c;
    }
    Remainder(l, c, (l - c) / c + 1, (l - c) % c);
  }

  /** The 16-bit quantity is the number of chunks exactly when there are at most 2^16. */
  lemma QuantityIsChunks(h: Header)
    requires h.descriptor.chunkSize > 0
    ensures Quantity(h) == Chunks(h.codeLength, h.descriptor.chunkSize) % U16
  {
    ChunksIsQuotient(h.codeLength, h.descriptor.chunkSize);
    hide Chunks;
    WrapAdd(h.codeLength / h.descriptor.chunkSize);
  }

  lemma WrapAdd(q: nat)
    ensures (q % U16 + 1) % U16 == (q + 1) % U16
  {
  }

  lemma FirstRounds(st: State, n: nat)
    requires st.count == 0 && st.quantity == n % U16 && 0 < n
    ensures RoundsLeft(st) == n <==> n <= U16
  {
  }

  lemma SoundHeader(dev: Device, u: Upload)
    requires Sound(dev, u)
    ensures HeaderFits(u.header) && Fits(u.header.descriptor) && CheckHeader(u.header)
            && u.header.descriptor.chunkSize > 0
    ensures u.header.codeLength == |u.code| && u.header.footerLength == |u.footer|
  {
    hide FooterScan, ParseDescriptor, DataId;
  }

  lemma SoundId(dev: Device, u: Upload)
    requires Sound(dev, u)
    ensures DataId(u.header.descriptor) != DESCRIPTORS
  {
    hide FooterScan, ParseDescriptor, DataId, HeaderFits;
  }

  lemma ReadyParts(dev: Device, u: Upload, files: Files)
    requires Sound(dev, u) && Ready(dev, u, files)
    ensures Fits(u.header.descriptor) && IsNew(files, dev.own, u.header.descriptor)
    ensures Prepare(files, dev.limit, u.header.descriptor).code == OK
  {
    V.WantedIsNew(files, dev.own, u.header.descriptor);
    hide FooterScan, ParseDescriptor, DataId, IsNew, V.Wanted, Prepare, Lookup;
  }

  lemma AcceptsHeader(dev: Device, u: Upload, st: State, files: Files)
    requires Sound(dev, u) && Ready(dev, u, files) && Typed(st)
    requires HeaderFits(u.header) && st.raw == HeaderBytes(u.header) && u.header.descriptor.chunkSize > 0
    ensures var d := u.header.descriptor;
            AcceptHeader(dev, st, files)
            == Continue(st.(header := u.header, stored := true, quantity := Quantity(u.header),
                            buff := Grown(st.buff, d.chunkSize), step := AtChunks),
                        Prepare(files, dev.limit, d).files, [])
  {
    hide Sound, Ready, HeaderFits, HeaderBytes, ParseHeader, CheckHeader, Quantity, Prepare, IsNew, Grown;
    HeaderRoundTrip(u.header);
    SoundHeader(dev, u);
    ReadyParts(dev, u, files);
  }

  /** A fresh state in front of the first chunk. */
  lemma FreshInCode(dev: Device, u: Upload, st: State, files: Files)
    requires Sound(dev, u) && Roomy(st) && st.step == AtChunks && st.header == u.header
    requires st.offset == 0 && st.used == 0 && st.count == 0 && st.quantity == Quantity(u.header)
    requires |st.buff| >= u.header.descriptor.chunkSize && Contents(files, DataId(u.header.descriptor)) == []
    requires Chunks(|u.code|, u.header.descriptor.chunkSize) <= U16
    ensures InCode(dev, u, st, files, 0)
  {
    var c := u.header.descriptor.chunkSize;
    QuantityIsChunks(u.header);
    ChunksLeft(|u.code|, c);
    if u.code != [] {
      FirstRounds(st, Chunks(|u.code|, c));
    }
    hide Quantity, Chunks, FooterScan, ParseDescriptor, HeaderFits, DataId, Contents, RoundsLeft;
    assert u.code[..0] == [] && u.code[0..0] == [] && st.buff[..0] == [];
  }

  /** The first chunk is about to begin. */
  lemma FreshCode(dev: Device, u: Upload, st: State, files: Files)
    requires Sound(dev, u) && Roomy(st) && Ready(dev, u, files) && HeaderFits(u.header)
    requires st.raw == HeaderBytes(u.header) && st.offset == 0 && st.count == 0 && st.step == AtHeader
    requires Chunks(|u.code|, u.header.descriptor.chunkSize) <= U16
    ensures var p := AcceptHeader(dev, st, files);
            && p.Continue? && p.st.used == st.used && InCode(dev, u, p.st.(used := 0), p.files, 0)
  {
    SoundHeader(dev, u);
    AcceptsHeader(dev, u, st, files);
    PreparedEmpty(dev, u, files);
    hide Sound, Ready, AcceptHeader, Quantity, Chunks, HeaderFits, DataId, Contents, HeaderBytes, InCode;
    var p := AcceptHeader(dev, st, files);
    FreshInCode(dev, u, p.st.(used := 0), p.files);
  }

  /** A block inside the header, or one that goes past it. */
  lemma HeaderKeeps(dev: Device, u: Upload, st: State, files: Files, k: nat, block: seq<Byte>)
    requires Sound(dev, u) && InHeader(u, st, k) && Ready(dev, u, files)
    requires Chunks(|u.code|, u.header.descriptor.chunkSize) <= U16
    requires k + |block| <= HEADER_SIZE + |Body(u)| && block == FileBytes(u)[k..k + |block|]
    requires k + |block| != HEADER_SIZE
    ensures var p := HeaderPhase(dev, st, files, block);
            if k + |block| < HEADER_SIZE then
              p.Stop? && p.out.Return? && p.out.ret == |block| && p.out.files == files
                  && InHeader(u, p.out.st, k + |block|)
            else
              && p.Continue? && InCode(dev, u, p.st, p.files, 0)
              && p.rest == Body(u)[..k + |block| - HEADER_SIZE] && p.rest != []
  {
    var size := if k + |block| > HEADER_SIZE then HEADER_SIZE - k else |block|;
    hide Sound, Ready, InCode, AcceptHeader, HeaderBytes, HeaderFits, Overwrite, Body, FileBytes, Chunks;
    SoundHeader(dev, u);
    HeaderPrefix(u, st, k, block, size);
    if size < |block| {
      FreshCode(dev, u, st.(raw := Overwrite(st.raw, k, block[..size]), used := k + size), files);
    }
  }

  lemma HeaderPrefix(u: Upload, st: State, k: nat, block: seq<Byte>, size: nat)
    requires HeaderFits(u.header) && InHeader(u, st, k) && size <= |block| && k + size <= HEADER_SIZE
    requires k + |block| <= HEADER_SIZE + |Body(u)| && block == FileBytes(u)[k..k + |block|]
    ensures Overwrite(st.raw, k, block[..size])[..k + size] == HeaderBytes(u.header)[..k + size]
    ensures k + size == HEADER_SIZE ==> Overwrite(st.raw, k, block[..size]) == HeaderBytes(u.header)
    ensures k + size == HEADER_SIZE ==> block[size..] == Body(u)[..k + |block| - HEADER_SIZE]
  {
    hide HeaderBytes;
    FileSlices(u, k, k + |block|);
    FileSlices(u, k, k + size);
    SliceSplit(FileBytes(u), k, k + size, k + |block|);
    OverwritePrefix(st.raw, k, block[..size]);
    SliceSplit(HeaderBytes(u.header), 0, k, k + size);
    assert HeaderBytes(u.header)[0..k] == HeaderBytes(u.header)[..k];
    assert HeaderBytes(u.header)[0..k + size] == HeaderBytes(u.header)[..k + size];
    if k + size == HEADER_SIZE {
      var r := Overwrite(st.raw, k, block[..size]);
      assert r[..HEADER_SIZE] == r && HeaderBytes(u.header)[..HEADER_SIZE] == HeaderBytes(u.header);
      FileSlices(u, HEADER_SIZE, k + |block|);
    }
  }

  // ---------------------------------------------------------------- any division into blocks

  lemma AtParts(dev: Device, u: Upload, st: State, files: Files, k: nat)
    requires Sound(dev, u) && At(dev, u, st, files, k)
    ensures Typed(st) && k <= HEADER_SIZE + |Body(u)| && |Body(u)| == |u.code| + |u.footer|
    ensures HeaderFits(u.header) && |FileBytes(u)| == HEADER_SIZE + |Body(u)|
    ensures st.step == AtHeader <==> k < HEADER_SIZE
    ensures st.step == AtChunks <==> HEADER_SIZE <= k < HEADER_SIZE + |u.code|
    ensures st.step == AtFooter <==> HEADER_SIZE + |u.code| <= k < HEADER_SIZE + |Body(u)|
    ensures st.step == Finished <==> k == HEADER_SIZE + |Body(u)|
  {
    FileSlices(u, 0, 0);
    hide FooterScan, ParseDescriptor, HeaderFits, DataId, Contents, RoundsLeft, Chunks, Ready, HeaderBytes;
  }

  lemma AtHeaderIs(dev: Device, u: Upload, st: State, files: Files, k: nat)
    requires Sound(dev, u) && k < HEADER_SIZE
    ensures At(dev, u, st, files, k) <==> HeaderFits(u.header) && InHeader(u, st, k) && Ready(dev, u, files)
  {
    hide HeaderBytes, FooterScan, ParseDescriptor, Ready, InHeader;
  }

  lemma AtCodeIs(dev: Device, u: Upload, st: State, files: Files, pos: nat)
    requires Sound(dev, u) && pos < |u.code|
    ensures At(dev, u, st, files, HEADER_SIZE + pos) <==> InCode(dev, u, st, files, pos)
  {
    hide Sound, InCode;
  }

  lemma AtFooterIs(dev: Device, u: Upload, st: State, files: Files, pos: nat)
    requires Sound(dev, u) && pos < |u.footer|
    ensures At(dev, u, st, files, HEADER_SIZE + |u.code| + pos) <==> InFooter(dev, u, st, files, pos)
  {
    hide Sound, InFooter;
  }

  lemma AtEndIs(dev: Device, u: Upload, st: State, files: Files)
    requires Sound(dev, u)
    ensures At(dev, u, st, files, HEADER_SIZE + |Body(u)|) <==> Complete(dev, u, st, files)
  {
    hide Sound, Complete;
  }

  /** Chunks and footer: the rest of a block whose first pos bytes of the body are behind us. */
  lemma BodyKeeps(dev: Device, u: Upload, st: State, files: Files, pos: nat, rest: seq<Byte>, blockSize: nat)
    requires Sound(dev, u) && InCode(dev, u, st, files, pos) && Typed(st)
    requires pos + |rest| <= |Body(u)| && rest == Body(u)[pos..pos + |rest|] && (rest != [] || pos < |u.code|)
    ensures var q := ChunkPhase(dev, st, files, rest);
            && q.Continue?
            && if q.rest == [] then At(dev, u, q.st, q.files, HEADER_SIZE + pos + |rest|)
               else
                 var o := FooterPhase(dev, q.st, q.files, q.rest, blockSize);
                 o.Return? && o.ret == blockSize && At(dev, u, o.st, o.files, HEADER_SIZE + pos + |rest|)
  {
    hide *;
    PhaseKeeps(dev, u, st, files, pos, rest);
    var q, end := ChunkPhase(dev, st, files, rest), pos + |rest|;
    PhaseParts(dev, u, q, end);
    RoundParts(dev, u, q, end);
    if q.st.step == AtChunks {
      StillInCode(dev, u, q.st, q.files, end);
      if rest == [] {
        PhaseIs(dev, st, files, rest);
      }
    } else {
      InFooterParts(dev, u, q.st, q.files, 0);
      RestIsFooter(u, q.rest, end);
      FooterBegins(dev, u, q.st, q.files, q.rest, blockSize);
    }
  }

  lemma RestIsFooter(u: Upload, rest: seq<Byte>, end: nat)
    requires |u.code| + |rest| == end <= |Body(u)| && rest == Body(u)[|u.code|..end]
    ensures |rest| <= |u.footer| && rest == u.footer[0..|rest|]
  {
    BodySlices(u, |u.code|, end);
  }

  /** In the chunk loop the position is inside the code, unless the code is empty. */
  lemma StillInCode(dev: Device, u: Upload, st: State, files: Files, end: nat)
    requires Sound(dev, u) && InCode(dev, u, st, files, end)
    ensures end < |u.code| ==> At(dev, u, st, files, HEADER_SIZE + end)
    ensures end == |u.code| ==> u.code == []
    ensures end <= |u.code|
  {
    InCodeBounds(dev, u, st, files, end);
    CodeNotFull(dev, u, st, files, end);
    if end < |u.code| {
      AtCodeIs(dev, u, st, files, end);
    }
    hide *;
  }

  /** What is left of a block when the footer begins. */
  lemma FooterBegins(dev: Device, u: Upload, st: State, files: Files, rest: seq<Byte>, blockSize: nat)
    requires Sound(dev, u) && InFooter(dev, u, st, files, 0) && |rest| <= |u.footer| && rest == u.footer[0..|rest|]
    requires Typed(st)
    ensures rest == [] ==> At(dev, u, st, files, HEADER_SIZE + |u.code|)
    ensures var o := FooterPhase(dev, st, files, rest, blockSize);
            o.Return? && o.ret == blockSize && At(dev, u, o.st, o.files, HEADER_SIZE + |u.code| + |rest|)
  {
    hide Sound, InFooter, Complete, At, FooterPhase, Body;
    BodyLength(dev, u);
    if rest == [] {
      AtFooterIs(dev, u, st, files, 0);
    }
    FooterKeeps(dev, u, st, files, 0, rest, blockSize);
    var o := FooterPhase(dev, st, files, rest, blockSize);
    if |rest| < |u.footer| {
      AtFooterIs(dev, u, o.st, o.files, |rest|);
    } else {
      AtEndIs(dev, u, o.st, o.files);
    }
  }

  lemma BodyLength(dev: Device, u: Upload)
    requires Sound(dev, u)
    ensures |Body(u)| == |u.code| + |u.footer| && |u.footer| > 0
  {
    hide FooterScan, ParseDescriptor, HeaderFits, DataId;
  }

  lemma PhaseParts(dev: Device, u: Upload, p: Phase, end: nat)
    requires Sound(dev, u) && PhaseDone(dev, u, p, end)
    ensures RoundDone(dev, u, p, end) && (p.Continue? && p.st.step == AtChunks ==> p.rest == [])
  {
    hide Sound, RoundDone;
  }

  /** Between chunks the code is never complete, unless it is empty. */
  lemma CodeNotFull(dev: Device, u: Upload, st: State, files: Files, pos: nat)
    requires Sound(dev, u) && InCode(dev, u, st, files, pos)
    ensures pos == |u.code| ==> u.code == []
  {
    hide FooterScan, ParseDescriptor, HeaderFits, DataId, RoundsLeft, Chunks, Contents;
  }

  /** The block does not end exactly on the last byte of the header. */
  predicate Clear(k: nat, n: nat) {
    k < HEADER_SIZE ==> k + n != HEADER_SIZE
  }

  /** What the fall-through into the chunk and footer phases returns. */
  ghost predicate FallsInto(dev: Device, st: State, files: Files, rest: seq<Byte>, blockSize: nat, o: Outcome)
    requires Typed(st)
  {
    var q := ChunkPhase(dev, st, files, rest);
    q.Continue? ==>
      o == if q.rest == [] then Return(q.st, q.files, blockSize) else FooterPhase(dev, q.st, q.files, q.rest, blockSize)
  }

  lemma HandleFromHeader(dev: Device, st: State, files: Files, block: seq<Byte>)
    requires Typed(st) && st.step == AtHeader
    ensures var p := HeaderPhase(dev, st, files, block);
            if p.Stop? then Handle(dev, st, files, block) == p.out
            else FallsInto(dev, p.st, p.files, p.rest, |block|, Handle(dev, st, files, block))
  {
    hide HeaderPhase, ChunkRound, FooterPhase, RoundsLeft;
  }

  lemma HandleFromChunks(dev: Device, st: State, files: Files, block: seq<Byte>)
    requires Typed(st) && st.step == AtChunks
    ensures FallsInto(dev, st, files, block, |block|, Handle(dev, st, files, block))
  {
    hide HeaderPhase, ChunkRound, FooterPhase, RoundsLeft;
  }

  lemma HandleFromFooter(dev: Device, st: State, files: Files, block: seq<Byte>)
    requires Typed(st)
    ensures st.step == AtFooter ==> Handle(dev, st, files, block) == FooterPhase(dev, st, files, block, |block|)
    ensures st.step == Finished ==> Handle(dev, st, files, block) == Return(st, files, |block|)
  {
    hide HeaderPhase, ChunkRound, FooterPhase, RoundsLeft;
  }

  lemma PrefixSlice(b: seq<Byte>, i: nat)
    requires i <= |b|
    ensures b[0..i] == b[..i]
  {
  }

  lemma FallsKeep(dev: Device, u: Upload, st: State, files: Files, pos: nat, rest: seq<Byte>, blockSize: nat,
        o: Outcome)
    requires Sound(dev, u) && InCode(dev, u, st, files, pos) && Typed(st)
    requires pos + |rest| <= |Body(u)| && rest == Body(u)[pos..pos + |rest|] && (rest != [] || pos < |u.code|)
    requires FallsInto(dev, st, files, rest, blockSize, o)
    ensures o.Return? && o.ret == blockSize && At(dev, u, o.st, o.files, HEADER_SIZE + pos + |rest|)
  {
    hide Sound, InCode, At, ChunkPhase, FooterPhase, Body;
    BodyKeeps(dev, u, st, files, pos, rest, blockSize);
  }

  lemma HandleInHeader(dev: Device, u: Upload, st: State, files: Files, k: nat, block: seq<Byte>)
    requires Sound(dev, u) && At(dev, u, st, files, k) && HeaderFits(u.header) && Typed(st) && st.step == AtHeader
    requires u.header.descriptor.chunkSize > 0 && Chunks(|u.code|, u.header.descriptor.chunkSize) <= U16
    requires k + |block| <= |FileBytes(u)| && block == FileBytes(u)[k..k + |block|] && Clear(k, |block|)
    ensures var o := Handle(dev, st, files, block);
            o.Return? && o.ret == |block| && At(dev, u, o.st, o.files, k + |block|)
  {
    hide Sound, At, Handle, HeaderPhase, FallsInto, FileBytes, Body, Chunks, InHeader, InCode, Ready, HeaderFits;
    AtParts(dev, u, st, files, k);
    AtHeaderIs(dev, u, st, files, k);
    HeaderKeeps(dev, u, st, files, k, block);
    HandleFromHeader(dev, st, files, block);
    var p := HeaderPhase(dev, st, files, block);
    if p.Stop? {
      AtHeaderIs(dev, u, p.out.st, p.out.files, k + |block|);
    } else {
      InCodeBounds(dev, u, p.st, p.files, 0);
      PrefixSlice(Body(u), |p.rest|);
      FallsKeep(dev, u, p.st, p.files, 0, p.rest, |block|, Handle(dev, st, files, block));
    }
  }

  lemma HandleInCode(dev: Device, u: Upload, st: State, files: Files, k: nat, block: seq<Byte>)
    requires Sound(dev, u) && At(dev, u, st, files, k) && HeaderFits(u.header) && Typed(st) && st.step == AtChunks
    requires k + |block| <= |FileBytes(u)| && block == FileBytes(u)[k..k + |block|]
    ensures var o := Handle(dev, st, files, block);
            o.Return? && o.ret == |block| && At(dev, u, o.st, o.files, k + |block|)
  {
    hide Sound, At, Handle, FallsInto, FileBytes, Body, InCode, HeaderFits;
    AtParts(dev, u, st, files, k);
    FileSlices(u, k, k + |block|);
    HandleFromChunks(dev, st, files, block);
    AtCodeIs(dev, u, st, files, k - HEADER_SIZE);
    FallsKeep(dev, u, st, files, k - HEADER_SIZE, block, |block|, Handle(dev, st, files, block));
  }

  /** One call of the handler on the next bytes of the file. */
  lemma HandleKeeps(dev: Device, u: Upload, st: State, files: Files, k: nat, block: seq<Byte>)
    requires Sound(dev, u) && At(dev, u, st, files, k) && HeaderFits(u.header) && Typed(st)
    requires u.header.descriptor.chunkSize > 0 && Chunks(|u.code|, u.header.descriptor.chunkSize) <= U16
    requires k + |block| <= |FileBytes(u)| && block == FileBytes(u)[k..k + |block|] && Clear(k, |block|)
    ensures var o := Handle(dev, st, files, block);
            o.Return? && o.ret == |block| && At(dev, u, o.st, o.files, k + |block|)
  {
    hide Sound, At, Handle, FileBytes, Body, Chunks, Clear, HeaderFits;
    AtParts(dev, u, st, files, k);
    HandleFromFooter(dev, st, files, block);
    match st.step {
      case AtHeader => HandleInHeader(dev, u, st, files, k, block);
      case AtChunks => HandleInCode(dev, u, st, files, k, block);
      case AtFooter => HandleInFooter(dev, u, st, files, k, block);
      case Finished =>
    }
  }

  lemma HandleInFooter(dev: Device, u: Upload, st: State, files: Files, k: nat, block: seq<Byte>)
    requires Sound(dev, u) && At(dev, u, st, files, k) && HeaderFits(u.header) && Typed(st) && st.step == AtFooter
    requires k + |block| <= |FileBytes(u)| && block == FileBytes(u)[k..k + |block|]
    ensures var o := FooterPhase(dev, st, files, block, |block|);
            o.Return? && o.ret == |block| && At(dev, u, o.st, o.files, k + |block|)
  {
    var pos := k - HEADER_SIZE - |u.code|;
    hide Sound, At, FooterPhase, FileBytes, Body, InFooter, Complete;
    AtParts(dev, u, st, files, k);
    FileSlices(u, k, k + |block|);
    BodySlices(u, k - HEADER_SIZE, k + |block| - HEADER_SIZE);
    AtFooterIs(dev, u, st, files, pos);
    FooterKeeps(dev, u, st, files, pos, block, |block|);
    var o := FooterPhase(dev, st, files, block, |block|);
    if pos + |block| < |u.footer| {
      AtFooterIs(dev, u, o.st, o.files, pos + |block|);
    } else {
      AtEndIs(dev, u, o.st, o.files);
    }
  }

  predicate AllClear(k: nat, blocks: seq<seq<Byte>>)
    decreases |blocks|
  {
    blocks == [] || (Clear(k, |blocks[0]|) && AllClear(k + |blocks[0]|, blocks[1..]))
  }

  /** A whole transfer. */
  lemma {:induction false} FeedKeeps(dev: Device, u: Upload, st: State, files: Files, k: nat, blocks: seq<seq<Byte>>)
    requires Sound(dev, u) && At(dev, u, st, files, k) && HeaderFits(u.header) && Typed(st)
    requires u.header.descriptor.chunkSize > 0 && Chunks(|u.code|, u.header.descriptor.chunkSize) <= U16
    requires k + |Joined(blocks)| <= |FileBytes(u)| && Joined(blocks) == FileBytes(u)[k..k + |Joined(blocks)|]
    requires AllClear(k, blocks)
    ensures var o := Feed(dev, st, files, blocks);
            o.Return? && o.ret == OK && At(dev, u, o.st, o.files, k + |Joined(blocks)|)
    decreases |blocks|
  {
    hide Sound, At, Handle, FileBytes, Chunks, Clear;
    if blocks != [] {
      var block := blocks[0];
      var end := k + |Joined(blocks)|;
      SliceSplit(FileBytes(u), k, k + |block|, end);
      assert Joined(blocks)[..|block|] == block && Joined(blocks)[|block|..] == Joined(blocks[1..]);
      HandleKeeps(dev, u, st, files, k, block);
      var o := Handle(dev, st, files, block);
      FeedKeeps(dev, u, o.st, o.files, k + |block|, blocks[1..]);
    }
  }

  /** The state a download starts in. */
  predicate Initial(st: State) {
    && st.step == AtHeader && |st.raw| == |st.buff| == HEADER_SIZE && !st.stored
    && st.offset == st.quantity == st.count == st.used == 0
  }

  lemma InitialAt(dev: Device, u: Upload, st: State, files: Files)
    requires Sound(dev, u) && Ready(dev, u, files) && Initial(st)
    ensures Typed(st) && HeaderFits(u.header) && u.header.descriptor.chunkSize > 0 && At(dev, u, st, files, 0)
  {
    SoundHeader(dev, u);
    hide Sound, Ready, HeaderFits, HeaderBytes;
    assert st.raw[..0] == HeaderBytes(u.header)[..0];
  }

  /** However a file with at most 2^16 chunks is divided into blocks (none ending on the last
      byte of the header), every block is accepted, and in the end the stored file is the code
      followed by the footer, and the descriptor is stored under its key, all others being as before. */
  lemma AnyDivision(dev: Device, u: Upload, st: State, files: Files, blocks: seq<seq<Byte>>)
    requires Sound(dev, u) && Ready(dev, u, files) && Initial(st)
    requires HeaderFits(u.header) && u.header.descriptor.chunkSize > 0
    requires Chunks(|u.code|, u.header.descriptor.chunkSize) <= U16
    requires Joined(blocks) == FileBytes(u) && AllClear(0, blocks)
    ensures var o := Feed(dev, st, files, blocks);
            && o.Return? && o.ret == OK && o.st.step == Finished
            && Contents(o.files, DataId(u.header.descriptor)) == u.code + u.footer
            && Fits(u.header.descriptor)
            && (V.Tidy(V.Table(files), dev.limit) ==>
                V.StoredIn(V.Table(files), V.Table(o.files), u.header.descriptor))
  {
    hide Sound, Ready, At, Feed, FileBytes, Chunks, AllClear, Contents, V.Tidy, V.Table, V.StoredIn;
    InitialAt(dev, u, st, files);
    assert FileBytes(u)[0..|FileBytes(u)|] == FileBytes(u);
    FeedKeeps(dev, u, st, files, 0, blocks);
    FileSlices(u, 0, 0);
    var o := Feed(dev, st, files, blocks);
    AtParts(dev, u, o.st, o.files, |FileBytes(u)|);
    AtEndIs(dev, u, o.st, o.files);
    SoundHeader(dev, u);
    assert DataId(o.st.header.descriptor) != DESCRIPTORS by {
      SoundId(dev, u);
    }
    if V.Tidy(V.Table(files), dev.limit) {
      hide V.Wanted, DataId;
      V.FeedRenews(dev, st, files, blocks);
    }
  }

  // ---------------------------------------------------------------- the two conditions

  /** A whole chunk lies in front of the loop while the counter has already fewer rounds left
      than there are chunks. */
  ghost predicate Short(dev: Device, u: Upload, st: State)
    requires Sound(dev, u)
  {
    && Roomy(st) && st.step == AtChunks && st.header == u.header && st.used == 0 && st.offset <= |u.code|
    && |st.buff| >= u.header.descriptor.chunkSize
    && RoundsLeft(st) < Chunks(|u.code| - st.offset, u.header.descriptor.chunkSize)
  }

  lemma ShortLength(dev: Device, u: Upload, st: State)
    requires Sound(dev, u) && Short(dev, u, st)
    ensures st.offset < |u.code| && 0 < ChunkLength(u.header, st.offset) <= |u.code| - st.offset
    ensures ChunkLength(u.header, st.offset) <= |st.buff| && ChunkLength(u.header, st.offset) <= dev.limit
    ensures var n := ChunkLength(u.header, st.offset);
            Chunks(|u.code| - st.offset, u.header.descriptor.chunkSize)
            == 1 + Chunks(|u.code| - st.offset - n, u.header.descriptor.chunkSize)
  {
    ChunksLeft(|u.code| - st.offset, u.header.descriptor.chunkSize);
    hide Chunks, RoundsLeft, FooterScan, ParseDescriptor, HeaderFits, DataId;
  }

  lemma ShortRound(dev: Device, u: Upload, st: State, files: Files, rest: seq<Byte>)
    requires Sound(dev, u) && Short(dev, u, st) && Typed(st) && |rest| == |u.code| - st.offset + |u.footer|
    ensures var p := ChunkRound(dev, st, files, rest);
            && p.Continue? && p.st.header == u.header && p.st.used == 0 && st.offset < p.st.offset <= |u.code|
            && |p.rest| == |u.code| - p.st.offset + |u.footer|
            && (p.st.step == AtChunks ==> Short(dev, u, p.st) && RoundsLeft(p.st) == RoundsLeft(st) - 1)
            && (p.st.step != AtChunks ==> p.st.step == AtFooter && p.st.offset < |u.code|)
  {
    ShortLength(dev, u, st);
    ShortParts(dev, u, st);
    var n := ChunkLength(u.header, st.offset);
    var st1 := Received(st, rest[..n]);
    RoundIs(dev, u, st, files, 0, rest);
    StoreShort(dev, st1, files, n);
    var st' := st1.(used := 0, offset := st.offset + n, count := (st.count + 1) % U16);
    CounterRuns(st1, st'.count);
    SameRounds(st, rest[..n]);
    RoundsOf(st', st1.(count := st'.count));
    ChunksLeft(|u.code| - st.offset - n, u.header.descriptor.chunkSize);
    hide Sound, Chunks, RoundsLeft, ChunkLength, ChunkRound, Overwrite, StoreChunk, Grown;
  }

  lemma StoreShort(dev: Device, st: State, files: Files, n: nat)
    requires Typed(st) && n <= |st.buff| && n <= dev.limit
    ensures var p := StoreChunk(dev, st, files, n);
            var st' := st.(used := 0, offset := st.offset + n, count := (st.count + 1) % U16);
            && p.Continue?
            && p.st == if st'.count == st.quantity then
               st'.(buff := Grown(st.buff, st.header.footerLength), step := AtFooter)
                       else st'
  {
    hide Written, Grown;
  }

  lemma ShortParts(dev: Device, u: Upload, st: State)
    requires Sound(dev, u) && Short(dev, u, st)
    ensures Typed(st) && st.header == u.header && st.used == 0 && u.header.codeLength == |u.code|
            && st.offset <= |u.code|
  {
    hide Chunks, RoundsLeft, FooterScan, ParseDescriptor, HeaderFits, DataId;
  }

  /** The footer begins too early, with more bytes to come than the footer has. */
  lemma {:induction false} ShortPhase(dev: Device, u: Upload, st: State, files: Files, rest: seq<Byte>)
    requires Sound(dev, u) && Short(dev, u, st) && Typed(st) && |rest| == |u.code| - st.offset + |u.footer|
    ensures var q := ChunkPhase(dev, st, files, rest);
            q.Continue? && q.st.header == u.header && q.st.used == 0 && |q.rest| > |u.footer| == u.header.footerLength
    decreases RoundsLeft(st)
  {
    SoundHeader(dev, u);
    ShortParts(dev, u, st);
    ShortLength(dev, u, st);
    var step := AtChunks;
    assert st.step == step;
    hide Sound, Short, ChunkRound, RoundsLeft, ChunkPhase, Chunks, ChunkLength;
    ShortRound(dev, u, st, files, rest);
    PhaseIs(dev, st, files, rest);
    var p := ChunkRound(dev, st, files, rest);
    if p.st.step == AtChunks {
      ShortPhase(dev, u, p.st, p.files, p.rest);
    }
  }

  /** Handed over in one block, a consistent file is accepted exactly when it has at most 2^16 chunks. */
  lemma ChunkLimit(dev: Device, u: Upload, st: State, files: Files)
    requires Sound(dev, u) && Ready(dev, u, files) && Initial(st)
    requires HeaderFits(u.header) && u.header.descriptor.chunkSize > 0
    ensures Feed(dev, st, files, [FileBytes(u)]).Return?
    ensures Feed(dev, st, files, [FileBytes(u)]).ret == OK <==> Chunks(|u.code|, u.header.descriptor.chunkSize) <= U16
  {
    var blocks := [FileBytes(u)];
    FileSlices(u, 0, 0);
    BodyLength(dev, u);
    if Chunks(|u.code|, u.header.descriptor.chunkSize) <= U16 {
      assert blocks[1..] == [] && blocks[0] + [] == blocks[0];
      assert AllClear(|blocks[0]|, []);
      hide Sound, Ready, Chunks, FileBytes, Feed, HeaderFits;
      AnyDivision(dev, u, st, files, blocks);
    } else {
      hide Sound, Ready, Chunks, FileBytes, Handle, HeaderFits;
      TooMany(dev, u, st, files);
    }
  }

  lemma TooMany(dev: Device, u: Upload, st: State, files: Files)
    requires Sound(dev, u) && Ready(dev, u, files) && Initial(st) && Typed(st)
    requires HeaderFits(u.header) && u.header.descriptor.chunkSize > 0
    requires Chunks(|u.code|, u.header.descriptor.chunkSize) > U16
    ensures var o := Handle(dev, st, files, FileBytes(u));
            o.Return? && o.ret == 0 != |FileBytes(u)|
  {
    InitialAt(dev, u, st, files);
    FileSlices(u, 0, 0);
    BodyLength(dev, u);
    WholeHeader(dev, u, st, files);
    var p := HeaderPhase(dev, st, files, FileBytes(u));
    StartsShort(dev, u, p.st);
    hide Sound, Ready, Chunks, FileBytes, Handle, HeaderPhase, HeaderFits, Short, Quantity, Body;
    ShortParts(dev, u, p.st);
    ShortPhase(dev, u, p.st, p.files, p.rest);
    HandleFromHeader(dev, st, files, FileBytes(u));
    hide ChunkPhase;
  }

  /** Behind the header of a whole file. */
  lemma WholeHeader(dev: Device, u: Upload, st: State, files: Files)
    requires Sound(dev, u) && Ready(dev, u, files) && Initial(st) && Typed(st)
    requires HeaderFits(u.header) && u.header.descriptor.chunkSize > 0
    requires |FileBytes(u)| == HEADER_SIZE + |Body(u)| && |Body(u)| == |u.code| + |u.footer| && |u.footer| > 0
    ensures var p := HeaderPhase(dev, st, files, FileBytes(u));
            && p.Continue? && |p.rest| == |Body(u)| && Typed(p.st) && p.st.step == AtChunks && p.st.header == u.header
            && p.st.offset == p.st.used == p.st.count == 0 && p.st.quantity == Quantity(u.header)
            && |p.st.buff| >= HEADER_SIZE && |p.st.buff| >= u.header.descriptor.chunkSize
  {
    var file := FileBytes(u);
    var st1 := st.(raw := Overwrite(st.raw, 0, file[..HEADER_SIZE]), used := HEADER_SIZE);
    assert InHeader(u, st, 0) by {
      hide HeaderBytes;
      assert st.raw[..0] == HeaderBytes(u.header)[..0];
    }
    assert file[0..|file|] == file;
    hide Sound, Ready, HeaderBytes, HeaderFits, Overwrite, FileBytes, Body, Quantity, InHeader, AcceptHeader, Prepare;
    HeaderPrefix(u, st, 0, file, HEADER_SIZE);
    AcceptsHeader(dev, u, st1, files);
  }

  lemma StartsShort(dev: Device, u: Upload, st: State)
    requires Sound(dev, u) && Typed(st) && st.step == AtChunks && st.header == u.header
             && u.header.descriptor.chunkSize > 0
    requires st.offset == st.used == st.count == 0 && st.quantity == Quantity(u.header)
    requires |st.buff| >= HEADER_SIZE && |st.buff| >= u.header.descriptor.chunkSize
    requires Chunks(|u.code|, u.header.descriptor.chunkSize) > U16
    ensures Short(dev, u, st)
  {
    hide Chunks, FooterScan, ParseDescriptor, HeaderFits, DataId, Quantity, RoundsLeft;
    var n := RoundsLeft(st);
  }

  /** A block that ends on the last byte of the header is accepted, but leaves the header's
      byte count behind: the next bytes go 59 places too far into the chunk buffer, or past
      the chunk when it is shorter than that. */
  lemma HeaderBoundary(dev: Device, u: Upload, st: State, files: Files, next: seq<Byte>)
    requires Sound(dev, u) && Ready(dev, u, files) && Initial(st) && Typed(st)
    requires HeaderFits(u.header) && u.header.descriptor.chunkSize > 0 && next != []
    ensures var o := Handle(dev, st, files, HeaderBytes(u.header));
            && o.Return? && o.ret == HEADER_SIZE && o.st.step == AtChunks && o.st.used == HEADER_SIZE
            && (ChunkLength(u.header, 0) < HEADER_SIZE ==> Handle(dev, o.st, o.files, next) == Fault)
  {
    HeaderBlock(dev, u, st, files);
    SoundHeader(dev, u);
    hide Sound, Ready, HeaderBytes, HeaderFits, Quantity, Prepare, Handle, ChunkLength;
    var o := Handle(dev, st, files, HeaderBytes(u.header));
    if ChunkLength(u.header, 0) < HEADER_SIZE {
      OverfullFaults(dev, o.st, o.files, next);
    }
  }

  lemma HeaderBlock(dev: Device, u: Upload, st: State, files: Files)
    requires Sound(dev, u) && Ready(dev, u, files) && Initial(st) && Typed(st)
    requires HeaderFits(u.header) && u.header.descriptor.chunkSize > 0
    ensures var o := Handle(dev, st, files, HeaderBytes(u.header));
            && o.Return? && o.ret == HEADER_SIZE && o.st.step == AtChunks && o.st.used == HEADER_SIZE
            && o.st.offset == 0 && o.st.header == u.header
  {
    hide Sound, Ready, HeaderBytes, HeaderFits, Quantity, Prepare, AcceptHeader, ChunkPhase;
    var block := HeaderBytes(u.header);
    var st1 := st.(raw := Overwrite(st.raw, 0, block), used := HEADER_SIZE);
    assert block[..HEADER_SIZE] == block && st1.raw == block;
    AcceptsHeader(dev, u, st1, files);
  }

  lemma OverfullFaults(dev: Device, st: State, files: Files, next: seq<Byte>)
    requires Typed(st) && st.step == AtChunks && st.offset <= st.header.codeLength && next != []
    requires st.used > ChunkLength(st.header, st.offset)
    ensures Handle(dev, st, files, next) == Fault
  {
    hide StoreChunk, Overwrite, RoundsLeft, HeaderPhase, FooterPhase;
  }
}
