/** When a transfer of an update file succeeds: exactly when no block ends with the header and the
    file has at most 2^16 chunks.

    One direction is the reception of every division. For the other, a run that goes wrong takes a shifted
    body for the body, or looks for the footer inside the code. An invariant follows it to the end; if the
    image came out right all the same, what was taken for the footer would be zeros. */
module FirmwareTransfer {
  import opened Bytes
  import opened Versions
  import opened Firmware
  import opened FirmwareStore
  import opened FirmwareDownload
  import opened FirmwareReception

  /** Every block was accepted, and the data file is the code followed by the footer. */
  predicate Succeeds(u: Upload, o: Outcome) {
    && o.Return? && o.ret == OK && o.st.step == Finished
    && Contents(o.files, DataId(u.header.descriptor)) == u.code + u.footer
  }

  // ---------------------------------------------------------------- runs that go wrong

  /** What the handler takes for the body of the file when s bytes of its zeroed buffer count as received. */
  function Shifted(u: Upload, s: nat): (v: seq<Byte>)
    ensures |v| == s + |u.code| + |u.footer|
  {
    Fill(0, s) + Body(u)
  }

  /** Either the header's size is still counted as used, or the counter stops before the last chunk. */
  predicate Reason(u: Upload, s: nat)
    requires u.header.descriptor.chunkSize > 0
  {
    s == HEADER_SIZE || (s == 0 && Chunks(|u.code|, u.header.descriptor.chunkSize) > U16)
  }

  /** pos bytes of the shifted body have been taken, up to st.offset into the data file. */
  ghost predicate Progress(u: Upload, s: nat, st: State, files: Files, pos: nat) {
    && Typed(st) && st.header == u.header && u.header.codeLength == |u.code|
    && st.offset <= |u.code| && st.offset + st.used == pos <= |Shifted(u, s)| && st.used <= |st.buff|
    && st.buff[..st.used] == Shifted(u, s)[st.offset..pos]
    && Contents(files, DataId(u.header.descriptor)) == Shifted(u, s)[..st.offset]
  }

  /** In the chunk loop: the shift is still in the buffer or already in the file, or there are more chunks
      to come than rounds. */
  ghost predicate AmongChunks(u: Upload, s: nat, st: State, files: Files, pos: nat)
    requires u.header.descriptor.chunkSize > 0
  {
    && Progress(u, s, st, files, pos) && st.step == AtChunks
    && if s == 0 then Chunks(|u.code| - st.offset, u.header.descriptor.chunkSize) >= RoundsLeft(st) + U16
       else s == HEADER_SIZE && (st.offset >= HEADER_SIZE || (st.offset == 0 && st.used >= HEADER_SIZE))
  }

  /** The footer is looked for in the wrong place. */
  predicate WrongPlace(u: Upload, s: nat, end: nat) {
    end <= |u.code| && if s == 0 then |u.code| - end >= U16 else s == HEADER_SIZE <= end
  }

  ghost predicate AmongFooter(u: Upload, s: nat, st: State, files: Files, pos: nat) {
    && Progress(u, s, st, files, pos) && st.step == AtFooter && st.used < u.header.footerLength
    && WrongPlace(u, s, st.offset)
  }

  ghost predicate WrongEnd(u: Upload, st: State, files: Files) {
    Typed(st) && st.step == Finished && Contents(files, DataId(u.header.descriptor)) != u.code + u.footer
  }

  /** No way leads from here to success. */
  ghost predicate Astray(u: Upload, s: nat, st: State, files: Files, pos: nat)
    requires u.header.descriptor.chunkSize > 0
  {
    AmongChunks(u, s, st, files, pos) || AmongFooter(u, s, st, files, pos) || WrongEnd(u, st, files)
  }

  /** A call that accepts its block leaves the handler astray. */
  ghost predicate StaysAstray(u: Upload, s: nat, o: Outcome, blockSize: nat, pos: nat)
    requires u.header.descriptor.chunkSize > 0
  {
    o.Return? && o.ret == blockSize ==> Astray(u, s, o.st, o.files, pos)
  }

  // ---------------------------------------------------------------- the wrong image

  /** A descriptor of zeros has no chunk size. */
  lemma ZerosDescribeNothing(b: seq<Byte>)
    requires |b| == DESCRIPTOR_SIZE && forall i :: 0 <= i < DESCRIPTOR_SIZE ==> b[i] == 0
    ensures ParseDescriptor(b).chunkSize == 0
  {
    assert b[32..34][..1] == [0] && [0][..0] == [];
    assert FromBE([0]) == FromBE([]) * 256 + 0;
  }

  /** Zeros in front shift a text onto itself only if it is all zeros. */
  lemma {:induction false} SelfShift(u: Upload, end: nat, i: nat)
    requires HEADER_SIZE <= end <= |u.code| && Shifted(u, HEADER_SIZE)[..end] == u.code[..end] && i < end
    ensures u.code[i] == 0
    decreases i
  {
    var v := Shifted(u, HEADER_SIZE);
    assert u.code[i] == u.code[..end][i] == v[..end][i] == v[i];
    if i >= HEADER_SIZE {
      assert v[i] == Body(u)[i - HEADER_SIZE] == u.code[i - HEADER_SIZE];
      SelfShift(u, end, i - HEADER_SIZE);
    }
  }

  lemma GapIsZero(f: seq<Byte>, offset: nat, data: seq<Byte>)
    requires |f| <= offset
    ensures |Written(f, offset, data)| == offset + |data| && Written(f, offset, data)[..|f|] == f
    ensures forall i :: |f| <= i < offset ==> Written(f, offset, data)[i] == 0
  {
  }

  /** If the footer was taken from the wrong place and the image came out right all the same, then that
      place holds zeros, which do not describe the firmware. */
  lemma ImageIsWrong(u: Upload, s: nat, end: nat, data: seq<Byte>)
    requires WrongPlace(u, s, end) && end + FOOTER_META_SIZE <= |Shifted(u, s)|
    requires ParseDescriptor(Shifted(u, s)[end + 1..end + FOOTER_META_SIZE]).chunkSize > 0
    ensures Written(Shifted(u, s)[..end], |u.code|, data) != u.code + u.footer
  {
    var v := Shifted(u, s);
    var w := Written(v[..end], |u.code|, data);
    if w == u.code + u.footer {
      GapIsZero(v[..end], |u.code|, data);
      hide Written, ParseDescriptor;
      assert v[..end] == u.code[..end] by {
        assert w[..|u.code|] == u.code && w[..end] == w[..|u.code|][..end];
      }
      forall j | end < j < end + FOOTER_META_SIZE
        ensures v[j] == 0
      {
        if s == 0 {
          assert v[j] == Body(u)[j] == u.code[j] == w[j];
        } else {
          assert v[j] == Body(u)[j - HEADER_SIZE] == u.code[j - HEADER_SIZE];
          SelfShift(u, end, j - HEADER_SIZE);
        }
      }
      ZerosDescribeNothing(v[end + 1..end + FOOTER_META_SIZE]);
      assert false;
    }
  }

  // ---------------------------------------------------------------- one round, one phase, one call

  lemma {:induction false} ChunksBound(l: nat, c: nat)
    requires c > 0
    ensures Chunks(l, c) <= l
    decreases l
  {
    if l > c {
      ChunksBound(l - c, c);
    }
  }

  lemma Filled(b: seq<Byte>, used: nat, v: seq<Byte>, i: nat, data: seq<Byte>)
    requires used + |data| <= |b| && i + used + |data| <= |v|
    requires b[..used] == v[i..i + used] && data == v[i + used..i + used + |data|]
    ensures Overwrite(b, used, data)[..used + |data|] == v[i..i + used + |data|]
  {
    SliceSplit(v, i, i + used, i + used + |data|);
    hide Overwrite;
  }

  /** Bytes of the current chunk arrive. */
  lemma Fills(u: Upload, s: nat, st: State, files: Files, pos: nat, data: seq<Byte>)
    requires Progress(u, s, st, files, pos) && st.used + |data| <= |st.buff|
    requires pos + |data| <= |Shifted(u, s)| && data == Shifted(u, s)[pos..pos + |data|]
    ensures Progress(u, s, st.(buff := Overwrite(st.buff, st.used, data), used := st.used + |data|), files,
            pos + |data|)
  {
    hide Shifted, Contents, DataId, Overwrite;
    Filled(st.buff, st.used, Shifted(u, s), st.offset, data);
  }

  /** The chunk in the buffer goes to the end of the data file. */
  lemma Appends(dev: Device, u: Upload, s: nat, st: State, files: Files, pos: nat)
    requires Progress(u, s, st, files, pos)
    ensures var e := WriteFile(files, dev.limit, DataId(u.header.descriptor), st.offset, st.buff[..st.used]);
            e.code == OK ==> Contents(e.files, DataId(u.header.descriptor)) == Shifted(u, s)[..pos]
  {
    var v, id := Shifted(u, s), DataId(u.header.descriptor);
    hide Shifted, DataId, Written;
    if st.used <= dev.limit {
      WriteExtends(files, dev.limit, id, v, st.offset, st.used);
    }
  }

  /** The rest of a code in chunks. */
  lemma FewerChunks(l: nat, c: nat, rounds: nat)
    requires c > 0 && Chunks(l, c) >= rounds + U16 && rounds > 0
    ensures var n := if l > c then c else l;
            Chunks(l - n, c) >= rounds - 1 + U16 && l - n >= U16
  {
    ChunksBound(if l > c then l - c else 0, c);
  }

  /** A complete chunk is stored, and the next chunk or the footer begins. */
  lemma Stores(dev: Device, u: Upload, s: nat, st: State, files: Files, pos: nat)
    requires u.header.descriptor.chunkSize > 0 && u.header.footerLength > 0
    requires AmongChunks(u, s, st, files, pos) && st.used == ChunkLength(u.header, st.offset)
    ensures match StoreChunk(dev, st, files, st.used)
            case Stop(out) => out.Return? && out.ret == 0
            case Continue(st', files', _) =>
              Typed(st') && (AmongChunks(u, s, st', files', pos) || AmongFooter(u, s, st', files', pos))
  {
    hide Shifted, Chunks, RoundsLeft, DataId, Contents, WriteFile, Grown;
    Appends(dev, u, s, st, files, pos);
    CounterRuns(st, (st.count + 1) % U16);
    if s == 0 {
      FewerChunks(|u.code| - st.offset, u.header.descriptor.chunkSize, RoundsLeft(st));
    }
    var p := StoreChunk(dev, st, files, st.used);
    if p.Continue? {
      RoundsOf(p.st, st.(count := (st.count + 1) % U16));
      assert p.st.buff[..0] == [] == Shifted(u, s)[p.st.offset..p.st.offset];
    }
  }

  /** Part of a chunk, or the rest of it, arrives. */
  lemma Arrives(u: Upload, s: nat, st: State, files: Files, pos: nat, data: seq<Byte>)
    requires u.header.descriptor.chunkSize > 0
    requires AmongChunks(u, s, st, files, pos) && st.used + |data| <= |st.buff|
    requires pos + |data| <= |Shifted(u, s)| && data == Shifted(u, s)[pos..pos + |data|]
    ensures AmongChunks(u, s, Received(st, data), files, pos + |data|)
  {
    hide Shifted, Chunks, RoundsLeft, DataId, Contents, Overwrite;
    Fills(u, s, st, files, pos, data);
    SameRounds(st, data);
  }

  /** What a round leaves: a chunk still to complete, the next one, or the footer. */
  ghost predicate RoundLeaves(u: Upload, s: nat, p: Phase, end: nat)
    requires u.header.descriptor.chunkSize > 0
  {
    match p
    case Stop(out) => out.Return? ==> out.ret == 0
    case Continue(st, files, rest) =>
      var pos := end - |rest|;
      && Typed(st) && 0 <= pos <= end <= |Shifted(u, s)| && rest == Shifted(u, s)[pos..end]
      && (AmongChunks(u, s, st, files, pos) || AmongFooter(u, s, st, files, pos))
  }

  /** A round, with its faults in front. */
  lemma RoundIs(dev: Device, u: Upload, st: State, files: Files, rest: seq<Byte>)
    requires Typed(st) && st.header == u.header && st.offset <= u.header.codeLength
    ensures var length := ChunkLength(u.header, st.offset);
            var p := ChunkRound(dev, st, files, rest);
            if st.used > length || st.used + Taken(u, st, rest) > |st.buff| then p == Stop(Fault)
            else
              var size := Taken(u, st, rest);
              var st1 := Received(st, rest[..size]);
              if st1.used != length then p == Continue(st1, files, rest[size..])
              else
                match StoreChunk(dev, st1, files, st1.used)
                case Stop(out) => p == Stop(out)
                case Continue(st2, files2, _) => p == Continue(st2, files2, rest[size..])
  {
    hide Overwrite, StoreChunk, RoundsLeft, ChunkLength;
  }

  /** One round of the chunk loop on the next bytes. */
  lemma RoundStrays(dev: Device, u: Upload, s: nat, st: State, files: Files, pos: nat, rest: seq<Byte>)
    requires u.header.descriptor.chunkSize > 0 && u.header.footerLength > 0
    requires AmongChunks(u, s, st, files, pos) && pos + |rest| <= |Shifted(u, s)|
    requires rest == Shifted(u, s)[pos..pos + |rest|]
    ensures RoundLeaves(u, s, ChunkRound(dev, st, files, rest), pos + |rest|)
  {
    hide *;
    AmongParts(u, s, st, files, pos);
    RoundIs(dev, u, st, files, rest);
    var length := ChunkLength(u.header, st.offset);
    if st.used > length || st.used + Taken(u, st, rest) > |st.buff| {
      FaultLeaves(u, s, pos + |rest|);
    } else {
      TakenArrives(u, s, st, files, pos, rest);
      var size := Taken(u, st, rest);
      var st1 := Received(st, rest[..size]);
      if st1.used == length {
        Stores(dev, u, s, st1, files, pos + size);
        StoreLeaves(u, s, StoreChunk(dev, st1, files, st1.used), pos + size, rest[size..], pos + |rest|);
      } else {
        ContinueLeaves(u, s, st1, files, pos + size, rest[size..], pos + |rest|);
      }
    }
  }

  lemma FaultLeaves(u: Upload, s: nat, end: nat)
    requires u.header.descriptor.chunkSize > 0
    ensures RoundLeaves(u, s, Stop(Fault), end)
  {
  }

  lemma ContinueLeaves(u: Upload, s: nat, st: State, files: Files, pos: nat, rest: seq<Byte>, end: nat)
    requires u.header.descriptor.chunkSize > 0 && Typed(st) && pos <= end <= |Shifted(u, s)|
    requires rest == Shifted(u, s)[pos..end]
    requires AmongChunks(u, s, st, files, pos) || AmongFooter(u, s, st, files, pos)
    ensures RoundLeaves(u, s, Continue(st, files, rest), end)
  {
    hide AmongChunks, AmongFooter, Shifted, Typed;
  }

  lemma StoreLeaves(u: Upload, s: nat, p: Phase, pos: nat, rest: seq<Byte>, end: nat)
    requires u.header.descriptor.chunkSize > 0 && pos <= end <= |Shifted(u, s)| && rest == Shifted(u, s)[pos..end]
    requires match p
             case Stop(out) => out.Return? && out.ret == 0
             case Continue(st, files, _) =>
               Typed(st) && (AmongChunks(u, s, st, files, pos) || AmongFooter(u, s, st, files, pos))
    ensures match p
            case Stop(out) => RoundLeaves(u, s, Stop(out), end)
            case Continue(st, files, _) => RoundLeaves(u, s, Continue(st, files, rest), end)
  {
    hide AmongChunks, AmongFooter, Shifted, Typed;
  }

  /** The part of the bytes that belongs to the current chunk. */
  lemma TakenArrives(u: Upload, s: nat, st: State, files: Files, pos: nat, rest: seq<Byte>)
    requires u.header.descriptor.chunkSize > 0
    requires AmongChunks(u, s, st, files, pos) && pos + |rest| <= |Shifted(u, s)|
    requires rest == Shifted(u, s)[pos..pos + |rest|]
    requires st.offset <= u.header.codeLength && st.used <= ChunkLength(u.header, st.offset)
    requires st.used + Taken(u, st, rest) <= |st.buff|
    ensures var size := Taken(u, st, rest);
            var st1 := Received(st, rest[..size]);
            && size <= |rest| && rest[size..] == Shifted(u, s)[pos + size..pos + |rest|]
            && Typed(st1) && st1.offset == st.offset && st1.header == u.header && st1.used <= |st1.buff|
            && AmongChunks(u, s, st1, files, pos + size)
  {
    hide AmongChunks, Shifted, ChunkLength, Taken, Received, Typed;
    TakenIs(u, st, rest);
    var size := Taken(u, st, rest);
    SliceSplit(Shifted(u, s), pos, pos + size, pos + |rest|);
    Arrives(u, s, st, files, pos, rest[..size]);
    AmongParts(u, s, Received(st, rest[..size]), files, pos + size);
  }

  lemma TakenIs(u: Upload, st: State, rest: seq<Byte>)
    requires st.offset <= u.header.codeLength && st.used <= ChunkLength(u.header, st.offset)
    ensures Taken(u, st, rest) <= |rest|
    ensures Taken(u, st, rest) <= |st.buff| - st.used ==>
              Received(st, rest[..Taken(u, st, rest)]).offset == st.offset
  {
    hide ChunkLength, Overwrite;
  }

  lemma AmongParts(u: Upload, s: nat, st: State, files: Files, pos: nat)
    requires u.header.descriptor.chunkSize > 0 && AmongChunks(u, s, st, files, pos)
    ensures Typed(st) && st.header == u.header && st.offset <= u.header.codeLength && st.used <= |st.buff|
    ensures st.step == AtChunks && pos <= |Shifted(u, s)|
  {
    hide Shifted, Chunks, RoundsLeft, DataId, Contents;
  }

  /** ... and what the loop leaves: nothing of the block, or the footer. */
  ghost predicate PhaseLeaves(u: Upload, s: nat, p: Phase, end: nat)
    requires u.header.descriptor.chunkSize > 0
  {
    RoundLeaves(u, s, p, end) && (p.Continue? && p.rest != [] ==> p.st.step == AtFooter)
  }

  lemma LeavesParts(u: Upload, s: nat, p: Phase, end: nat)
    requires u.header.descriptor.chunkSize > 0 && RoundLeaves(u, s, p, end) && p.Continue?
    ensures Typed(p.st) && |p.rest| <= end <= |Shifted(u, s)| && p.rest == Shifted(u, s)[end - |p.rest|..end]
    ensures p.st.step == AtChunks ==> AmongChunks(u, s, p.st, p.files, end - |p.rest|)
    ensures p.st.step != AtChunks ==>
              p.st.step == AtFooter && AmongFooter(u, s, p.st, p.files, end - |p.rest|) && PhaseLeaves(u, s, p, end)
  {
    StepTells(u, s, p.st, p.files, end - |p.rest|);
    hide AmongChunks, AmongFooter, Shifted, Typed;
  }

  lemma NothingLeft(u: Upload, s: nat, st: State, files: Files, pos: nat)
    requires u.header.descriptor.chunkSize > 0 && AmongChunks(u, s, st, files, pos)
    ensures Typed(st) && PhaseLeaves(u, s, Continue(st, files, []), pos)
  {
    AmongParts(u, s, st, files, pos);
    hide AmongChunks, AmongFooter, Shifted;
  }

  /** The chunk loop, up to the end of the block or of the rounds. */
  lemma {:induction false} PhaseStrays(dev: Device, u: Upload, s: nat, st: State, files: Files, pos: nat,
        rest: seq<Byte>)
    requires u.header.descriptor.chunkSize > 0 && u.header.footerLength > 0 && Typed(st)
    requires AmongChunks(u, s, st, files, pos) && pos + |rest| <= |Shifted(u, s)|
    requires rest == Shifted(u, s)[pos..pos + |rest|]
    ensures PhaseLeaves(u, s, ChunkPhase(dev, st, files, rest), pos + |rest|)
    decreases |rest|, RoundsLeft(st)
  {
    hide *;
    PhaseUnfolds(dev, st, files, rest);
    NothingLeft(u, s, st, files, pos);
    StepTells(u, s, st, files, pos);
    if rest != [] {
      RoundStrays(dev, u, s, st, files, pos, rest);
      var p, end := ChunkRound(dev, st, files, rest), pos + |rest|;
      if p.Continue? {
        LeavesParts(u, s, p, end);
        if p.st.step == AtChunks {
          PhaseStrays(dev, u, s, p.st, p.files, end - |p.rest|, p.rest);
        }
      } else {
        StopsWith(u, s, p, end);
      }
    }
  }

  lemma StopsWith(u: Upload, s: nat, p: Phase, end: nat)
    requires u.header.descriptor.chunkSize > 0 && RoundLeaves(u, s, p, end) && p.Stop?
    ensures PhaseLeaves(u, s, p, end) && (p.out.Return? ==> p.out.ret == 0)
  {
  }

  lemma PhaseUnfolds(dev: Device, st: State, files: Files, rest: seq<Byte>)
    requires Typed(st)
    ensures ChunkPhase(dev, st, files, rest) ==
            if rest == [] || st.step != AtChunks then Continue(st, files, rest)
            else
              var p := ChunkRound(dev, st, files, rest);
              if p.Continue? && p.st.step == AtChunks then ChunkPhase(dev, p.st, p.files, p.rest) else p
  {
    hide ChunkRound, RoundsLeft;
  }

  /** The states differ in the step. */
  lemma StepTells(u: Upload, s: nat, st: State, files: Files, pos: nat)
    requires u.header.descriptor.chunkSize > 0
    ensures AmongChunks(u, s, st, files, pos) ==> st.step == AtChunks
    ensures AmongFooter(u, s, st, files, pos) ==> st.step == AtFooter && Typed(st)
  {
    hide Shifted, Chunks, RoundsLeft, DataId, Contents;
  }

  /** Bytes that are taken for the footer: if they complete one and it is stored, the image is wrong. */
  lemma FooterStrays(dev: Device, u: Upload, s: nat, st: State, files: Files, pos: nat, rest: seq<Byte>, blockSize: nat)
    requires u.header.descriptor.chunkSize > 0 && u.header.footerLength >= FOOTER_META_SIZE && Typed(st)
    requires u.header.descriptor.length == |u.code| && (rest != [] ==> blockSize > 0)
    requires AmongFooter(u, s, st, files, pos) && pos + |rest| <= |Shifted(u, s)|
    requires rest == Shifted(u, s)[pos..pos + |rest|]
    ensures StaysAstray(u, s, FooterPhase(dev, st, files, rest, blockSize), blockSize, pos + |rest|)
  {
    hide Shifted, DataId, Contents, Overwrite, FooterScan, ParseDescriptor, SaveFooterEffect;
    if st.used + |rest| <= u.header.footerLength && st.used + |rest| <= |st.buff| {
      Fills(u, s, st, files, pos, rest);
      var st1 := st.(buff := Overwrite(st.buff, st.used, rest), used := st.used + |rest|);
      if st1.used == u.header.footerLength {
        var end := st.offset;
        DescriptorInside(st1.buff, st1.used, Shifted(u, s), end);
        StoredWrong(dev, u, s, st1, files);
      }
    }
  }

  lemma DescriptorInside(b: seq<Byte>, used: nat, v: seq<Byte>, i: nat)
    requires FOOTER_META_SIZE <= used <= |b| && i + used <= |v| && b[..used] == v[i..i + used]
    ensures b[1..43] == v[i + 1..i + 43]
  {
    var x := b[..used];
    assert b[1..43] == x[1..43];
    forall k | 0 <= k < 42
      ensures x[1..43][k] == v[i + 1..i + 43][k]
    {
      assert x[k + 1] == v[i..i + used][k + 1] == v[i + k + 1];
    }
    assert x[1..43] == v[i + 1..i + 43];
  }

  lemma StoredWrong(dev: Device, u: Upload, s: nat, st: State, files: Files)
    requires u.header.descriptor.chunkSize > 0 && u.header.descriptor.length == |u.code|
    requires WrongPlace(u, s, st.offset) && st.offset + FOOTER_META_SIZE <= |Shifted(u, s)|
             && |st.buff| >= FOOTER_META_SIZE
    requires st.buff[1..43] == Shifted(u, s)[st.offset + 1..st.offset + 43]
    requires Contents(files, DataId(u.header.descriptor)) == Shifted(u, s)[..st.offset]
    ensures ParseDescriptor(st.buff[1..43]) == u.header.descriptor ==>
              var e := SaveFooterEffect(files, dev.limit, u.header.descriptor, st.buff);
              e.code == OK ==> Contents(e.files, DataId(u.header.descriptor)) != u.code + u.footer
  {
    hide Shifted, DataId, FooterScan, ParseDescriptor, Written;
    if ParseDescriptor(st.buff[1..43]) == u.header.descriptor {
      match FooterScan(st.buff)
      case Size(n) =>
        if n <= |st.buff| {
          ImageIsWrong(u, s, st.offset, st.buff[..n]);
        }
      case _ =>
    }
  }

  /** The fall-through from the chunk loop. */
  function Falls(dev: Device, st: State, files: Files, rest: seq<Byte>, blockSize: nat): Outcome
    requires Typed(st)
  {
    var q := ChunkPhase(dev, st, files, rest);
    if q.Stop? then q.out
    else if q.rest == [] then Return(q.st, q.files, blockSize)
    else FooterPhase(dev, q.st, q.files, q.rest, blockSize)
  }

  lemma HandleIs(dev: Device, st: State, files: Files, block: seq<Byte>)
    requires Typed(st)
    ensures st.step == AtHeader ==>
              var p := HeaderPhase(dev, st, files, block);
              Handle(dev, st, files, block) == if p.Stop? then p.out else Falls(dev, p.st, p.files, p.rest, |block|)
    ensures st.step == AtChunks ==> Handle(dev, st, files, block) == Falls(dev, st, files, block, |block|)
  {
    hide HeaderPhase, ChunkPhase, FooterPhase;
  }

  lemma FallsStray(dev: Device, u: Upload, s: nat, st: State, files: Files, pos: nat, rest: seq<Byte>, blockSize: nat)
    requires Fed(u) && Typed(st) && (rest != [] ==> blockSize > 0)
    requires AmongChunks(u, s, st, files, pos) && pos + |rest| <= |Shifted(u, s)|
    requires rest == Shifted(u, s)[pos..pos + |rest|]
    ensures StaysAstray(u, s, Falls(dev, st, files, rest, blockSize), blockSize, pos + |rest|)
  {
    hide AmongChunks, AmongFooter, Shifted, ChunkPhase, FooterPhase, WrongEnd, RoundLeaves, PhaseLeaves;
    PhaseUnfolds(dev, st, files, rest);
    PhaseStrays(dev, u, s, st, files, pos, rest);
    var q, end := ChunkPhase(dev, st, files, rest), pos + |rest|;
    PhaseParts(u, s, q, end);
    if q.Continue? && q.rest != [] {
      FooterStrays(dev, u, s, q.st, q.files, end - |q.rest|, q.rest, blockSize);
    }
  }

  lemma PhaseParts(u: Upload, s: nat, p: Phase, end: nat)
    requires u.header.descriptor.chunkSize > 0 && PhaseLeaves(u, s, p, end)
    ensures p.Stop? ==> p.out.Return? ==> p.out.ret == 0
    ensures p.Continue? ==>
              && Typed(p.st) && |p.rest| <= end <= |Shifted(u, s)| && p.rest == Shifted(u, s)[end - |p.rest|..end]
              && (if p.rest == [] then Astray(u, s, p.st, p.files, end)
                 else AmongFooter(u, s, p.st, p.files, end - |p.rest|))
  {
    if p.Continue? {
      LeavesParts(u, s, p, end);
    }
    hide AmongChunks, AmongFooter, Shifted, WrongEnd;
  }

  /** The header's numbers are those of the file. */
  predicate Fed(u: Upload) {
    && u.header.descriptor.chunkSize > 0 && u.header.footerLength == |u.footer| >= FOOTER_META_SIZE
    && u.header.descriptor.length == |u.code|
  }

  /** Once astray, a call that accepts its block leaves the handler astray. */
  lemma HandleStrays(dev: Device, u: Upload, s: nat, st: State, files: Files, pos: nat, block: seq<Byte>)
    requires Fed(u) && Typed(st) && Astray(u, s, st, files, pos)
    requires pos + |block| <= |Shifted(u, s)| && block == Shifted(u, s)[pos..pos + |block|]
    ensures StaysAstray(u, s, Handle(dev, st, files, block), |block|, pos + |block|)
  {
    hide AmongChunks, AmongFooter, Shifted, Handle, FooterPhase, Falls;
    StepTells(u, s, st, files, pos);
    HandleIs(dev, st, files, block);
    HandleFromFooter(dev, st, files, block);
    if AmongChunks(u, s, st, files, pos) {
      FallsStray(dev, u, s, st, files, pos, block, |block|);
    } else if AmongFooter(u, s, st, files, pos) {
      FooterStrays(dev, u, s, st, files, pos, block, |block|);
    }
  }

  /** Once astray, the transfer does not succeed. */
  lemma {:induction false} FeedStrays(dev: Device, u: Upload, s: nat, st: State, files: Files, pos: nat,
        blocks: seq<seq<Byte>>)
    requires Fed(u) && Typed(st) && Astray(u, s, st, files, pos)
    requires pos <= |Shifted(u, s)| && Joined(blocks) == Shifted(u, s)[pos..]
    ensures !Succeeds(u, Feed(dev, st, files, blocks))
    decreases |blocks|
  {
    hide AmongChunks, AmongFooter, Shifted, Handle;
    StepTells(u, s, st, files, pos);
    if blocks != [] {
      var block, v := blocks[0], Shifted(u, s);
      assert v[pos..][..|block|] == block && v[pos..][|block|..] == Joined(blocks[1..]);
      assert block == v[pos..pos + |block|] && v[pos + |block|..] == Joined(blocks[1..]);
      HandleStrays(dev, u, s, st, files, pos, block);
      var o := Handle(dev, st, files, block);
      if o.Return? && o.ret == |block| {
        FeedStrays(dev, u, s, o.st, o.files, pos + |block|, blocks[1..]);
      }
    }
  }

  // ---------------------------------------------------------------- how a run goes wrong

  /** The counter of a fresh download, when there are more chunks than it can count. */
  lemma TooFewRounds(st: State, n: nat)
    requires st.count == 0 && st.quantity == n % U16 && n > U16
    ensures n >= RoundsLeft(st) + U16
  {
  }

  /** Behind the header: with its size still counted as used, or with too many chunks to come. */
  lemma FreshAstray(u: Upload, s: nat, st: State, files: Files)
    requires Fed(u) && Reason(u, s) && Typed(st) && st.step == AtChunks && st.header == u.header
    requires u.header.codeLength == |u.code| && st.offset == 0 && st.used == s <= |st.buff|
             && st.buff[..s] == Fill(0, s)
    requires st.count == 0 && st.quantity == Quantity(u.header)
    requires Contents(files, DataId(u.header.descriptor)) == []
    ensures AmongChunks(u, s, st, files, s)
  {
    QuantityIsChunks(u.header);
    if s == 0 {
      TooFewRounds(st, Chunks(|u.code|, u.header.descriptor.chunkSize));
    }
    assert Shifted(u, s)[0..s] == Fill(0, s) && Shifted(u, s)[..0] == [];
    hide Shifted, Chunks, Quantity, RoundsLeft, DataId, Contents;
  }

  /** The header is complete. */
  lemma HeaderCompletes(dev: Device, u: Upload, st: State, files: Files, s: nat)
    requires Sound(dev, u) && Ready(dev, u, files) && Fed(u) && Reason(u, s) && HeaderFits(u.header)
    requires Typed(st) && st.raw == HeaderBytes(u.header) && st.buff == Fill(0, HEADER_SIZE)
    requires st.step == AtHeader && st.offset == 0 && st.count == 0
    ensures var p := AcceptHeader(dev, st, files);
            p.Continue? && p.st.used == st.used && AmongChunks(u, s, p.st.(used := s), p.files, s)
  {
    SoundHeader(dev, u);
    AcceptsHeader(dev, u, st, files);
    PreparedEmpty(dev, u, files);
    hide Sound, Ready, AcceptHeader, Quantity, Chunks, HeaderFits, DataId, Contents, HeaderBytes, AmongChunks, Reason;
    assert s <= HEADER_SIZE by { ReasonIs(u, s); }
    var p := AcceptHeader(dev, st, files);
    assert p.st.buff[..s] == Fill(0, s);
    FreshAstray(u, s, p.st.(used := s), p.files);
  }

  lemma ReasonIs(u: Upload, s: nat)
    requires u.header.descriptor.chunkSize > 0 && Reason(u, s)
    ensures s <= HEADER_SIZE
  {
  }

  /** A block inside the header. */
  lemma HeaderGoesOn(dev: Device, u: Upload, st: State, files: Files, k: nat, block: seq<Byte>)
    requires Sound(dev, u) && Ready(dev, u, files) && Fed(u) && HeaderFits(u.header) && Typed(st)
    requires InHeader(u, st, k) && st.buff == Fill(0, HEADER_SIZE)
    requires k + |block| <= |FileBytes(u)| && block == FileBytes(u)[k..k + |block|]
    requires k + |block| < HEADER_SIZE
    ensures var o := Handle(dev, st, files, block);
            o.Return? && o.ret == |block| && o.files == files && InHeader(u, o.st, k + |block|) && o.st.buff == st.buff
  {
    FileSlices(u, 0, 0);
    HeaderPrefix(u, st, k, block, |block|);
    hide Sound, Ready, AcceptHeader, HeaderBytes, HeaderFits, Overwrite, Body, FileBytes, Chunks, Shifted, AmongChunks,
         AmongFooter, WrongEnd, Handle, Falls, Reason;
    HandleIs(dev, st, files, block);
  }

  /** A block that ends with the header. */
  lemma HeaderEnds(dev: Device, u: Upload, st: State, files: Files, k: nat, block: seq<Byte>)
    requires Sound(dev, u) && Ready(dev, u, files) && Fed(u) && HeaderFits(u.header) && Typed(st)
    requires InHeader(u, st, k) && st.buff == Fill(0, HEADER_SIZE)
    requires k + |block| <= |FileBytes(u)| && block == FileBytes(u)[k..k + |block|]
    requires k + |block| == HEADER_SIZE
    ensures StaysAstray(u, HEADER_SIZE, Handle(dev, st, files, block), |block|, HEADER_SIZE)
  {
    FileSlices(u, 0, 0);
    HeaderPrefix(u, st, k, block, |block|);
    var st1 := st.(raw := Overwrite(st.raw, k, block[..|block|]), used := k + |block|);
    ReasonHolds(u);
    hide Sound, Ready, AcceptHeader, HeaderBytes, HeaderFits, Overwrite, Body, FileBytes, Chunks, Shifted, AmongChunks,
         AmongFooter, WrongEnd, Handle, Falls, Reason;
    HandleIs(dev, st, files, block);
    HeaderCompletes(dev, u, st1, files, HEADER_SIZE);
    var p := AcceptHeader(dev, st1, files);
    assert p.st.(used := HEADER_SIZE) == p.st;
  }

  /** A block that goes past the header, when there are too many chunks. */
  lemma HeaderPassed(dev: Device, u: Upload, st: State, files: Files, k: nat, block: seq<Byte>)
    requires Sound(dev, u) && Ready(dev, u, files) && Fed(u) && HeaderFits(u.header) && Typed(st)
    requires InHeader(u, st, k) && st.buff == Fill(0, HEADER_SIZE)
    requires k + |block| <= |FileBytes(u)| && block == FileBytes(u)[k..k + |block|]
    requires k + |block| > HEADER_SIZE && Reason(u, 0)
    ensures StaysAstray(u, 0, Handle(dev, st, files, block), |block|, k + |block| - HEADER_SIZE)
  {
    hide *;
    HeaderParts(u, st, k);
    var size := 59 - k;
    var st1 := st.(raw := Overwrite(st.raw, k, block[..size]), used := 59);
    FileSlices(u, 0, 0);
    PhasePastHeader(dev, st, files, block);
    HeaderPrefix(u, st, k, block, size);
    TypedStays(st, Overwrite(st.raw, k, block[..size]), 59);
    HeaderCompletes(dev, u, st1, files, 0);
    var p := AcceptHeader(dev, st1, files);
    TypedOn(p, 0);
    HandleIs(dev, st, files, block);
    BodyUnshifted(u, k + |block| - 59);
    FallsStray(dev, u, 0, p.st.(used := 0), p.files, 0, block[size..], |block|);
  }

  lemma HeaderParts(u: Upload, st: State, k: nat)
    requires HeaderFits(u.header) && InHeader(u, st, k)
    ensures HEADER_SIZE == 59 && st.used == k < HEADER_SIZE && st.step == AtHeader && st.offset == st.count == 0
    ensures Typed(st) && |st.raw| == HEADER_SIZE
  {
    hide HeaderBytes, HeaderFits;
  }

  lemma TypedStays(st: State, raw: seq<Byte>, used: nat)
    requires Typed(st) && |raw| == HEADER_SIZE
    ensures Typed(st.(raw := raw, used := used))
  {
  }

  lemma TypedOn(p: Phase, used: nat)
    requires WellTyped(p) && p.Continue?
    ensures Typed(p.st.(used := used))
  {
  }

  lemma PhasePastHeader(dev: Device, st: State, files: Files, block: seq<Byte>)
    requires Typed(st) && st.used < HEADER_SIZE < st.used + |block|
    ensures var size := HEADER_SIZE - st.used;
            var st1 := st.(raw := Overwrite(st.raw, st.used, block[..size]), used := HEADER_SIZE);
            var p := AcceptHeader(dev, st1, files);
            p.Continue? ==> HeaderPhase(dev, st, files, block) == Continue(p.st.(used := 0), p.files, block[size..])
  {
    hide AcceptHeader, Overwrite;
  }

  lemma BodyUnshifted(u: Upload, n: nat)
    requires n <= |Body(u)|
    ensures n <= |Shifted(u, 0)| && Body(u)[..n] == Shifted(u, 0)[0..n]
  {
    Unshifted(u);
  }

  lemma ReasonHolds(u: Upload)
    requires u.header.descriptor.chunkSize > 0
    ensures Reason(u, HEADER_SIZE)
  {
  }

  lemma Unshifted(u: Upload)
    ensures Shifted(u, 0) == Body(u)
  {
  }

  /** From inside the header: success takes a header that no block ends with, and few enough chunks. */
  lemma {:induction false} FeedNeeds(dev: Device, u: Upload, st: State, files: Files, k: nat, blocks: seq<seq<Byte>>)
    requires Sound(dev, u) && Ready(dev, u, files) && Fed(u) && HeaderFits(u.header) && Typed(st)
    requires InHeader(u, st, k) && st.buff == Fill(0, HEADER_SIZE) && u.header.descriptor.chunkSize > 0
    requires k <= |FileBytes(u)| && Joined(blocks) == FileBytes(u)[k..]
    requires Succeeds(u, Feed(dev, st, files, blocks))
    ensures AllClear(k, blocks) && Chunks(|u.code|, u.header.descriptor.chunkSize) <= U16
    decreases |blocks|
  {
    hide *;
    FileSlices(u, 0, 0);
    InHeaderStep(dev, u, st, files, k, blocks);
    var block, end := blocks[0], k + |blocks[0]|;
    FirstBlock(FileBytes(u), k, blocks);
    var o := Handle(dev, st, files, block);
    ClearFirst(k, blocks);
    if end < HEADER_SIZE {
      HeaderGoesOn(dev, u, st, files, k, block);
      FeedNeeds(dev, u, o.st, o.files, end, blocks[1..]);
    } else {
      AlwaysClear(end, blocks[1..]);
      RestOfFile(u, end);
      if end == HEADER_SIZE {
        HeaderEnds(dev, u, st, files, k, block);
        AfterBlock(dev, u, HEADER_SIZE, o, HEADER_SIZE, |block|, blocks[1..]);
      } else if Reason(u, 0) {
        HeaderPassed(dev, u, st, files, k, block);
        AfterBlock(dev, u, 0, o, end - HEADER_SIZE, |block|, blocks[1..]);
      } else {
        OtherwiseFew(u);
      }
    }
  }

  lemma FirstBlock(file: seq<Byte>, k: nat, blocks: seq<seq<Byte>>)
    requires k <= |file| && Joined(blocks) == file[k..] && blocks != []
    ensures k + |blocks[0]| <= |file| && blocks[0] == file[k..k + |blocks[0]|]
    ensures Joined(blocks[1..]) == file[k + |blocks[0]|..]
  {
    var block := blocks[0];
    assert file[k..][..|block|] == block && file[k..][|block|..] == Joined(blocks[1..]);
  }

  lemma ClearFirst(k: nat, blocks: seq<seq<Byte>>)
    requires blocks != []
    ensures AllClear(k, blocks) <==>
            (k < HEADER_SIZE ==> k + |blocks[0]| != HEADER_SIZE) && AllClear(k + |blocks[0]|, blocks[1..])
  {
  }

  lemma OtherwiseFew(u: Upload)
    requires u.header.descriptor.chunkSize > 0 && !Reason(u, 0)
    ensures Chunks(|u.code|, u.header.descriptor.chunkSize) <= U16
  {
    hide Chunks;
  }

  lemma AfterBlock(dev: Device, u: Upload, s: nat, o: Outcome, pos: nat, size: nat, blocks: seq<seq<Byte>>)
    requires Fed(u) && StaysAstray(u, s, o, size, pos) && o.Return? && o.ret == size && Typed(o.st)
    requires pos <= |Shifted(u, s)| && Joined(blocks) == Shifted(u, s)[pos..]
    ensures !Succeeds(u, Feed(dev, o.st, o.files, blocks))
  {
    hide Shifted, Feed, Astray, Succeeds, Fed;
    FeedStrays(dev, u, s, o.st, o.files, pos, blocks);
  }

  /** A successful transfer hands over another block, which is accepted. */
  lemma InHeaderStep(dev: Device, u: Upload, st: State, files: Files, k: nat, blocks: seq<seq<Byte>>)
    requires HeaderFits(u.header) && InHeader(u, st, k) && Typed(st)
    requires Succeeds(u, Feed(dev, st, files, blocks))
    ensures st.step == AtHeader && k < HEADER_SIZE && blocks != []
    ensures var o := Handle(dev, st, files, blocks[0]);
            o.Return? && o.ret == |blocks[0]| && Typed(o.st) && Succeeds(u, Feed(dev, o.st, o.files, blocks[1..]))
  {
    hide HeaderBytes, HeaderFits, Handle, Contents, DataId;
  }

  lemma RestOfFile(u: Upload, k: nat)
    requires HeaderFits(u.header) && HEADER_SIZE <= k <= |FileBytes(u)|
    ensures k - HEADER_SIZE <= |Shifted(u, 0)| && FileBytes(u)[k..] == Shifted(u, 0)[k - HEADER_SIZE..]
    ensures k == HEADER_SIZE ==> FileBytes(u)[k..] == Shifted(u, HEADER_SIZE)[HEADER_SIZE..]
  {
    FileSlices(u, k, HEADER_SIZE + |Body(u)|);
    Unshifted(u);
    hide FileBytes, HeaderBytes, HeaderFits;
  }

  lemma {:induction false} AlwaysClear(k: nat, blocks: seq<seq<Byte>>)
    requires k >= HEADER_SIZE
    ensures AllClear(k, blocks)
    decreases |blocks|
  {
    if blocks != [] {
      AlwaysClear(k + |blocks[0]|, blocks[1..]);
    }
  }

  /** The exact condition, for every division of a consistent file into blocks: a download that starts from
      a zeroed state ends with every block accepted and with the code and the footer in the data file if and
      only if no block ends on the last byte of the header and there are at most 2^16 chunks. */
  lemma TransferSucceeds(dev: Device, u: Upload, st: State, files: Files, blocks: seq<seq<Byte>>)
    requires Sound(dev, u) && Ready(dev, u, files) && Initial(st) && st.buff == Fill(0, HEADER_SIZE)
    requires HeaderFits(u.header) && u.header.descriptor.chunkSize > 0
    requires Joined(blocks) == FileBytes(u)
    ensures Succeeds(u, Feed(dev, st, files, blocks)) <==>
            AllClear(0, blocks) && Chunks(|u.code|, u.header.descriptor.chunkSize) <= U16
  {
    InitialInHeader(dev, u, st);
    hide Sound, Ready, HeaderBytes, HeaderFits, FileBytes, Chunks, InHeader, Feed, AllClear, Contents, DataId;
    if AllClear(0, blocks) && Chunks(|u.code|, u.header.descriptor.chunkSize) <= U16 {
      AnyDivision(dev, u, st, files, blocks);
    }
    if Succeeds(u, Feed(dev, st, files, blocks)) {
      assert FileBytes(u)[0..] == FileBytes(u);
      FeedNeeds(dev, u, st, files, 0, blocks);
    }
  }

  lemma InitialInHeader(dev: Device, u: Upload, st: State)
    requires Sound(dev, u) && Initial(st)
    ensures HeaderFits(u.header) && Fed(u) && Typed(st) && InHeader(u, st, 0)
  {
    hide FooterScan, ParseDescriptor, DataId, HeaderBytes;
    assert st.raw[..0] == HeaderBytes(u.header)[..0];
  }
}
