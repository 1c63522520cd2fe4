/** The block-wise download of an update file: _store_fw_handler of modules/cloud/src/cloud.c.

    The handler is a switch whose cases fall through. Each case is a phase on values that either goes on
    with the rest of the block or ends the call; `Handle` puts them together, and `Feed` hands over
    blocks until one is not accepted as a whole. The class `Downloader` is the handler with its buffer
    in place. */
module FirmwareDownload {
  import opened Bytes
  import opened Versions
  import opened Firmware
  import opened FirmwareStore

  const MAX_UPDATE_SIZE := 2 * 1024 * 1024

  datatype Step = AtHeader | AtChunks | AtFooter | Finished

  /** fw_resp_buff_t; the header is kept as received and, once complete, in host order. */
  datatype State = State(
    step: Step, raw: seq<Byte>, header: Header, stored: bool,
    offset: nat, quantity: nat, count: nat, buff: seq<Byte>, used: nat)

  /** Return value of the handler, new state and files; Fault where the source leaves its
      buffers or divides by zero. */
  datatype Outcome = Return(st: State, files: Files, ret: int) | Fault

  /** A phase of the handler either falls through with the rest of the block, or ends the call. */
  datatype Phase = Continue(st: State, files: Files, rest: seq<Byte>) | Stop(out: Outcome)

  /** What the handler works with: storage limit and own descriptor. */
  datatype Device = Device(limit: nat, own: Descriptor)

  /** memcpy into a buffer. */
  function Overwrite(b: seq<Byte>, at: nat, data: seq<Byte>): (r: seq<Byte>)
    requires at + |data| <= |b|
    ensures |r| == |b| && r[..at + |data|] == b[..at] + data && r[at + |data|..] == b[at + |data|..]
  {
    b[..at] + data + b[at + |data|..]
  }

  predicate CheckHeader(h: Header) {
    && h.descriptor.length == h.codeLength && h.codeOffset == HEADER_SIZE && h.footerOffset >= h.codeLength
    && (h.footerOffset + h.footerLength) % U32 < MAX_UPDATE_SIZE
  }

  /** The version of a stored record. */
  function RecordVersion(r: seq<Byte>): Version
    requires |r| == DESCRIPTOR_SIZE
  {
    Version(r[20], r[21], r[22], FromLE(r[23..27]), FromLE(r[27..31]))
  }

  /** vs_cloud_is_new_firmware_version_available. */
  function IsNew(files: Files, own: Descriptor, d: Descriptor): bool {
    && CompareOwn(d, own) != OLD_VERSION
    && match Lookup(Contents(files, DESCRIPTORS), Key(d))
       case None => Newer(d.version, Version(0, 0, 0, 0, 0))
       case Some(r) => Newer(d.version, RecordVersion(r))
  }

  /** Removes the old firmware of the same kind, if its descriptor is stored, and stores the new descriptor. */
  function Prepare(files: Files, limit: nat, d: Descriptor): Effect
    requires Fits(d)
  {
    var files1 := if Lookup(Contents(files, DESCRIPTORS), Key(d)).Some? then DeleteEffect(files, limit, d).files
        else files;
    SaveDescriptorEffect(files1, limit, d)
  }

  /** Whole and partial chunks, as the 16-bit counter sees them. */
  function Quantity(h: Header): nat
    requires h.descriptor.chunkSize > 0
  {
    var q := h.codeLength / h.descriptor.chunkSize % U16;
    if h.codeLength % h.descriptor.chunkSize != 0 then (q + 1) % U16 else q
  }

  /** The buffer, replaced by a zeroed one when it is too small. */
  function Grown(buff: seq<Byte>, n: nat): (r: seq<Byte>)
    ensures |r| >= n && |r| >= |buff|
  {
    if n > |buff| then Fill(0, n) else buff
  }

  lemma ParsedFits(b: seq<Byte>)
    requires |b| == HEADER_SIZE
    ensures HeaderFits(ParseHeader(b))
  {
    Words();
    var d := b[17..59];
    forall lo, hi | 0 <= lo <= hi <= 59 && hi - lo == 4
      ensures FromBE(b[lo..hi]) < U32
    {
      FromBEBound(b[lo..hi]);
    }
    forall lo, hi | 0 <= lo <= hi <= 42 && hi - lo == 4
      ensures FromBE(d[lo..hi]) < U32
    {
      FromBEBound(d[lo..hi]);
    }
    FromBEBound(d[32..34]);
    FromBEBound(d[20..31][3..7]);
    FromBEBound(d[20..31][7..11]);
  }

  /** Counters are 16 bits wide and the header has its size. */
  predicate Typed(st: State) {
    |st.raw| == HEADER_SIZE && st.quantity < U16 && st.count < U16
  }

  /** A phase leaves a state of the right shape. */
  predicate WellTyped(p: Phase) {
    match p
    case Continue(st, _, _) => Typed(st)
    case Stop(Return(st, _, _)) => Typed(st)
    case Stop(Fault) => true
  }

  /** The header is complete: checked, converted, and the storage prepared for it. */
  function AcceptHeader(dev: Device, st: State, files: Files): (p: Phase)
    requires Typed(st)
    ensures WellTyped(p)
  {
    ParsedFits(st.raw);
    var h := ParseHeader(st.raw);
    var st1 := st.(header := h);
    if !CheckHeader(h) || !IsNew(files, dev.own, h.descriptor) then Stop(Return(st1, files, 0))
    else
      var e := Prepare(files, dev.limit, h.descriptor);
      if e.code != OK then Stop(Return(st1, e.files, 0))
      else if h.descriptor.chunkSize == 0 then Stop(Fault)
      else
        Continue(st1.(stored := true, quantity := Quantity(h), buff := Grown(st.buff, h.descriptor.chunkSize),
            step := AtChunks),
                 e.files, [])
  }

  function HeaderPhase(dev: Device, st: State, files: Files, block: seq<Byte>): (p: Phase)
    requires Typed(st)
    ensures WellTyped(p)
  {
    if st.used > HEADER_SIZE then Stop(Fault)
    else
      var size := if st.used + |block| > HEADER_SIZE then HEADER_SIZE - st.used else |block|;
      var st1 := st.(raw := Overwrite(st.raw, st.used, block[..size]), used := st.used + size);
      var p := if st1.used == HEADER_SIZE then AcceptHeader(dev, st1, files) else Continue(st1, files, []);
      if p.Stop? then p
      else if size == |block| then Stop(Return(p.st, p.files, |block|))
      else Continue(p.st.(used := 0), p.files, block[size..])
  }

  /** Size of the chunk that is being received. */
  function ChunkLength(h: Header, offset: nat): nat
    requires offset <= h.codeLength
  {
    var rest := h.codeLength - offset;
    if rest > h.descriptor.chunkSize then h.descriptor.chunkSize else rest
  }

  /** Chunks until the counter meets the quantity: at least one, at most 2^16. */
  function RoundsLeft(st: State): (n: nat)
    ensures 1 <= n <= U16
  {
    (st.quantity - st.count - 1) % U16 + 1
  }

  /** A complete chunk is stored; the last one makes room for the footer. */
  function StoreChunk(dev: Device, st: State, files: Files, n: nat): (p: Phase)
    requires n <= |st.buff| && Typed(st)
    ensures WellTyped(p)
  {
    var e := WriteFile(files, dev.limit, DataId(st.header.descriptor), st.offset, st.buff[..n]);
    if e.code != OK then Stop(Return(st.(used := 0), e.files, 0))
    else
      var count := (st.count + 1) % U16;
      var st1 := st.(used := 0, offset := st.offset + n, count := count);
      if count == st.quantity then
        Continue(st1.(buff := Grown(st.buff, st.header.footerLength), step := AtFooter), e.files, [])
      else Continue(st1, e.files, [])
  }

  lemma CounterRuns(st: State, count: nat)
    requires Typed(st) && count == (st.count + 1) % U16
    ensures count == st.quantity <==> RoundsLeft(st) == 1
    ensures count != st.quantity ==> RoundsLeft(st.(count := count)) == RoundsLeft(st) - 1
  {
  }

  /** One round of the chunk loop. */
  function ChunkRound(dev: Device, st: State, files: Files, rest: seq<Byte>): (p: Phase)
    requires Typed(st)
    ensures WellTyped(p) && (p.Continue? ==> |p.rest| <= |rest|)
    ensures p.Continue? && |p.rest| == |rest| && rest != [] && st.step == p.st.step == AtChunks
            ==> RoundsLeft(p.st) < RoundsLeft(st)
  {
    if st.offset > st.header.codeLength then Stop(Fault)
    else
      var length := ChunkLength(st.header, st.offset);
      if st.used > length then Stop(Fault)
      else
        var size := if st.used + |rest| > length then length - st.used else |rest|;
        if st.used + size > |st.buff| then Stop(Fault)
        else
          var st1 := st.(buff := Overwrite(st.buff, st.used, rest[..size]), used := st.used + size);
          if st1.used == length then
            CounterRuns(st, (st.count + 1) % U16);
            match StoreChunk(dev, st1, files, length)
            case Stop(out) => Stop(out)
            case Continue(st2, files2, _) => Continue(st2, files2, rest[size..])
          else Continue(st1, files, rest[size..])
  }

  /** The chunk loop. */
  function ChunkPhase(dev: Device, st: State, files: Files, rest: seq<Byte>): (p: Phase)
    requires Typed(st)
    ensures WellTyped(p)
    decreases |rest|, RoundsLeft(st)
  {
    if rest == [] || st.step != AtChunks then Continue(st, files, rest)
    else
      match ChunkRound(dev, st, files, rest)
      case Stop(out) => Stop(out)
      case Continue(st1, files1, rest1) =>
        if st1.step == AtChunks then ChunkPhase(dev, st1, files1, rest1) else Continue(st1, files1, rest1)
  }

  function FooterPhase(dev: Device, st: State, files: Files, rest: seq<Byte>, blockSize: nat): (o: Outcome)
    requires Typed(st)
    ensures o.Return? ==> Typed(o.st)
  {
    var h := st.header;
    if st.used + |rest| > h.footerLength then Return(st, files, 0)
    else if st.used + |rest| > |st.buff| || |st.buff| < FOOTER_META_SIZE then Fault
    else
      var st1 := st.(buff := Overwrite(st.buff, st.used, rest), used := st.used + |rest|);
      if st1.used != h.footerLength then Return(st1, files, blockSize)
      else
        var st2 := st1.(used := 0);
        if ParseDescriptor(st2.buff[1..43]) != h.descriptor then Return(st2, files, ERR_INCORRECT_ARGUMENT)
        else
          var scan := FooterScan(st2.buff);
          if scan == Outside || (scan.Size? && scan.size > |st2.buff|) then Fault
          else
            var e := SaveFooterEffect(files, dev.limit, h.descriptor, st2.buff);
            if e.code != OK then Return(st2, e.files, 0) else Return(st2.(step := Finished), e.files, blockSize)
  }

  /** A whole call of the handler. */
  function Handle(dev: Device, st: State, files: Files, block: seq<Byte>): (o: Outcome)
    requires Typed(st)
    ensures o.Return? ==> Typed(o.st)
  {
    if st.step == Finished then Return(st, files, |block|)
    else
      var p := if st.step == AtHeader then HeaderPhase(dev, st, files, block) else Continue(st, files, block);
      if p.Stop? then p.out
      else
        var q := ChunkPhase(dev, p.st, p.files, p.rest);
        if q.Stop? then q.out
        else if q.rest == [] && st.step != AtFooter then Return(q.st, q.files, |block|)
        else FooterPhase(dev, q.st, q.files, q.rest, |block|)
  }

  /** A transfer: blocks are handed over until one is not accepted as a whole. */
  function Feed(dev: Device, st: State, files: Files, blocks: seq<seq<Byte>>): Outcome
    requires Typed(st)
    decreases |blocks|
  {
    if blocks == [] then Return(st, files, OK)
    else
      match Handle(dev, st, files, blocks[0])
      case Fault => Fault
      case Return(st1, files1, ret) =>
        if ret == |blocks[0]| then Feed(dev, st1, files1, blocks[1..]) else Return(st1, files1, ERR_FILE)
  }

  // ---------------------------------------------------------------- the handler in place

  method CopyIn(a: array<Byte>, at: nat, data: seq<Byte>)
    requires at + |data| <= a.Length
    modifies a
    ensures a[..] == Overwrite(old(a[..]), at, data)
  {
    var i := 0;
    while i < |data|
      invariant 0 <= i <= |data|
      invariant forall k :: 0 <= k < a.Length ==> a[k] == if at <= k < at + i then data[k - at] else old(a[k])
    {
      a[at + i] := data[i];
      i := i + 1;
    }
    assert a[..] == Overwrite(old(a[..]), at, data);
  }

  class Downloader {
    const device: Device
    const storage: Storage
    const raw: array<Byte>
    var step: Step
    var header: Header
    var stored: bool
    var offset: nat
    var quantity: nat
    var count: nat
    var buff: array<Byte>
    var used: nat

    /** The zeroed state a download starts with. */
    constructor (device: Device, storage: Storage)
      requires storage.limit == device.limit
      ensures Valid() && this.device == device && this.storage == storage && fresh(raw) && fresh(buff)
      ensures View().step == AtHeader && View().used == View().offset == View().count == View().quantity == 0
      ensures View().raw == View().buff == Fill(0, HEADER_SIZE) && !View().stored
    {
      this.device, this.storage, raw, buff := device, storage, new Byte[59](_ => 0), new Byte[59](_ => 0);
      step, stored, offset, quantity, count, used := AtHeader, false, 0, 0, 0, 0;
      var d := Descriptor(Fill(0, 16), Fill(0, 4), Version(0, 0, 0, 0, 0), 0, 0, 0, 0);
      header := Header(0, 0, 0, 0, 0, d);
    }

    ghost predicate Valid()
      reads this
    {
      && raw.Length == HEADER_SIZE && raw != buff && storage.limit == device.limit
      && quantity < U16 && count < U16
    }

    ghost function View(): (st: State)
      reads this, raw, buff
    {
      State(step, raw[..], header, stored, offset, quantity, count, buff[..], used)
    }

    /** What a phase leaves behind: it has ended the call with ret, or goes on with rest. */
    ghost predicate Reached(p: Phase, done: bool, ret: int, rest: seq<Byte>)
      reads this, raw, buff, storage
    {
      match p
      case Continue(st, files, rest') => !done && View() == st && storage.files == files && rest == rest'
      case Stop(Return(st, files, r)) => done && View() == st && storage.files == files && ret == r
      case Stop(Fault) => false
    }

    method GrowBuffer(n: nat)
      requires Valid()
      modifies this`buff
      ensures Valid() && (buff == old(buff) || fresh(buff)) && buff[..] == Grown(old(buff[..]), n)
    {
      if n > buff.Length {
        buff := new Byte[n](_ => 0);
        assert buff[..] == Fill(0, n);
      }
    }

    method PrepareStorage() returns (code: int)
      requires Valid() && Fits(header.descriptor)
      modifies storage`files
      ensures Effect(code, storage.files) == Prepare(old(storage.files), device.limit, header.descriptor)
    {
      hide DeleteEffect, SaveDescriptorEffect, Lookup;
      var old_, r := storage.LoadDescriptor(Key(header.descriptor));
      if old_ == OK {
        var deleted := storage.DeleteFirmware(header.descriptor);
      }
      code := storage.SaveDescriptor(header.descriptor);
    }

    method IsNewer() returns (b: bool)
      requires Valid() && Fits(header.descriptor)
      ensures b == IsNew(storage.files, device.own, header.descriptor)
    {
      if CompareOwn(header.descriptor, device.own) == OLD_VERSION {
        return false;
      }
      var current := Version(0, 0, 0, 0, 0);
      var code, r := storage.LoadDescriptor(Key(header.descriptor));
      if code == OK {
        current := RecordVersion(r);
      }
      return Compare(header.descriptor.version, current) == OK;
    }

    method TakeHeader() returns (done: bool, ret: int)
      requires Valid() && AcceptHeader(device, View(), storage.files) != Stop(Fault)
      modifies this, storage`files
      ensures Valid() && (buff == old(buff) || fresh(buff))
      ensures Reached(AcceptHeader(device, old(View()), old(storage.files)), done, ret, [])
    {
      hide Prepare, IsNew, CheckHeader, ParseHeader, Grown;
      ParsedFits(raw[..]);
      header := ParseHeader(raw[..]);
      var ok := CheckHeader(header);
      if ok {
        ok := IsNewer();
      }
      if !ok {
        return true, 0;
      }
      var code := PrepareStorage();
      if code != OK {
        return true, 0;
      }
      stored := true;
      quantity := Quantity(header);
      GrowBuffer(header.descriptor.chunkSize);
      step := AtChunks;
      return false, 0;
    }

    method StoreHeader(block: seq<Byte>) returns (done: bool, ret: int, rest: seq<Byte>)
      requires Valid() && HeaderPhase(device, View(), storage.files, block) != Stop(Fault)
      modifies this, raw, storage`files
      ensures Valid() && (buff == old(buff) || fresh(buff))
      ensures Reached(HeaderPhase(device, old(View()), old(storage.files), block), done, ret, rest)
    {
      hide AcceptHeader;
      var size := |block|;
      if used + |block| > HEADER_SIZE {
        size := HEADER_SIZE - used;
      }
      CopyIn(raw, used, block[..size]);
      used := used + size;
      done := false;
      rest := [];
      if used == HEADER_SIZE {
        done, ret := TakeHeader();
        if done {
          return;
        }
      }
      if size == |block| {
        return true, |block|, [];
      }
      used := 0;
      rest := block[size..];
    }

    /** A complete chunk is in the buffer. */
    method StoreBuffered(n: nat) returns (done: bool, ret: int)
      requires Valid() && n <= buff.Length
      modifies this, storage`files
      ensures Valid() && (buff == old(buff) || fresh(buff))
      ensures Reached(StoreChunk(device, old(View()), old(storage.files), n), done, ret, [])
    {
      hide WriteFile, Grown;
      used := 0;
      var code := storage.SaveChunk(header.descriptor, buff[..n], offset);
      if code != OK {
        return true, 0;
      }
      offset := offset + n;
      count := (count + 1) % U16;
      if count == quantity {
        GrowBuffer(header.footerLength);
        step := AtFooter;
      }
      return false, 0;
    }

    method StoreRound(block: seq<Byte>) returns (done: bool, ret: int, rest: seq<Byte>)
      requires Valid() && ChunkRound(device, View(), storage.files, block) != Stop(Fault)
      modifies this, buff, storage`files
      ensures Valid() && (buff == old(buff) || fresh(buff))
      ensures Reached(ChunkRound(device, old(View()), old(storage.files), block), done, ret, rest)
    {
      hide StoreChunk;
      var length := ChunkLength(header, offset);
      var size := |block|;
      if used + |block| > length {
        size := length - used;
      }
      CopyIn(buff, used, block[..size]);
      rest := block[size..];
      used := used + size;
      done, ret := false, 0;
      if used == length {
        done, ret := StoreBuffered(length);
      }
    }

    method StoreChunks(block: seq<Byte>) returns (done: bool, ret: int, rest: seq<Byte>)
      requires Valid() && ChunkPhase(device, View(), storage.files, block) != Stop(Fault)
      modifies this, buff, storage`files
      ensures Valid() && (buff == old(buff) || fresh(buff))
      ensures Reached(ChunkPhase(device, old(View()), old(storage.files), block), done, ret, rest)
    {
      hide ChunkRound;
      rest, done, ret := block, false, 0;
      while rest != [] && step == AtChunks
        invariant Valid() && (buff == old(buff) || fresh(buff))
        invariant ChunkPhase(device, View(), storage.files, rest)
                  == ChunkPhase(device, old(View()), old(storage.files), block)
        decreases |rest|, if step == AtChunks then RoundsLeft(View()) else 0
      {
        done, ret, rest := StoreRound(rest);
        if done {
          return;
        }
      }
    }

    method StoreFooter(rest: seq<Byte>, blockSize: nat) returns (ret: int)
      requires Valid() && FooterPhase(device, View(), storage.files, rest, blockSize) != Fault
      modifies this, buff, storage`files
      ensures Valid() && buff == old(buff)
      ensures Return(View(), storage.files, ret)
              == FooterPhase(device, old(View()), old(storage.files), rest, blockSize)
    {
      hide SaveFooterEffect, ParseDescriptor, FooterScan;
      if used + |rest| > header.footerLength {
        return 0;
      }
      CopyIn(buff, used, rest);
      used := used + |rest|;
      if used == header.footerLength {
        used := 0;
        if header.descriptor != ParseDescriptor(buff[1..43]) {
          return ERR_INCORRECT_ARGUMENT;
        }
        var code := storage.SaveFooter(header.descriptor, buff[..]);
        if code != OK {
          return 0;
        }
        step := Finished;
      }
      return blockSize;
    }

    /** _store_fw_handler. */
    method Store(block: seq<Byte>) returns (ret: int)
      requires Valid() && Handle(device, View(), storage.files, block) != Fault
      modifies this, raw, buff, storage`files
      ensures Valid() && (buff == old(buff) || fresh(buff))
      ensures Return(View(), storage.files, ret) == Handle(device, old(View()), old(storage.files), block)
    {
      hide HeaderPhase, ChunkPhase, FooterPhase;
      if step == Finished {
        return |block|;
      }
      var began := step;
      var rest, done := block, false;
      if step == AtHeader {
        done, ret, rest := StoreHeader(block);
        if done {
          return;
        }
      }
      done, ret, rest := StoreChunks(rest);
      if done {
        return;
      }
      if rest == [] && began != AtFooter {
        return |block|;
      }
      ret := StoreFooter(rest, |block|);
    }

    /** The transfer loop that calls the handler. */
    method Receive(blocks: seq<seq<Byte>>) returns (code: int)
      requires Valid() && Feed(device, View(), storage.files, blocks) != Fault
      modifies this, raw, buff, storage`files
      ensures Valid() && Return(View(), storage.files, code) == Feed(device, old(View()), old(storage.files), blocks)
    {
      hide Handle;
      var i := 0;
      assert blocks[0..] == blocks;
      while i < |blocks|
        invariant 0 <= i <= |blocks| && Valid() && (buff == old(buff) || fresh(buff))
        invariant Feed(device, View(), storage.files, blocks[i..])
                  == Feed(device, old(View()), old(storage.files), blocks)
      {
        assert blocks[i..][1..] == blocks[i + 1..];
        var ret := Store(blocks[i]);
        if ret != |blocks[i]| {
          return ERR_FILE;
        }
        i := i + 1;
      }
      code := OK;
    }
  }
}
