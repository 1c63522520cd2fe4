/** SNAP frames and their reassembly from a byte stream: _packet_sz, _accept_packet and _snap_rx_cb
    of modules/protocols/snap/src/snap.c, the frame layout of snap-structs.h. */
module Snap {
  import opened Bytes

  const MAC_SIZE := 6
  const HEADER_SIZE := 32
  const BUFFER_SIZE := 1024
  const U16 := 0x1_0000
  const U32 := 0x1_0000_0000

  const BROADCAST: seq<Byte> := [0xFF, 0xFF, 0xFF, 0xFF, 0xFF, 0xFF]

  /** vs_snap_packet_t in host order, with its content. */
  datatype Packet = Packet(
    dest: seq<Byte>, src: seq<Byte>, etype: nat,
    transaction: nat, service: nat, element: nat, flags: nat, padding: nat, content: seq<Byte>)

  predicate ValidPacket(p: Packet) {
    && |p.dest| == MAC_SIZE && |p.src| == MAC_SIZE && p.etype < U16
    && p.transaction < U16 && p.service < U32 && p.element < U32 && p.flags < U32 && p.padding < U16
    && |p.content| < U16
  }

  /** vs_snap_packet_t_encode: what goes on the wire. */
  function Encode(p: Packet): (f: seq<Byte>)
    requires ValidPacket(p)
    ensures |f| == HEADER_SIZE + |p.content|
  {
    p.dest + p.src + BE(p.etype, 2) + BE(p.transaction, 2) + BE(p.service, 4) + BE(p.element, 4)
    + BE(p.flags, 4) + BE(p.padding, 2) + BE(|p.content|, 2) + p.content
  }

  /** vs_snap_packet_t_decode of one whole frame. */
  function Decode(f: seq<Byte>): Packet
    requires |f| >= HEADER_SIZE
  {
    Packet(f[0..6], f[6..12], FromBE(f[12..14]), FromBE(f[14..16]), FromBE(f[16..20]), FromBE(f[20..24]),
           FromBE(f[24..28]), FromBE(f[28..30]), f[32..])
  }

  /** The size the header announces; _packet_sz keeps its low 16 bits. */
  function Size(f: seq<Byte>): (n: nat)
    requires |f| >= HEADER_SIZE
    ensures n >= HEADER_SIZE
  {
    HEADER_SIZE + FromBE(f[30..32])
  }

  /** One frame, complete and small enough for the packet buffer. */
  predicate Frame(f: seq<Byte>) {
    HEADER_SIZE <= |f| <= BUFFER_SIZE && |f| == Size(f)
  }

  /** _accept_packet. */
  predicate Accepts(mine: seq<Byte>, dest: seq<Byte>, src: seq<Byte>) {
    src != mine && (dest == BROADCAST || dest == mine)
  }

  predicate Admits(mine: seq<Byte>, f: seq<Byte>)
    requires |f| >= HEADER_SIZE
  {
    Accepts(mine, f[0..6], f[6..12])
  }

  lemma DecodedAddresses(mine: seq<Byte>, f: seq<Byte>)
    requires |f| >= HEADER_SIZE
    ensures Accepts(mine, Decode(f).dest, Decode(f).src) == Admits(mine, f)
  {
    hide FromBE;
  }

  lemma WidthBounds()
    ensures Pow256(2) == U16 && Pow256(4) == U32
  {
    assert Pow256(1) == 256 * Pow256(0);
    assert Pow256(3) == 256 * Pow256(2);
  }

  lemma EncodeFields(p: Packet)
    requires ValidPacket(p)
    ensures var f := Encode(p);
            && f[0..6] == p.dest && f[6..12] == p.src && f[12..14] == BE(p.etype, 2)
            && f[14..16] == BE(p.transaction, 2) && f[16..20] == BE(p.service, 4) && f[20..24] == BE(p.element, 4)
            && f[24..28] == BE(p.flags, 4) && f[28..30] == BE(p.padding, 2) && f[30..32] == BE(|p.content|, 2)
            && f[32..] == p.content
  {
    hide BE;
  }

  /** Decoding what was encoded gives the packet back, and the frame announces its own length. */
  lemma PacketRoundTrip(p: Packet)
    requires ValidPacket(p)
    ensures Decode(Encode(p)) == p
    ensures Size(Encode(p)) == |Encode(p)|
  {
    hide BE, FromBE, Encode, Pow256;
    EncodeFields(p);
    WidthBounds();
    BERoundTrip(p.etype, 2);
    BERoundTrip(p.transaction, 2);
    BERoundTrip(p.service, 4);
    BERoundTrip(p.element, 4);
    BERoundTrip(p.flags, 4);
    BERoundTrip(p.padding, 2);
    BERoundTrip(|p.content|, 2);
  }

  /** Every frame comes from a packet: nothing but the content size is dropped when decoding. */
  lemma FrameRoundTrip(f: seq<Byte>)
    requires Frame(f)
    ensures ValidPacket(Decode(f)) && Encode(Decode(f)) == f
  {
    hide BE, FromBE, Pow256;
    WidthBounds();
    FromBEBound(f[12..14]);
    FromBEBound(f[14..16]);
    FromBEBound(f[16..20]);
    FromBEBound(f[20..24]);
    FromBEBound(f[24..28]);
    FromBEBound(f[28..30]);
    BEOfFromBE(f[12..14]);
    BEOfFromBE(f[14..16]);
    BEOfFromBE(f[16..20]);
    BEOfFromBE(f[20..24]);
    BEOfFromBE(f[24..28]);
    BEOfFromBE(f[28..30]);
    BEOfFromBE(f[30..32]);
    FrameParts(f);
  }

  lemma FrameParts(f: seq<Byte>)
    requires |f| >= HEADER_SIZE
    ensures f == f[0..6] + f[6..12] + f[12..14] + f[14..16] + f[16..20] + f[20..24]
                 + f[24..28] + f[28..30] + f[30..32] + f[32..]
  {
  }

  /** Result of the receive callback: bytes kept for later, a packet handed up, or a copy past the
      packet buffer (or a size that does not fit 16 bits). */
  datatype Outcome = Waiting(buf: seq<Byte>) | Delivered(p: Packet) | Fault

  /** Not yet a whole frame. */
  predicate Incomplete(s: seq<Byte>) {
    |s| < HEADER_SIZE || |s| < Size(s)
  }

  /** _snap_rx_cb with buf in the packet buffer, on the block data: only a frame that was completed in
      the packet buffer, or is left there, has to fit it. */
  function Rx(mine: seq<Byte>, buf: seq<Byte>, data: seq<Byte>): Outcome
    requires Incomplete(buf)
    decreases |data|
  {
    var s := buf + data;
    if data == [] then Waiting(buf)
    else if |s| < HEADER_SIZE then Waiting(s)
    else if Size(s) >= U16 then Fault
    else if |s| < Size(s) then if |s| > BUFFER_SIZE then Fault else Waiting(s)
    else if buf != [] && Size(s) > BUFFER_SIZE then Fault
    else if Admits(mine, s) then Delivered(Decode(s[..Size(s)]))
    else
      BufferIsShort(buf, data);
      Rx(mine, [], s[Size(s)..])
  }

  lemma BufferIsShort(buf: seq<Byte>, data: seq<Byte>)
    requires Incomplete(buf) && |buf + data| >= HEADER_SIZE
    ensures |buf| < Size(buf + data)
    ensures |buf| >= HEADER_SIZE ==> Size(buf) == Size(buf + data)
  {
    if |buf| >= HEADER_SIZE {
      assert (buf + data)[30..32] == buf[30..32];
    }
  }

  /** Blocks received one after the other, until a packet is handed up. */
  function Feed(mine: seq<Byte>, buf: seq<Byte>, blocks: seq<seq<Byte>>): Outcome
    requires Incomplete(buf)
    decreases |blocks|
  {
    if blocks == [] then Waiting(buf)
    else
      RxIncomplete(mine, buf, blocks[0]);
      match Rx(mine, buf, blocks[0])
      case Waiting(b) => Feed(mine, b, blocks[1..])
      case other => other
  }

  lemma {:induction false} RxIncomplete(mine: seq<Byte>, buf: seq<Byte>, data: seq<Byte>)
    requires Incomplete(buf)
    ensures Rx(mine, buf, data).Waiting? ==> Incomplete(Rx(mine, buf, data).buf)
    decreases |data|
  {
    var s := buf + data;
    if data != [] && !Incomplete(s) {
      BufferIsShort(buf, data);
      RxIncomplete(mine, [], s[Size(s)..]);
    }
  }

  /** The frames of a stream looked at one by one, with no blocks and no buffer. */
  function Scan(mine: seq<Byte>, s: seq<Byte>): Outcome
    decreases |s|
  {
    if Incomplete(s) then Waiting(s)
    else if Admits(mine, s) then Delivered(Decode(s[..Size(s)]))
    else Scan(mine, s[Size(s)..])
  }

  /** Up to the first packet admitted, every frame whose header has arrived fits the packet buffer. */
  predicate Sized(mine: seq<Byte>, s: seq<Byte>)
    decreases |s|
  {
    |s| >= HEADER_SIZE ==>
      && Size(s) <= BUFFER_SIZE
      && (|s| >= Size(s) && !Admits(mine, s) ==> Sized(mine, s[Size(s)..]))
  }

  lemma SizeOfPrefix(s: seq<Byte>, n: nat)
    requires HEADER_SIZE <= n <= |s|
    ensures Size(s[..n]) == Size(s)
    ensures forall mine :: Admits(mine, s[..n]) == Admits(mine, s)
  {
    assert s[..n][30..32] == s[30..32] && s[..n][0..6] == s[0..6] && s[..n][6..12] == s[6..12];
  }

  /** One block on top of the bytes kept does what looking at the whole stream does. */
  lemma {:induction false} RxIsScan(mine: seq<Byte>, buf: seq<Byte>, data: seq<Byte>)
    requires Incomplete(buf) && Sized(mine, buf + data)
    ensures Rx(mine, buf, data) == Scan(mine, buf + data)
    decreases |data|
  {
    hide FromBE, Decode, Admits;
    var s := buf + data;
    if data == [] {
      assert s == buf;
    } else if !Incomplete(s) && !Admits(mine, s) {
      BufferIsShort(buf, data);
      assert [] + s[Size(s)..] == s[Size(s)..];
      RxIsScan(mine, [], s[Size(s)..]);
    }
  }

  /** A scan can stop anywhere and go on with the bytes left over. */
  lemma {:induction false} ScanResumes(mine: seq<Byte>, s: seq<Byte>, t: seq<Byte>)
    requires Sized(mine, s + t)
    ensures Sized(mine, s)
    ensures match Scan(mine, s)
            case Waiting(b) => Incomplete(b) && Sized(mine, b + t) && Scan(mine, s + t) == Scan(mine, b + t)
            case Delivered(p) => Scan(mine, s + t) == Delivered(p)
            case Fault => false
    decreases |s|
  {
    if |s| >= HEADER_SIZE {
      assert s == (s + t)[..|s|];
      SizeOfPrefix(s + t, |s|);
      if |s| >= Size(s) {
        assert (s + t)[..Size(s)] == s[..Size(s)];
        assert (s + t)[Size(s)..] == s[Size(s)..] + t;
        if !Admits(mine, s) {
          ScanResumes(mine, s[Size(s)..], t);
        }
      }
    }
  }

  /** However a stream is cut into blocks, the callback does what a scan of the whole stream does. */
  lemma {:induction false} FeedIsScan(mine: seq<Byte>, buf: seq<Byte>, blocks: seq<seq<Byte>>)
    requires Incomplete(buf) && Sized(mine, buf + Joined(blocks))
    ensures Feed(mine, buf, blocks) == Scan(mine, buf + Joined(blocks))
    decreases |blocks|
  {
    if blocks == [] {
      assert buf + Joined(blocks) == buf;
    } else {
      var t := Joined(blocks[1..]);
      assert buf + Joined(blocks) == (buf + blocks[0]) + t;
      ScanResumes(mine, buf + blocks[0], t);
      RxIsScan(mine, buf, blocks[0]);
      match Scan(mine, buf + blocks[0])
      case Waiting(b) => FeedIsScan(mine, b, blocks[1..]);
      case Delivered(p) =>
    }
  }

  /** A scan passes over frames that are not admitted, each as a whole. */
  lemma {:induction false} ScanSkips(mine: seq<Byte>, frames: seq<seq<Byte>>, s: seq<Byte>)
    requires forall f <- frames :: Frame(f) && !Admits(mine, f)
    ensures Scan(mine, Joined(frames) + s) == Scan(mine, s)
    ensures Sized(mine, Joined(frames) + s) == Sized(mine, s)
    decreases |frames|
  {
    if frames == [] {
      assert Joined(frames) + s == s;
    } else {
      var f, t := frames[0], Joined(frames[1..]) + s;
      assert Joined(frames) + s == f + t;
      assert (f + t)[..|f|] == f && (f + t)[|f|..] == t;
      assert f in frames;
      SizeOfPrefix(f + t, |f|);
      ScanSkips(mine, frames[1..], s);
    }
  }

  /** The first frame admitted is the first packet handed up, in any cut, whatever comes after it;
      the packet is handed up no later than the block that completes it. */
  lemma FirstAdmitted(mine: seq<Byte>, skipped: seq<seq<Byte>>, f: seq<Byte>, more: seq<Byte>, blocks: seq<seq<Byte>>)
    requires forall g <- skipped :: Frame(g) && !Admits(mine, g)
    requires Frame(f) && Admits(mine, f)
    requires Joined(blocks) == Joined(skipped) + f + more
    ensures Feed(mine, [], blocks) == Delivered(Decode(f))
  {
    assert (f + more)[..|f|] == f;
    SizeOfPrefix(f + more, |f|);
    assert Joined(skipped) + f + more == Joined(skipped) + (f + more);
    ScanSkips(mine, skipped, f + more);
    assert [] + Joined(blocks) == Joined(blocks);
    FeedIsScan(mine, [], blocks);
  }

  /** Until then nothing is handed up: whole frames that are not admitted leave no byte behind, and the
      bytes kept are exactly those of the frame under way. */
  lemma NothingEarly(mine: seq<Byte>, skipped: seq<seq<Byte>>, f: seq<Byte>, n: nat, blocks: seq<seq<Byte>>)
    requires forall g <- skipped :: Frame(g) && !Admits(mine, g)
    requires Frame(f) && n < |f|
    requires Joined(blocks) == Joined(skipped) + f[..n]
    ensures Feed(mine, [], blocks) == Waiting(f[..n])
  {
    if n >= HEADER_SIZE {
      SizeOfPrefix(f, n);
    }
    ScanSkips(mine, skipped, f[..n]);
    assert [] + Joined(blocks) == Joined(blocks);
    FeedIsScan(mine, [], blocks);
  }

  /** A frame that is too long for the packet buffer, of which a part is kept, never arrives. */
  lemma {:induction false} LongFrameFaults(mine: seq<Byte>, f: seq<Byte>, kept: nat, blocks: seq<seq<Byte>>)
    requires HEADER_SIZE <= |f| == Size(f) && BUFFER_SIZE < |f| < U16
    requires 0 < kept < |f| && Incomplete(f[..kept]) && Joined(blocks) == f[kept..]
    ensures Feed(mine, f[..kept], blocks) == Fault
    decreases |blocks|
  {
    assert blocks != [];
    var data, end := blocks[0], kept + |blocks[0]|;
    assert f[kept..][..|data|] == data && f[kept..][|data|..] == Joined(blocks[1..]);
    assert f[..kept] + data == f[..end] && f[end..] == Joined(blocks[1..]);
    if end >= HEADER_SIZE {
      SizeOfPrefix(f, end);
    }
    if data == [] || end <= BUFFER_SIZE {
      LongFrameFaults(mine, f, end, blocks[1..]);
    }
  }

  /** Exactly when a frame too long for the packet buffer arrives: when one block is the whole of it. */
  lemma {:induction false} LongFrame(mine: seq<Byte>, f: seq<Byte>, blocks: seq<seq<Byte>>)
    requires HEADER_SIZE <= |f| == Size(f) && BUFFER_SIZE < |f| < U16
    requires Admits(mine, f) && Joined(blocks) == f
    ensures Feed(mine, [], blocks) == if f in blocks then Delivered(Decode(f)) else Fault
    decreases |blocks|
  {
    var data, n := blocks[0], |blocks[0]|;
    assert f[..n] == data && f[n..] == Joined(blocks[1..]) && [] + data == data;
    JoinedHolds(blocks);
    if n == 0 {
      LongFrame(mine, f, blocks[1..]);
    } else if n == |f| {
      assert data == f && f[..|f|] == f;
    } else {
      if n >= HEADER_SIZE {
        SizeOfPrefix(f, n);
      }
      if n <= BUFFER_SIZE {
        LongFrameFaults(mine, f, n, blocks[1..]);
      }
    }
  }

  /** No block behind the first is longer than what is left. */
  lemma {:induction false} JoinedHolds(blocks: seq<seq<Byte>>)
    ensures forall b <- blocks :: |b| <= |Joined(blocks)|
    ensures blocks != [] ==> forall b <- blocks[1..] :: |b| <= |Joined(blocks)| - |blocks[0]|
    decreases |blocks|
  {
    if blocks != [] {
      JoinedHolds(blocks[1..]);
    }
  }

  /** What one pass of the receive loop does with the bytes s kept and received: it completes a frame,
      keeps all of s, or leaves its buffers. */
  predicate Passed(buf: seq<Byte>, data: seq<Byte>, kept: seq<Byte>, used: nat, frame: seq<Byte>, ok: bool)
  {
    var s := buf + data;
    if |s| < HEADER_SIZE then ok && frame == [] && kept == s && used == |data|
    else if Size(s) >= U16 || (|s| < Size(s) && |s| > BUFFER_SIZE)
        || (|s| >= Size(s) > BUFFER_SIZE && buf != []) then !ok
    else if |s| < Size(s) then ok && frame == [] && kept == s && used == |data|
    else ok && frame == s[..Size(s)] && |buf| + used == Size(s)
  }

  lemma PassIsRx(mine: seq<Byte>, buf: seq<Byte>, data: seq<Byte>, kept: seq<Byte>, used: nat, frame: seq<Byte>,
        ok: bool)
    requires Incomplete(buf) && data != [] && Passed(buf, data, kept, used, frame, ok)
    ensures !ok ==> Rx(mine, buf, data) == Fault
    ensures ok && frame == [] ==> Incomplete(kept) && used == |data| && Rx(mine, buf, data) == Waiting(kept)
    ensures ok && frame != [] ==>
              && 0 < used <= |data| && |frame| >= HEADER_SIZE
              && Rx(mine, buf, data) == if Admits(mine, frame) then Delivered(Decode(frame))
                 else Rx(mine, [], data[used..])
  {
    hide FromBE, Decode;
    var s := buf + data;
    if ok && frame != [] {
      BufferIsShort(buf, data);
      SizeOfPrefix(s, Size(s));
      assert s[Size(s)..] == data[used..];
    }
  }

  /** vs_netif_t: the packet buffer and how much of it is filled. */
  class Netif {
    const mac: seq<Byte>
    const packetBuf: array<Byte>
    var filled: nat

    ghost predicate Valid()
      reads this, packetBuf
    {
      packetBuf.Length == BUFFER_SIZE && filled <= BUFFER_SIZE && Incomplete(Kept())
    }

    ghost function Kept(): seq<Byte>
      requires packetBuf.Length == BUFFER_SIZE && filled <= BUFFER_SIZE
      reads this, packetBuf
    {
      packetBuf[..filled]
    }

    constructor (mac: seq<Byte>)
      ensures Valid() && fresh(packetBuf) && Kept() == [] && this.mac == mac
    {
      this.mac := mac;
      packetBuf := new Byte[BUFFER_SIZE];
      filled := 0;
    }

    /** memcpy to the end of what the packet buffer holds. */
    method Append(data: seq<Byte>)
      requires packetBuf.Length == BUFFER_SIZE && filled + |data| <= BUFFER_SIZE
      modifies this`filled, packetBuf
      ensures filled == old(filled) + |data| && Kept() == old(Kept()) + data
    {
      var i := 0;
      while i < |data|
        invariant 0 <= i <= |data| && filled == old(filled)
        invariant packetBuf[..filled + i] == old(packetBuf[..filled]) + data[..i]
      {
        packetBuf[filled + i] := data[i];
        i := i + 1;
      }
      assert data[..i] == data;
      filled := filled + |data|;
    }

    /** One pass of the loop of _snap_rx_cb: the bytes used, and the frame it completes, if any. */
    method Pass(data: seq<Byte>) returns (used: nat, frame: seq<Byte>, ok: bool)
      requires Valid() && data != []
      modifies this`filled, packetBuf
      ensures filled <= BUFFER_SIZE
      ensures Passed(old(Kept()), data, Kept(), used, frame, ok)
    {
      hide FromBE;
      used, frame, ok := 0, [], true;
      if filled == 0 {
        assert Kept() + data == data;
        if |data| >= HEADER_SIZE {
          var size := Size(data);
          if size >= U16 {
            return 0, [], false;
          }
          if |data| < size {
            if |data| > BUFFER_SIZE {
              return 0, [], false;
            }
            Append(data);
            used := |data|;
          } else {
            frame := data[..size];
            used := size;
          }
        } else {
          Append(data);
          used := |data|;
        }
      } else {
        used, frame, ok := Continue(data);
      }
    }

    /** The branch for a packet buffer that already holds bytes: first the header, then the content. */
    method Continue(data: seq<Byte>) returns (used: nat, frame: seq<Byte>, ok: bool)
      requires Valid() && data != [] && filled > 0
      modifies this`filled, packetBuf
      ensures filled <= BUFFER_SIZE
      ensures Passed(old(Kept()), data, Kept(), used, frame, ok)
    {
      hide FromBE, Size;
      ghost var kept := Kept();
      ghost var s := kept + data;
      used, frame, ok := 0, [], true;
      if filled < HEADER_SIZE {
        var need := HEADER_SIZE - filled;
        used := if |data| >= need then need else |data|;
        Append(data[..used]);
      }
      assert Kept() == s[..filled];
      if filled >= HEADER_SIZE {
        SizeOfPrefix(s, filled);
        BufferIsShort(kept, data);
        var size := Size(packetBuf[..filled]);
        if size >= U16 {
          return 0, [], false;
        }
        var need := size - filled;
        var copy := if |data| - used >= need then need else |data| - used;
        if filled + copy > BUFFER_SIZE {
          return 0, [], false;
        }
        ghost var before := filled;
        Append(data[used..used + copy]);
        assert data[used..used + copy] == s[before..filled];
        used := used + copy;
        assert Kept() == s[..filled];
        if filled >= size {
          frame := packetBuf[..filled];
        }
      } else {
        assert Kept() == s;
      }
    }

    /** _snap_rx_cb. */
    method RxCb(data: seq<Byte>) returns (out: Outcome)
      requires Valid()
      modifies this`filled, packetBuf
      ensures out == Rx(mac, old(Kept()), data)
      ensures out.Waiting? ==> Valid() && Kept() == out.buf
    {
      hide FromBE, Size, Passed, Decode;
      var processed := 0;
      while processed < |data|
        invariant processed <= |data| && Valid()
        invariant Rx(mac, old(Kept()), data) == Rx(mac, Kept(), data[processed..])
      {
        ghost var kept, left := Kept(), data[processed..];
        var used, frame, ok := Pass(data[processed..]);
        PassIsRx(mac, kept, left, Kept(), used, frame, ok);
        if !ok {
          return Fault;
        }
        assert left[used..] == data[processed + used..];
        processed := processed + used;
        if frame != [] {
          var packet := Decode(frame);
          DecodedAddresses(mac, frame);
          if Accepts(mac, packet.dest, packet.src) {
            return Delivered(packet);
          }
          filled := 0;
        }
      }
      return Waiting(packetBuf[..filled]);
    }
  }

  /** A byte stream given to the callback block by block. */
  method ReceiveStream(n: Netif, blocks: seq<seq<Byte>>) returns (out: Outcome)
    requires n.Valid()
    modifies n`filled, n.packetBuf
    ensures out == Feed(n.mac, old(n.Kept()), blocks)
    ensures out.Waiting? ==> n.Valid() && n.Kept() == out.buf
  {
    out := Waiting(n.packetBuf[..n.filled]);
    var i := 0;
    assert blocks[0..] == blocks;
    while i < |blocks|
      invariant 0 <= i <= |blocks| && n.Valid() && out == Waiting(n.Kept())
      invariant Feed(n.mac, old(n.Kept()), blocks) == Feed(n.mac, n.Kept(), blocks[i..])
    {
      out := n.RxCb(blocks[i]);
      assert blocks[i..][1..] == blocks[i + 1..];
      if !out.Waiting? {
        return;
      }
      i := i + 1;
    }
  }
}
