/** The Go tool that takes a trust-list file apart and hands its parts to a device:
    tools/virgil-device-initializer/common/trust_list.go and structs.go. */
module TrustListSplit {
  import opened Bytes
  import opened Versions
  import F = Firmware
  import S = TrustListStore
  import K = KeyChain
  import opened TrustListFile
  import opened SignatureBlocks
  import Sha256

  /** Go_vs_pubkey_dated_t. */
  datatype Chunk = Chunk(start: nat, expire: nat, keyType: Byte, ecType: Byte, metaSize: nat, meta: seq<Byte>,
      key: seq<Byte>)

  /** Go_trust_list_header_t. */
  datatype GoHeader = GoHeader(size: nat, version: Version, keys: nat, signatures: Byte)

  datatype Parts = Parts(header: GoHeader, chunks: seq<Chunk>, tlType: Byte, signatures: seq<Signature>)

  /** bytes.Buffer.Next: as many bytes as there are, up to n. */
  function Next(b: seq<Byte>, n: nat): (r: seq<Byte>)
    ensures |r| <= n && |r| <= |b| && b == r + b[|r|..]
  {
    if n <= |b| then b[..n] else b
  }

  /** Number of bytes in the byte order of the machine. */
  function SystemBytes(n: nat, k: nat, littleEndian: bool): seq<Byte> {
    if littleEndian then LE(n, k) else BE(n, k)
  }

  function ChunkBytes(c: Chunk, littleEndian: bool): seq<Byte> {
    SystemBytes(c.start, 4, littleEndian) + SystemBytes(c.expire, 4, littleEndian)
    + [c.keyType, c.ecType] + BE(c.metaSize, 2) + c.meta + c.key
  }

  /** Go_vs_pubkey_dated_t.FromBytes: the chunk and how many bytes it took. */
  function ReadChunk(b: seq<Byte>): (r: Option<(Chunk, nat)>)
    ensures r.Some? ==> r.value.1 <= |b|
  {
    if |b| < 12 then None
    else
      var metaSize := FromBE(b[10..12]);
      var meta := Next(b[12..], metaSize);
      var keySize := F.SignerKeySize(b[9]);
      if keySize < 0 then None
      else
        var key := Next(b[12 + |meta|..], keySize);
        if |key| != keySize then None
        else Some((Chunk(FromLE(b[0..4]), FromLE(b[4..8]), b[8], b[9], metaSize, meta, key), 12 + |meta| + |key|))
  }

  /** Go_vs_sign_t.FromBytes. */
  function ReadSignature(b: seq<Byte>): (r: Option<(Signature, nat)>)
    ensures r.Some? ==> r.value.1 <= |b|
  {
    if |b| < 3 then None
    else
      var signSize, keySize := F.SignerSignatureSize(b[1]), F.SignerKeySize(b[1]);
      if signSize < 0 || keySize < 0 then None
      else
        var sign := Next(b[3..], signSize);
        if |sign| != signSize then None
        else
          var key := Next(b[3 + |sign|..], keySize);
          if |key| != keySize then None
          else Some((F.Signature(b[0], b[1], b[2], sign, key), 3 + |sign| + |key|))
  }

  function ReadHeader(b: seq<Byte>): GoHeader
    requires |b| >= HEADER_SIZE
  {
    GoHeader(FromBE(b[0..4]), F.ParseVersion(b[4..15]), FromBE(b[15..17]), b[17])
  }

  /** count chunks from the front of the data, and what remains. */
  function ReadChunks(b: seq<Byte>, count: nat): (r: Option<(seq<Chunk>, seq<Byte>)>)
    ensures r.Some? ==> |r.value.0| == count
    decreases count
  {
    if count == 0 then Some(([], b))
    else
      match ReadChunk(b)
      case None => None
      case Some((c, n)) =>
        match ReadChunks(b[n..], count - 1)
        case None => None
        case Some((cs, rest)) => Some(([c] + cs, rest))
  }

  function ReadSignatures(b: seq<Byte>, count: nat): (r: Option<(seq<Signature>, seq<Byte>)>)
    ensures r.Some? ==> |r.value.0| == count
    decreases count
  {
    if count == 0 then Some(([], b))
    else
      match ReadSignature(b)
      case None => None
      case Some((s, n)) =>
        match ReadSignatures(b[n..], count - 1)
        case None => None
        case Some((ss, rest)) => Some(([s] + ss, rest))
  }

  /** NewTrustList. */
  function Parse(data: seq<Byte>): Option<Parts> {
    if |data| < HEADER_SIZE then None
    else
      var h := ReadHeader(data);
      match ReadChunks(data[HEADER_SIZE..], h.keys)
      case None => None
      case Some((chunks, rest)) =>
        if rest == [] then None
        else
          match ReadSignatures(rest[1..], h.signatures)
          case None => None
          case Some((signatures, left)) => if left != [] then None else Some(Parts(h, chunks, rest[0], signatures))
  }

  /** What is sent to the device: header, chunks, footer. */
  function SentHeader(p: Parts): seq<Byte> {
    HeaderBytes(p.header.size, p.header.version, p.header.keys, p.header.signatures)
  }

  function SentChunks(cs: seq<Chunk>, littleEndian: bool): (bs: seq<seq<Byte>>)
    ensures |bs| == |cs| && forall i :: 0 <= i < |cs| ==> bs[i] == ChunkBytes(cs[i], littleEndian)
  {
    seq(|cs|, i requires 0 <= i < |cs| => ChunkBytes(cs[i], littleEndian))
  }

  function SentFooter(p: Parts): seq<Byte> {
    [p.tlType] + F.SignaturesBytes(p.signatures)
  }

  // ---------------------------------------------------------------- re-emission

  lemma LittleBig(s: seq<Byte>)
    requires |s| == 4
    ensures LE(FromLE(s), 4) == s
    ensures BE(FromLE(s), 4) == s <==> s[0] == s[3] && s[1] == s[2]
  {
    LEOfFromLE(s);
    Reversed(s);
  }

  lemma Reversed(s: seq<Byte>)
    requires |s| == 4
    ensures BE(FromLE(s), 4) == [s[3], s[2], s[1], s[0]]
  {
    var n := FromLE(s);
    assert FromLE(s[1..]) == s[1] + 256 * FromLE(s[2..]) by { assert s[1..][1..] == s[2..]; }
    assert FromLE(s[2..]) == s[2] + 256 * FromLE(s[3..]) by { assert s[2..][1..] == s[3..]; }
    assert FromLE(s[3..]) == s[3] by { assert s[3..][1..] == []; }
    Digits(s[0], s[1], s[2], s[3]);
    Sha256.WordBytes(n);
  }

  lemma Digits(a: int, b: int, c: int, d: int)
    requires 0 <= a < 256 && 0 <= b < 256 && 0 <= c < 256 && 0 <= d < 256
    ensures var n := a + 256 * (b + 256 * (c + 256 * d));
            && n % 256 == a && n / 0x100 % 256 == b && n / 0x1_0000 % 256 == c && n / 0x100_0000 % 256 == d
  {
  }

  lemma ChunkSlices(a: seq<Byte>, b: seq<Byte>, t: Byte, e: Byte, m: seq<Byte>, meta: seq<Byte>, key: seq<Byte>,
        d: seq<Byte>)
    requires |a| == 4 && |b| == 4 && |m| == 2 && |d| >= 12 + |meta| + |key|
    requires d[8] == t && d[9] == e && d[10..12] == m && d[12..12 + |meta|] == meta
    requires d[12 + |meta|..12 + |meta| + |key|] == key
    ensures a + b + [t, e] + m + meta + key == d[..12 + |meta| + |key|] <==> a == d[0..4] && b == d[4..8]
  {
    var x := a + b + [t, e] + m + meta + key;
    var y := d[..12 + |meta| + |key|];
    assert y == d[0..4] + d[4..8] + [t, e] + m + meta + key;
    assert x[0..4] == a && x[4..8] == b && y[0..4] == d[0..4] && y[4..8] == d[4..8];
  }

  /** Where the fields of a chunk come from. */
  lemma ChunkFields(b: seq<Byte>)
    requires ReadChunk(b).Some?
    ensures var (c, n) := ReadChunk(b).value;
            && |b| >= n == 12 + |c.meta| + |c.key|
            && c.start == FromLE(b[0..4]) && c.expire == FromLE(b[4..8]) && c.keyType == b[8] && c.ecType == b[9]
            && c.metaSize == FromBE(b[10..12]) && b[12..12 + |c.meta|] == c.meta && b[12 + |c.meta|..n] == c.key
  {
    hide FromLE, FromBE;
    var (c, n) := ReadChunk(b).value;
    NextIs(b, 12, c.metaSize);
    NextIs(b, 12 + |c.meta|, F.SignerKeySize(b[9]));
    hide F.SignerKeySize, Next;
  }

  lemma NextIs(b: seq<Byte>, pos: nat, n: int)
    requires pos <= |b|
    ensures n >= 0 ==> pos + |Next(b[pos..], n)| <= |b| && b[pos..pos + |Next(b[pos..], n)|] == Next(b[pos..], n)
  {
  }

  /** A chunk is sent as the very bytes it was read from, on a little-endian machine; on a
      big-endian one exactly when its two dates read the same in both directions. */
  lemma ChunkSent(b: seq<Byte>, littleEndian: bool)
    requires ReadChunk(b).Some?
    ensures var (c, n) := ReadChunk(b).value;
            && n >= 12
            && (ChunkBytes(c, littleEndian) == b[..n] <==>
                  littleEndian || (b[0] == b[3] && b[1] == b[2] && b[4] == b[7] && b[5] == b[6]))
  {
    hide ReadChunk, LE, BE, FromLE, FromBE;
    ChunkFields(b);
    var (c, n) := ReadChunk(b).value;
    LittleBig(b[0..4]);
    LittleBig(b[4..8]);
    BEOfFromBE(b[10..12]);
    ChunkSlices(SystemBytes(c.start, 4, littleEndian), SystemBytes(c.expire, 4, littleEndian),
                c.keyType, c.ecType, BE(c.metaSize, 2), c.meta, c.key, b);
  }

  lemma SignatureSent(b: seq<Byte>)
    requires ReadSignature(b).Some?
    ensures var (s, n) := ReadSignature(b).value;
            n >= 3 && F.SignatureBytes(s) == b[..n]
  {
    var (s, n) := ReadSignature(b).value;
    var i := 3 + |s.sign|;
    assert b[3..i] == s.sign && b[i..n] == s.pubkey;
    assert b[..n] == [b[0], b[1], b[2]] + b[3..i] + b[i..n];
  }

  lemma HeaderSent(b: seq<Byte>)
    requires |b| >= HEADER_SIZE
    ensures var h := ReadHeader(b);
            HeaderBytes(h.size, h.version, h.keys, h.signatures) == b[..HEADER_SIZE]
  {
    var v := b[4..15];
    BEOfFromBE(b[0..4]);
    BEOfFromBE(b[15..17]);
    BEOfFromBE(v[3..7]);
    BEOfFromBE(v[7..11]);
    hide BE, FromBE;
    assert F.VersionBytes(F.ParseVersion(v)) == v by {
      assert v == [v[0], v[1], v[2]] + v[3..7] + v[7..11];
    }
    assert b[..HEADER_SIZE] == b[0..4] + v + b[15..17] + [b[17]];
  }

  lemma MoreChunks(c: Chunk, cs: seq<Chunk>)
    ensures Joined(SentChunks([c] + cs, true)) == ChunkBytes(c, true) + Joined(SentChunks(cs, true))
  {
    hide ChunkBytes;
    assert SentChunks([c] + cs, true) == [ChunkBytes(c, true)] + SentChunks(cs, true);
    assert ([ChunkBytes(c, true)] + SentChunks(cs, true))[1..] == SentChunks(cs, true);
  }

  lemma Rejoin(b: seq<Byte>, n: nat, x: seq<Byte>, rest: seq<Byte>)
    requires n <= |b| && x + rest == b[n..]
    ensures b[..n] + x + rest == b
  {
    assert b == b[..n] + b[n..];
  }

  lemma {:induction false} ChunksSent(b: seq<Byte>, count: nat)
    requires ReadChunks(b, count).Some?
    ensures var (cs, rest) := ReadChunks(b, count).value;
            Joined(SentChunks(cs, true)) + rest == b
    decreases count
  {
    hide ReadChunk, ChunkBytes, Joined;
    if count == 0 {
      assert SentChunks([], true) == [];
      NothingJoined(b);
    } else {
      var (c, n) := ReadChunk(b).value;
      ChunkSent(b, true);
      ChunksSent(b[n..], count - 1);
      var (cs, rest) := ReadChunks(b[n..], count - 1).value;
      MoreChunks(c, cs);
      Rejoin(b, n, Joined(SentChunks(cs, true)), rest);
    }
  }

  lemma NothingJoined(b: seq<Byte>)
    ensures Joined([]) + b == b && F.SignaturesBytes([]) + b == b
  {
  }

  lemma {:induction false} SignaturesSent(b: seq<Byte>, count: nat)
    requires ReadSignatures(b, count).Some?
    ensures var (ss, rest) := ReadSignatures(b, count).value;
            F.SignaturesBytes(ss) + rest == b
    decreases count
  {
    hide ReadSignature, F.SignatureBytes, F.SignaturesBytes;
    if count == 0 {
      NothingJoined(b);
    } else {
      var (s, n) := ReadSignature(b).value;
      SignatureSent(b);
      SignaturesSent(b[n..], count - 1);
      var (ss, rest) := ReadSignatures(b[n..], count - 1).value;
      F.FirstSignature([s] + ss);
      assert ([s] + ss)[1..] == ss;
      Rejoin(b, n, F.SignaturesBytes(ss), rest);
    }
  }

  /** Every file that the tool accepts, it sends on unchanged: header, chunks and footer, one
      after the other, are the file. */
  lemma SentIsFile(data: seq<Byte>)
    requires Parse(data).Some?
    ensures var p := Parse(data).value;
            SentHeader(p) + Joined(SentChunks(p.chunks, true)) + SentFooter(p) == data
  {
    hide ReadChunks, ReadSignatures, HeaderBytes, F.SignaturesBytes, Joined, SentChunks;
    var p := Parse(data).value;
    var body := data[HEADER_SIZE..];
    var (cs, rest) := ReadChunks(body, p.header.keys).value;
    HeaderSent(data);
    ChunksSent(body, p.header.keys);
    SignaturesSent(rest[1..], p.header.signatures);
    hide ReadHeader;
    Pieces(data, SentHeader(p), Joined(SentChunks(cs, true)), rest, F.SignaturesBytes(p.signatures));
  }

  lemma Pieces(data: seq<Byte>, h: seq<Byte>, k: seq<Byte>, rest: seq<Byte>, s: seq<Byte>)
    requires |data| >= HEADER_SIZE && h == data[..HEADER_SIZE] && k + rest == data[HEADER_SIZE..]
    requires rest != [] && s + [] == rest[1..]
    ensures h + k + ([rest[0]] + s) == data
  {
    assert [rest[0]] + s == rest;
  }

  /** The loop over the chunks, consuming the data piece by piece. */
  method TakeChunks(data: seq<Byte>, count: nat) returns (r: Option<(seq<Chunk>, seq<Byte>)>)
    ensures r == ReadChunks(data, count)
  {
    hide ReadChunk, Continues;
    var remained, chunks := data, [];
    var i := 0;
    Starts(ReadChunks(data, count));
    while i < count
      invariant 0 <= i <= count
      invariant Continues(ReadChunks(data, count), chunks, ReadChunks(remained, count - i))
    {
      var chunk := ReadChunk(remained);
      ghost var rest := ReadChunks(remained, count - i);
      if chunk == None {
        Ends(ReadChunks(data, count), chunks, rest);
        return None;
      }
      GoesOn(ReadChunks(data, count), chunks, chunk.value.0, rest,
          ReadChunks(remained[chunk.value.1..], count - i - 1));
      chunks := chunks + [chunk.value.0];
      remained := remained[chunk.value.1..];
      i := i + 1;
    }
    Ends(ReadChunks(data, count), chunks, ReadChunks(remained, 0));
    return Some((chunks, remained));
  }

  /** The loop over the signatures. */
  method TakeSignatures(data: seq<Byte>, count: nat) returns (r: Option<(seq<Signature>, seq<Byte>)>)
    ensures r == ReadSignatures(data, count)
  {
    hide ReadSignature, Continues;
    var remained, signatures := data, [];
    var i := 0;
    Starts(ReadSignatures(data, count));
    while i < count
      invariant 0 <= i <= count
      invariant Continues(ReadSignatures(data, count), signatures, ReadSignatures(remained, count - i))
    {
      var signature := ReadSignature(remained);
      ghost var rest := ReadSignatures(remained, count - i);
      if signature == None {
        Ends(ReadSignatures(data, count), signatures, rest);
        return None;
      }
      GoesOn(ReadSignatures(data, count), signatures, signature.value.0, rest,
             ReadSignatures(remained[signature.value.1..], count - i - 1));
      signatures := signatures + [signature.value.0];
      remained := remained[signature.value.1..];
      i := i + 1;
    }
    Ends(ReadSignatures(data, count), signatures, ReadSignatures(remained, 0));
    return Some((signatures, remained));
  }

  method NewTrustList(data: seq<Byte>) returns (r: Option<Parts>)
    ensures r == Parse(data)
  {
    hide ReadChunks, ReadSignatures, ReadHeader;
    if |data| < HEADER_SIZE {
      return None;
    }
    var h := ReadHeader(data);
    var chunks := TakeChunks(data[HEADER_SIZE..], h.keys);
    if chunks == None || chunks.value.1 == [] {
      return None;
    }
    var rest := chunks.value.1;
    var signatures := TakeSignatures(rest[1..], h.signatures);
    if signatures == None || |signatures.value.1| != 0 {
      return None;
    }
    return Some(Parts(h, chunks.value.0, rest[0], signatures.value.0));
  }

  /** The whole result is what has been read, followed by the result for the rest. */
  ghost predicate Continues<T>(whole: Option<(seq<T>, seq<Byte>)>, done: seq<T>, rest: Option<(seq<T>, seq<Byte>)>) {
    match rest
    case None => whole.None?
    case Some((more, left)) => whole.Some? && whole.value.0 == done + more && whole.value.1 == left
  }

  lemma Starts<T>(whole: Option<(seq<T>, seq<Byte>)>)
    ensures Continues(whole, [], whole)
  {
    if whole.Some? {
      assert [] + whole.value.0 == whole.value.0;
    }
  }

  /** One more item was read. */
  lemma GoesOn<T>(whole: Option<(seq<T>, seq<Byte>)>, done: seq<T>, x: T,
                  rest: Option<(seq<T>, seq<Byte>)>, rest': Option<(seq<T>, seq<Byte>)>)
    requires Continues(whole, done, rest)
    requires if rest'.None? then rest.None? else rest == Some(([x] + rest'.value.0, rest'.value.1))
    ensures Continues(whole, done + [x], rest')
  {
    if rest'.Some? {
      assert done + ([x] + rest'.value.0) == done + [x] + rest'.value.0;
    }
  }

  lemma Ends<T>(whole: Option<(seq<T>, seq<Byte>)>, done: seq<T>, rest: Option<(seq<T>, seq<Byte>)>)
    requires Continues(whole, done, rest)
    ensures rest.None? ==> whole == None
    ensures rest.Some? && rest.value.0 == [] ==> whole == Some((done, rest.value.1))
  {
    assert done + [] == done;
  }

  // ---------------------------------------------------------------- what the Python tool wrote

  /** The list as the device gets it. */
  function Delivered(src: Source, sign: Signing): (l: S.TrustList)
    requires |src.signers| < 256
    ensures |l.keys| == |src.keys| && forall i :: 0 <= i < |src.keys| ==> l.keys[i] == PubKeyBytes(src.keys[i])
  {
    S.TrustList(Header(src), KeysBytes(src.keys), Footer(src, sign))
  }

  function KeysBytes(ks: seq<PubKey>): (bs: seq<seq<Byte>>)
    ensures |bs| == |ks| && forall i :: 0 <= i < |ks| ==> bs[i] == PubKeyBytes(ks[i])
  {
    seq(|ks|, i requires 0 <= i < |ks| => PubKeyBytes(ks[i]))
  }

  lemma {:induction false} KeysJoined(ks: seq<PubKey>)
    ensures Joined(KeysBytes(ks)) == BodyBytes(ks)
  {
    if ks != [] {
      KeysJoined(ks[1..]);
      hide PubKeyBytes;
      assert KeysBytes(ks)[1..] == KeysBytes(ks[1..]);
    }
  }

  /** The device hashes exactly the bytes that were signed. */
  lemma HashedIsSigned(src: Source, sign: Signing)
    requires |src.signers| < 256
    ensures S.SignedBytes(Delivered(src, sign)) == DataToSign(src)
  {
    KeysJoined(src.keys);
    hide Header, BodyBytes, PubKeyBytes, F.SignaturesBytes;
    assert Footer(src, sign)[..1] == [src.tlType];
  }

  lemma KeySlices(s: seq<Byte>, x: seq<Byte>, t: Byte, e: Byte, m: seq<Byte>, meta: seq<Byte>, key: seq<Byte>,
        tail: seq<Byte>)
    requires |s| == 4 && |x| == 4 && |m| == 2
    ensures var b := s + x + [t, e] + m + meta + key + tail;
            && |b| >= 12 + |meta| + |key| && b[0..4] == s && b[4..8] == x && b[8] == t && b[9] == e && b[10..12] == m
            && b[12..12 + |meta|] == meta && b[12 + |meta|..12 + |meta| + |key|] == key
            && b[12 + |meta| + |key|..] == tail
  {
  }

  /** Where the fields of a key lie, and in which byte order. */
  lemma KeyLayout(k: PubKey)
    requires KeyFits(k)
    ensures var b, n := PubKeyBytes(k), 12 + |k.meta|;
            && Big32At(b, 0) == k.start && Big32At(b, 4) == k.expire && b[8] == k.keyType && b[9] == k.ecType
            && Big16At(b, 10) == |k.meta| && b[12..n] == k.meta && b[n..] == k.key
  {
    var b := PubKeyBytes(k);
    KeySlices(BE(k.start, 4), BE(k.expire, 4), k.keyType, k.ecType, BE(|k.meta|, 2), k.meta, k.key, []);
    assert b + [] == b;
    hide BE, Big32At, Big16At, F.PubkeyLen;
    F.WordFits(b, 0, k.start);
    F.WordFits(b, 4, k.expire);
    F.WordFits(b, 10, |k.meta|);
  }

  lemma NextTakes(b: seq<Byte>, pos: nat, x: seq<Byte>)
    requires pos + |x| <= |b| && b[pos..pos + |x|] == x
    ensures Next(b[pos..], |x|) == x
  {
  }

  /** The Go tool reads a key as it was written. */
  lemma KeyReads(k: PubKey, tail: seq<Byte>)
    requires KeyFits(k)
    ensures var b := PubKeyBytes(k) + tail;
            ReadChunk(b).Some? && ReadChunk(b).value.1 == |PubKeyBytes(k)| && b[|PubKeyBytes(k)|..] == tail
    ensures ChunkBytes(ReadChunk(PubKeyBytes(k) + tail).value.0, true) == PubKeyBytes(k)
  {
    var b := PubKeyBytes(k) + tail;
    KeySlices(BE(k.start, 4), BE(k.expire, 4), k.keyType, k.ecType, BE(|k.meta|, 2), k.meta, k.key, tail);
    F.Words();
    BERoundTrip(|k.meta|, 2);
    F.SizesAgree(k.ecType);
    ChunkFound(k, b, tail);
    ChunkSent(b, true);
    hide ReadChunk, ChunkBytes, PubKeyBytes, KeyFits;
    assert b[..|PubKeyBytes(k)|] == PubKeyBytes(k);
  }

  lemma ChunkFound(k: PubKey, b: seq<Byte>, tail: seq<Byte>)
    requires |b| >= 12 + |k.meta| + |k.key| && b[9] == k.ecType && FromBE(b[10..12]) == |k.meta|
    requires b[12..12 + |k.meta|] == k.meta && b[12 + |k.meta|..12 + |k.meta| + |k.key|] == k.key
    requires F.SignerKeySize(k.ecType) == |k.key|
    ensures ReadChunk(b).Some? && ReadChunk(b).value.1 == 12 + |k.meta| + |k.key|
  {
    hide FromBE, FromLE, F.SignerKeySize, Next;
    NextTakes(b, 12, k.meta);
    NextTakes(b, 12 + |k.meta|, k.key);
  }

  lemma {:induction false} KeysRead(ks: seq<PubKey>, tail: seq<Byte>)
    requires forall i :: 0 <= i < |ks| ==> KeyFits(ks[i])
    ensures var r := ReadChunks(BodyBytes(ks) + tail, |ks|);
            r.Some? && r.value.1 == tail && SentChunks(r.value.0, true) == KeysBytes(ks)
    decreases |ks|
  {
    hide ReadChunk, PubKeyBytes, ChunkBytes, KeyFits;
    if ks == [] {
      assert [] + tail == tail && SentChunks([], true) == KeysBytes([]);
    } else {
      var rest := BodyBytes(ks[1..]) + tail;
      assert BodyBytes(ks) + tail == PubKeyBytes(ks[0]) + rest;
      KeyReads(ks[0], rest);
      KeysRead(ks[1..], tail);
      var c := ReadChunk(PubKeyBytes(ks[0]) + rest).value.0;
      SentCons(c, ReadChunks(rest, |ks| - 1).value.0, ks);
    }
  }

  lemma SentCons(c: Chunk, cs: seq<Chunk>, ks: seq<PubKey>)
    requires ks != [] && ChunkBytes(c, true) == PubKeyBytes(ks[0]) && SentChunks(cs, true) == KeysBytes(ks[1..])
    ensures SentChunks([c] + cs, true) == KeysBytes(ks)
  {
    hide ChunkBytes, PubKeyBytes;
    var x, y := SentChunks([c] + cs, true), KeysBytes(ks);
    assert |x| == |y|;
    forall i | 0 <= i < |x|
      ensures x[i] == y[i]
    {
      if i > 0 {
        assert x[i] == SentChunks(cs, true)[i - 1] && y[i] == KeysBytes(ks[1..])[i - 1];
      }
    }
  }

  lemma SignatureReads(s: Signature, tail: seq<Byte>)
    requires s.ecType == SECP256R1 && F.WellSized(s)
    ensures ReadSignature(F.SignatureBytes(s) + tail) == Some((s, |F.SignatureBytes(s)|))
    ensures (F.SignatureBytes(s) + tail)[|F.SignatureBytes(s)|..] == tail
  {
    var b := F.SignatureBytes(s) + tail;
    EntrySlices(s.signer, s.ecType, s.hashType, s.sign, s.pubkey, tail);
    NextTakes(b, 3, s.sign);
    NextTakes(b, 3 + |s.sign|, s.pubkey);
    hide Next;
  }

  lemma {:induction false} SignaturesReadBack(ss: seq<Signature>)
    requires forall i :: 0 <= i < |ss| ==> ss[i].ecType == SECP256R1 && F.WellSized(ss[i])
    ensures ReadSignatures(F.SignaturesBytes(ss), |ss|) == Some((ss, []))
    decreases |ss|
  {
    if ss == [] {
      assert F.SignaturesBytes([]) == [];
    } else {
      hide ReadSignature, F.SignatureBytes, F.SignaturesBytes, F.WellSized;
      F.FirstSignature(ss);
      SignatureReads(ss[0], F.SignaturesBytes(ss[1..]));
      SignaturesReadBack(ss[1..]);
      assert [ss[0]] + ss[1..] == ss;
    }
  }

  /** The Go tool accepts every file the Python tool writes, and the header, the chunks and the
      footer it sends are those of the Python tool. */
  lemma PythonFileParses(src: Source, sign: Signing)
    requires Serialisable(src, sign)
    ensures var p := Parse(FileBytes(src, sign));
            && p.Some? && SentHeader(p.value) == Header(src)
            && SentChunks(p.value.chunks, true) == KeysBytes(src.keys)
            && SentFooter(p.value) == Footer(src, sign)
  {
    var file, ss := FileBytes(src, sign), sign(DataToSign(src));
    var rest := Footer(src, sign);
    DeclaredSize(src, sign);
    hide BodyBytes, F.SignaturesBytes, DataToSign, ReadChunks, ReadSignatures, HeaderBytes, KeyFits, F.WellSized,
         S.TlVersion, S.TlSize;
    assert file[..HEADER_SIZE] == Header(src) && file[HEADER_SIZE..] == BodyBytes(src.keys) + rest;
    HeaderAgain(file, src);
    KeysRead(src.keys, rest);
    assert rest[0] == src.tlType && rest[1..] == F.SignaturesBytes(ss);
    SignaturesReadBack(ss);
  }

  lemma HeaderAgain(file: seq<Byte>, src: Source)
    requires |src.signers| < 256 && |file| >= HEADER_SIZE && file[..HEADER_SIZE] == Header(src)
    requires S.KeysCount(Header(src)) == |src.keys| && S.SignaturesCount(Header(src)) == |src.signers|
    ensures var h := ReadHeader(file);
            && HeaderBytes(h.size, h.version, h.keys, h.signatures) == Header(src)
            && h.keys == |src.keys| && h.signatures == |src.signers|
  {
    HeaderSent(file);
    hide HeaderBytes, BE, FromBE, Header;
    assert file[15..17] == file[..HEADER_SIZE][15..17] && file[17] == file[..HEADER_SIZE][17];
  }

  // ---------------------------------------------------------------- what the device makes of it

  lemma {:induction false} FooterEnds(b: seq<Byte>, pos: nat, ss: seq<Signature>)
    requires pos <= |b| && b[pos..] == F.SignaturesBytes(ss)
    requires forall i :: 0 <= i < |ss| ==> F.WellSized(ss[i])
    ensures S.FooterEnd(b, |ss|, pos) == S.Some(|b|)
    decreases |ss|
  {
    if ss != [] {
      hide *;
      F.FirstSignature(ss);
      FooterStep(b, |ss| - 1, pos, ss[0], F.SignaturesBytes(ss[1..]));
      FooterEnds(b, pos + |F.SignatureBytes(ss[0])|, ss[1..]);
    }
  }

  lemma FooterStep(b: seq<Byte>, count: nat, pos: nat, s: Signature, rest: seq<Byte>)
    requires pos <= |b| && b[pos..] == F.SignatureBytes(s) + rest && F.WellSized(s)
    ensures pos + |F.SignatureBytes(s)| <= |b| && b[pos + |F.SignatureBytes(s)|..] == rest
    ensures S.FooterEnd(b, count + 1, pos) == S.FooterEnd(b, count, pos + |F.SignatureBytes(s)|)
  {
    hide F.SignatureLen, F.PubkeyLen;
    var x := F.SignatureBytes(s);
    EntrySlices(s.signer, s.ecType, s.hashType, s.sign, s.pubkey, rest);
    assert b[pos + 1] == b[pos..][1];
    assert b[pos + |x|..] == b[pos..][|x|..];
  }

  /** Each part has the size the device computes for it, so nothing is cut off or left over. */
  lemma PartSizes(src: Source, sign: Signing)
    requires Serialisable(src, sign)
    ensures var l := Delivered(src, sign);
            && (forall i :: 0 <= i < |l.keys| ==> |l.keys[i]| >= 12 && S.KeySize(l.keys[i]) == S.Some(|l.keys[i]|))
            && S.FooterEnd(l.footer, S.SignaturesCount(l.header), 1) == S.Some(|l.footer|)
  {
    DeclaredSize(src, sign);
    var l, ss := Delivered(src, sign), sign(DataToSign(src));
    hide DataToSign, BodyBytes, F.SignaturesBytes, F.WellSized, HeaderBytes, PubKeyBytes, KeyFits, S.TlSize,
         S.KeysCount, S.TlVersion;
    forall i | 0 <= i < |l.keys|
      ensures |l.keys[i]| >= 12 && S.KeySize(l.keys[i]) == S.Some(|l.keys[i]|)
    {
      KeySizeIs(src.keys[i]);
    }
    assert l.footer[1..] == F.SignaturesBytes(ss);
    FooterEnds(l.footer, 1, ss);
  }

  lemma KeySizeIs(k: PubKey)
    requires KeyFits(k)
    ensures S.KeySize(PubKeyBytes(k)) == S.Some(|PubKeyBytes(k)|)
  {
    KeySlices(BE(k.start, 4), BE(k.expire, 4), k.keyType, k.ecType, BE(|k.meta|, 2), k.meta, k.key, []);
    assert PubKeyBytes(k) + [] == PubKeyBytes(k);
    F.Words();
    BERoundTrip(|k.meta|, 2);
    F.SizesAgree(k.ecType);
    hide BE, FromBE, F.PubkeyLen;
  }

  /** A list signed with keys that the device trusts is valid there: the signatures, made by the
      Python tool, hold over what the device hashes. */
  lemma DeliveredIsValid(m: K.SecModule, src: Source, sign: Signing)
    requires K.Provisioned(m) && Serialisable(src, sign) && |FileBytes(src, sign)| <= S.STORAGE_SIZE
    requires Proper(m, 1, 2, Sha256.Hash(DataToSign(src)), sign(DataToSign(src)))
    ensures S.Valid(m, Delivered(src, sign))
  {
    DeclaredSize(src, sign);
    HashedIsSigned(src, sign);
    var l, ss := Delivered(src, sign), sign(DataToSign(src));
    hide DataToSign, BodyBytes, F.SignaturesBytes, F.WellSized, HeaderBytes, PubKeyBytes, KeyFits, S.TlSize,
         S.KeysCount, S.TlVersion, FileBytes, S.SignedBytes, Proper, K.Provisioned, K.Accepts, Sha256.Hash;
    assert l.footer[1..] == F.SignaturesBytes(ss);
    ProperAccepted(m, 1, 2, Sha256.Hash(DataToSign(src)), l.footer, 1, ss);
  }
}
