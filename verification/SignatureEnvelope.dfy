/** Signatures in their DER envelope and as 64 raw bytes: the two conversions of
    modules/crypto/secmodule/src/asn1-cryptogram.c. */
module SignatureEnvelope {
  import opened Bytes
  import opened Der
  import opened Cryptogram

  const RAW_SIZE := 64
  const HALF := 32

  // ---------------------------------------------------------------- the envelope

  /** The signature with its hash algorithm: an octet string that holds the pair of integers. */
  function Envelope(x: seq<Byte>, y: seq<Byte>): (b: seq<Byte>)
    requires |x| <= 34 && |y| <= 34
    ensures |b| == 25 + |x| + |y|
  {
    Tlv(SEQUENCE, SHA256_SEQUENCE + Tlv(OCTET_STRING, Tlv(SEQUENCE, Tlv(INTEGER, x) + Tlv(INTEGER, y))))
  }

  /** Half a raw signature as a positive integer. */
  function Positive(x: seq<Byte>): (y: seq<Byte>)
    requires |x| == HALF
    ensures HALF <= |y| <= HALF + 1 && y[|y| - HALF..] == x && (|y| > HALF ==> y[0] == 0)
  {
    if x[0] >= 0x80 then [0] + x else x
  }

  function IntegerBytes(x: seq<Byte>): (b: seq<Byte>)
    requires |x| == HALF
    ensures 34 <= |b| <= 35
  {
    Tlv(INTEGER, Positive(x))
  }

  function VirgilSignature(raw: seq<Byte>): (b: seq<Byte>)
    requires |raw| == RAW_SIZE
    ensures 89 <= |b| <= 91
  {
    Envelope(Positive(raw[..HALF]), Positive(raw[HALF..]))
  }

  // ---------------------------------------------------------------- back to raw bytes

  /** OutOfBounds stands for a read in front of the input or a write in front of the output. */
  datatype Tiny = Converted(raw: seq<Byte>) | Rejected | OutOfBounds

  /** The octets copied for an integer x that ends at `end`: with a zero in front always the last 32 before
      the end, whether or not they all belong to it. */
  function Copied(b: seq<Byte>, end: nat, x: seq<Byte>): (h: Option<seq<Byte>>)
    requires 0 < |x| <= 34 && end <= |b|
    ensures h.Some? ==> |h.value| == if x[0] == 0 then HALF else |x|
  {
    if x[0] != 0 then Some(x)
    else if end < HALF then None
    else Some(b[end - HALF..end])
  }

  /** Both copies go to the ends of their halves; a long second one overwrites the end of the first. */
  function Placed(r: seq<Byte>, s: seq<Byte>): (raw: Tiny)
    requires |s| <= 34
    ensures if |r| > HALF then raw == OutOfBounds else raw.Converted? && |raw.raw| == RAW_SIZE
  {
    if |r| > HALF then OutOfBounds
    else Converted((Fill(0, HALF - |r|) + r + Fill(0, HALF))[..RAW_SIZE - |s|] + s)
  }

  function PlacedCopies(b: seq<Byte>, endR: nat, r: seq<Byte>, endS: nat, s: seq<Byte>): (raw: Tiny)
    requires 0 < |r| <= 34 && 0 < |s| <= 34 && endR <= |b| && endS <= |b|
    ensures raw.Converted? ==> |raw.raw| == RAW_SIZE
  {
    var hr, hs := Copied(b, endR, r), Copied(b, endS, s);
    if hr.None? || hs.None? then OutOfBounds else Placed(hr.value, hs.value)
  }

  /** Past the hash algorithm to the pair of integers. */
  function Pair(b: seq<Byte>): (t: Rest)
    ensures t.Some? ==> |t.value| < |b|
  {
    hide StepInto, Skip;
    Into(Into(Over(Into(Some(b), SEQUENCE), SEQUENCE), OCTET_STRING), SEQUENCE)
  }

  /** vs_secmodule_virgil_secp256_signature_to_tiny. */
  function ToTiny(b: seq<Byte>): (raw: Tiny)
    ensures raw.Converted? ==> |raw.raw| == RAW_SIZE
  {
    match Pair(b)
    case None => Rejected
    case Some(t) =>
      match GetArray(INTEGER, t)
      case None => Rejected
      case Some((r, u)) =>
        match GetArray(INTEGER, u)
        case None => Rejected
        case Some((s, v)) =>
          if |r| == 0 || |r| > 34 || |s| == 0 || |s| > 34 then Rejected
          else PlacedCopies(b, |b| - |u|, r, |b| - |v|, s)
  }

  /** The way to the pair of integers. */
  lemma PairReached(x: seq<Byte>, y: seq<Byte>)
    requires 0 < |x| <= 34 && 0 < |y| <= 34
    ensures Pair(Envelope(x, y)) == Some(Tlv(INTEGER, x) + Tlv(INTEGER, y))
  {
    var z := Tlv(INTEGER, x) + Tlv(INTEGER, y);
    var pair := Tlv(OCTET_STRING, Tlv(SEQUENCE, z));
    Sha256Is();
    assert |SHA256_SEQUENCE + pair| < 100 && 0 < |z| < 100;
    assert Envelope(x, y) + [] == Tlv(SEQUENCE, SHA256_SEQUENCE + pair);
    assert Envelope(x, y) + [] == Envelope(x, y);
    hide Tlv, Envelope, Into, Over;
    IntoTlv(SEQUENCE, SHA256_SEQUENCE, pair, []);
    assert pair + [] == pair && z + [] == z;
    OverTlv(SEQUENCE, Tlv(OID, SHA256_ID) + Tlv(NULL, []), pair);
    Unwrap(z, []);
  }

  lemma Sha256Is()
    ensures SHA256_SEQUENCE == Tlv(SEQUENCE, Tlv(OID, SHA256_ID) + Tlv(NULL, []))
  {
    assert Tlv(OID, SHA256_ID) + Tlv(NULL, []) == [OID, 9] + SHA256_ID + [NULL, 0];
  }

  lemma ToTinyIs(b: seq<Byte>, t: seq<Byte>, r: seq<Byte>, u: seq<Byte>, s: seq<Byte>, v: seq<Byte>)
    requires Pair(b) == Some(t)
    requires GetArray(INTEGER, t) == Some((r, u)) && GetArray(INTEGER, u) == Some((s, v))
    requires 0 < |r| <= 34 && 0 < |s| <= 34
    ensures |v| <= |u| <= |b| && ToTiny(b) == PlacedCopies(b, |b| - |u|, r, |b| - |v|, s)
  {
    hide Pair, GetArray, PlacedCopies;
  }

  /** Where the integers lie. */
  lemma EnvelopeReads(x: seq<Byte>, y: seq<Byte>)
    requires 0 < |x| <= 34 && 0 < |y| <= 34
    ensures var b := Envelope(x, y);
            ToTiny(b) == PlacedCopies(b, 23 + |x|, x, |b|, y)
  {
    hide *;
    PairReached(x, y);
    PairReads(x, y);
    ToTinyIs(Envelope(x, y), Tlv(INTEGER, x) + Tlv(INTEGER, y), x, Tlv(INTEGER, y), y, []);
  }

  lemma PairReads(x: seq<Byte>, y: seq<Byte>)
    requires 0 < |x| <= 34 && 0 < |y| <= 34
    ensures GetArray(INTEGER, Tlv(INTEGER, x) + Tlv(INTEGER, y)) == Some((x, Tlv(INTEGER, y)))
    ensures GetArray(INTEGER, Tlv(INTEGER, y)) == Some((y, [])) && |Tlv(INTEGER, y)| == 2 + |y|
  {
    hide Tlv, GetArray;
    ReadsTlv(INTEGER, x, Tlv(INTEGER, y));
    ReadsTlv(INTEGER, y, []);
    assert Tlv(INTEGER, y) + [] == Tlv(INTEGER, y);
  }

  /** What stands in front of and in the two integers. */
  lemma EnvelopeBytes(x: seq<Byte>, y: seq<Byte>)
    requires 0 < |x| <= 34 && 0 < |y| <= 34
    ensures var b := Envelope(x, y);
            && b[22] == |x| && b[23..23 + |x|] == x && b[24 + |x|] == |y| && b[|b| - |y|..|b|] == y
  {
    var r, s := [INTEGER, |x|] + x, [INTEGER, |y|] + y;
    assert Tlv(INTEGER, x) == r && Tlv(INTEGER, y) == s;
    var front := [SEQUENCE, |x| + |y| + 23] + SHA256_SEQUENCE + [OCTET_STRING, |x| + |y| + 6, SEQUENCE, |x| + |y| + 4];
    assert Envelope(x, y) == front + (r + s) && |front| == 21;
  }

  // ---------------------------------------------------------------- which signatures survive

  lemma TwoHalves(r: seq<Byte>, s: seq<Byte>)
    requires |r| <= HALF && |s| <= HALF
    ensures Placed(r, s) == Converted(Fill(0, HALF - |r|) + r + (Fill(0, HALF - |s|) + s))
  {
    var front := Fill(0, HALF - |r|) + r;
    assert (front + Fill(0, HALF))[..RAW_SIZE - |s|] == front + Fill(0, HALF - |s|);
    assert front + Fill(0, HALF - |s|) + s == front + (Fill(0, HALF - |s|) + s);
  }

  /** Every 64-byte signature survives the conversion to the envelope and back. */
  lemma RoundTrip(raw: seq<Byte>)
    requires |raw| == RAW_SIZE
    ensures ToTiny(VirgilSignature(raw)) == Converted(raw)
  {
    var r, t := raw[..HALF], raw[HALF..];
    assert |r| == |t| == HALF == 32 && r + t == raw && VirgilSignature(raw) == Envelope(Positive(r), Positive(t));
    hide *;
    EnvelopeReads(Positive(r), Positive(t));
    PositivePlaced(r, t);
  }

  lemma PositivePlaced(r: seq<Byte>, t: seq<Byte>)
    requires |r| == |t| == HALF
    ensures var x, y := Positive(r), Positive(t);
            PlacedCopies(Envelope(x, y), 23 + |x|, x, |Envelope(x, y)|, y) == Converted(r + t)
  {
    var x, y := Positive(r), Positive(t);
    var b := Envelope(x, y);
    assert |b| == 25 + |x| + |y| && HALF == 32;
    hide *;
    EnvelopeBytes(x, y);
    PositiveCopied(b, 23 + |x|, r);
    PositiveCopied(b, |b|, t);
    WholeCopies(b, 23 + |x|, x, |b|, y, r, t);
  }

  lemma CopiesPlaced(b: seq<Byte>, endR: nat, x: seq<Byte>, endS: nat, y: seq<Byte>, r: seq<Byte>, t: seq<Byte>)
    requires 0 < |x| <= 34 && 0 < |y| <= 34 && endR <= |b| && endS <= |b|
    requires Copied(b, endR, x) == Some(r) && Copied(b, endS, y) == Some(t) && |r| <= HALF && |t| <= HALF
    ensures PlacedCopies(b, endR, x, endS, y) == Converted(Fill(0, HALF - |r|) + r + (Fill(0, HALF - |t|) + t))
  {
    hide Copied, Placed;
    TwoHalves(r, t);
  }

  lemma WholeCopies(b: seq<Byte>, endR: nat, x: seq<Byte>, endS: nat, y: seq<Byte>, r: seq<Byte>, t: seq<Byte>)
    requires 0 < |x| <= 34 && 0 < |y| <= 34 && endR <= |b| && endS <= |b|
    requires Copied(b, endR, x) == Some(r) && Copied(b, endS, y) == Some(t) && |r| == |t| == HALF
    ensures PlacedCopies(b, endR, x, endS, y) == Converted(r + t)
  {
    hide Copied, PlacedCopies;
    CopiesPlaced(b, endR, x, endS, y, r, t);
    NoFill(r, t);
  }

  lemma PositiveCopied(b: seq<Byte>, end: nat, x: seq<Byte>)
    requires |x| == HALF && |Positive(x)| <= end <= |b| && b[end - |Positive(x)|..end] == Positive(x)
    ensures Copied(b, end, Positive(x)) == Some(x)
  {
    var y := Positive(x);
    assert b[end - HALF..end] == b[end - |y|..end][|y| - HALF..];
    if |y| == HALF {
      assert y[0..] == y;
    }
  }

  /** The encoding of a non-negative integer in the fewest octets (section 8.3.2 of ITU-T X.690). */
  predicate Minimal(x: seq<Byte>) {
    x != [] && x[0] < 0x80 && (x[0] == 0 && |x| > 1 ==> x[1] >= 0x80)
  }

  /** The case the source gets wrong. */
  predicate ShortWithZero(x: seq<Byte>)
    requires x != []
  {
    x[0] == 0 && |x| < HALF
  }

  /** 32 octets, the value at their end. */
  function Aligned(x: seq<Byte>): (h: seq<Byte>)
    requires 0 < |x| <= HALF + 1
    ensures |h| == HALF
  {
    if |x| > HALF then x[1..] else Fill(0, HALF - |x|) + x
  }

  lemma {:induction false} FromBEAtLeast(x: seq<Byte>)
    requires x != []
    ensures FromBE(x) >= x[0] * Pow256(|x| - 1)
  {
    if |x| > 1 {
      var front := x[..|x| - 1];
      FromBEAtLeast(front);
      assert front[0] * Pow256(|x| - 1) == front[0] * Pow256(|x| - 2) * 256;
    }
  }

  lemma {:induction false} FromBEZero(x: seq<Byte>)
    ensures FromBE([0] + x) == FromBE(x)
  {
    if x == [] {
      assert ([0] + x)[..0] == [];
    } else {
      FromBEZero(x[..|x| - 1]);
      assert ([0] + x)[..|x|] == [0] + x[..|x| - 1];
    }
  }

  lemma {:induction false} Pow256Grows(j: nat, k: nat)
    requires j <= k
    ensures Pow256(j) <= Pow256(k)
  {
    if j < k {
      Pow256Grows(j, k - 1);
    }
  }

  lemma {:induction false} FromBEZeros(n: nat, x: seq<Byte>)
    ensures FromBE(Fill(0, n) + x) == FromBE(x)
    decreases n
  {
    if n == 0 {
      assert Fill(0, 0) + x == x;
    } else {
      FromBEZero(Fill(0, n - 1) + x);
      assert Fill(0, n) + x == [0] + (Fill(0, n - 1) + x);
      FromBEZeros(n - 1, x);
    }
  }

  lemma LongIsBig(x: seq<Byte>)
    requires |x| > HALF && x[0] > 0
    ensures FromBE(x) >= Pow256(HALF)
  {
    FromBEAtLeast(x);
    Pow256Grows(HALF, |x| - 1);
    hide FromBE, Pow256;
    Multiple(x[0], Pow256(|x| - 1));
  }

  lemma Multiple(a: nat, b: nat)
    requires a > 0
    ensures a * b >= b
  {
  }

  /** A number below 2^256 takes at most 33 octets, the first of 33 being zero. */
  lemma MinimalLength(x: seq<Byte>)
    requires Minimal(x) && FromBE(x) < Pow256(HALF)
    ensures |x| <= HALF + 1 && (|x| == HALF + 1 ==> x[0] == 0)
  {
    hide FromBE, Pow256;
    if |x| > HALF {
      if x[0] > 0 {
        LongIsBig(x);
      } else if |x| > HALF + 1 {
        assert x == [0] + x[1..];
        FromBEZero(x[1..]);
        LongIsBig(x[1..]);
      }
    }
  }

  lemma AlignedValue(x: seq<Byte>)
    requires 0 < |x| <= HALF + 1 && (|x| == HALF + 1 ==> x[0] == 0)
    ensures FromBE(Aligned(x)) == FromBE(x)
  {
    hide FromBE;
    if |x| > HALF {
      assert x == [0] + x[1..];
      FromBEZero(x[1..]);
    } else {
      FromBEZeros(HALF - |x|, x);
    }
  }

  lemma AlignedIs(x: seq<Byte>)
    requires Minimal(x) && FromBE(x) < Pow256(HALF)
    ensures |x| <= HALF + 1 && BE(FromBE(x), HALF) == Aligned(x)
  {
    MinimalLength(x);
    AlignedValue(x);
    BEOfFromBE(Aligned(x));
    hide FromBE, BE, Pow256, Aligned;
  }

  /** An integer is copied to the right place exactly if it is not a short one with a zero in front. */
  lemma CopiedIs(b: seq<Byte>, end: nat, x: seq<Byte>)
    requires 0 < |x| <= HALF + 1 && (|x| == HALF + 1 ==> x[0] == 0)
    requires |x| < end <= |b| && b[end - |x|..end] == x && b[end - |x| - 1] == |x|
    ensures var h := Copied(b, end, x);
            && (h.Some? ==> |h.value| <= HALF)
            && (ShortWithZero(x) <==> h.None? || Fill(0, HALF - |h.value|) + h.value != Aligned(x))
  {
    if x[0] == 0 {
      if end >= HALF {
        var h := b[end - HALF..end];
        assert Fill(0, 0) + h == h;
        if |x| < HALF {
          assert h[HALF - 1 - |x|] == |x| && Aligned(x)[HALF - 1 - |x|] == 0;
        } else {
          assert h == x[|x| - HALF..];
          assert Fill(0, 0) + x == x;
        }
      }
    }
  }

  /** Exactly which pairs of numbers below 2^256, in their shortest encoding, come back right-aligned: those
      where neither is shorter than 32 octets and begins with a zero. */
  lemma Survives(x: seq<Byte>, y: seq<Byte>)
    requires Minimal(x) && FromBE(x) < Pow256(HALF) && Minimal(y) && FromBE(y) < Pow256(HALF)
    ensures |x| <= HALF + 1 && |y| <= HALF + 1
    ensures ToTiny(Envelope(x, y)) == Converted(BE(FromBE(x), HALF) + BE(FromBE(y), HALF))
            <==> !ShortWithZero(x) && !ShortWithZero(y)
  {
    AlignedIs(x);
    AlignedIs(y);
    MinimalLength(x);
    MinimalLength(y);
    hide FromBE, BE, Pow256, Envelope, ToTiny, Aligned, ShortWithZero;
    EnvelopeCopied(x, y);
  }

  lemma EnvelopeCopied(x: seq<Byte>, y: seq<Byte>)
    requires 0 < |x| <= HALF + 1 && (|x| == HALF + 1 ==> x[0] == 0)
    requires 0 < |y| <= HALF + 1 && (|y| == HALF + 1 ==> y[0] == 0)
    ensures ToTiny(Envelope(x, y)) == Converted(Aligned(x) + Aligned(y)) <==> !ShortWithZero(x) && !ShortWithZero(y)
  {
    EnvelopeReads(x, y);
    EnvelopeBytes(x, y);
    hide Envelope, ToTiny, PlacedCopies, Aligned, ShortWithZero;
    var b := Envelope(x, y);
    BothCopied(b, 23 + |x|, x, y);
  }

  lemma BothCopied(b: seq<Byte>, end: nat, x: seq<Byte>, y: seq<Byte>)
    requires 0 < |x| <= HALF + 1 && (|x| == HALF + 1 ==> x[0] == 0)
    requires 0 < |y| <= HALF + 1 && (|y| == HALF + 1 ==> y[0] == 0)
    requires |x| < end <= |b| && b[end - |x|..end] == x && b[end - |x| - 1] == |x|
    requires |y| < |b| && b[|b| - |y|..|b|] == y && b[|b| - |y| - 1] == |y|
    ensures PlacedCopies(b, end, x, |b|, y) == Converted(Aligned(x) + Aligned(y))
            <==> !ShortWithZero(x) && !ShortWithZero(y)
  {
    hide Copied, PlacedCopies, Aligned, ShortWithZero;
    CopiedIs(b, end, x);
    CopiedIs(b, |b|, y);
    var hr, hs := Copied(b, end, x), Copied(b, |b|, y);
    if hr.None? || hs.None? {
      NotCopied(b, end, x, |b|, y);
    } else {
      CopiesPlaced(b, end, x, |b|, y, hr.value, hs.value);
      SameHalves(Fill(0, HALF - |hr.value|) + hr.value, Fill(0, HALF - |hs.value|) + hs.value, Aligned(x), Aligned(y));
    }
  }

  lemma NotCopied(b: seq<Byte>, endR: nat, x: seq<Byte>, endS: nat, y: seq<Byte>)
    requires 0 < |x| <= 34 && 0 < |y| <= 34 && endR <= |b| && endS <= |b|
    requires Copied(b, endR, x).None? || Copied(b, endS, y).None?
    ensures PlacedCopies(b, endR, x, endS, y) == OutOfBounds
  {
    hide Copied;
  }

  lemma SameHalves(a: seq<Byte>, b: seq<Byte>, c: seq<Byte>, d: seq<Byte>)
    requires |a| == |c|
    ensures a + b == c + d <==> a == c && b == d
  {
    if a + b == c + d {
      assert (a + b)[..|a|] == a && (c + d)[..|a|] == c && (a + b)[|a|..] == b && (c + d)[|a|..] == d;
    }
  }

  /** For example: an integer of 31 octets with a zero in front is delivered with its length octet before it. */
  lemma LengthOctetCopied(x: seq<Byte>, y: seq<Byte>)
    requires |x| == 31 && x[0] == 0 && |y| == HALF && y[0] != 0
    ensures ToTiny(Envelope(x, y)) == Converted(([31] + x) + y)
  {
    hide Envelope, ToTiny, PlacedCopies, Copied;
    EnvelopeReads(x, y);
    EnvelopeBytes(x, y);
    var b := Envelope(x, y);
    OneBefore(b, x);
    assert Copied(b, |b|, y) == Some(y) by { PlainCopied(b, y); }
    WholeCopies(b, 54, x, |b|, y, [31] + x, y);
  }

  lemma OneBefore(b: seq<Byte>, x: seq<Byte>)
    requires |x| == 31 && x[0] == 0 && |b| >= 54 && b[22] == 31 && b[23..54] == x
    ensures Copied(b, 54, x) == Some([31] + x)
  {
    assert b[22..54] == [b[22]] + b[23..54];
  }

  lemma PlainCopied(b: seq<Byte>, y: seq<Byte>)
    requires 0 < |y| <= HALF && y[0] != 0
    ensures Copied(b, |b|, y) == Some(y)
  {
  }

  lemma NoFill(x: seq<Byte>, y: seq<Byte>)
    ensures Fill(0, 0) + x + (Fill(0, 0) + y) == x + y
  {
  }

  /** ... and the number zero makes the source read in front of its input. */
  lemma ZeroOutOfBounds(y: seq<Byte>)
    requires 0 < |y| <= 34
    ensures ToTiny(Envelope([0], y)) == OutOfBounds
  {
    EnvelopeReads([0], y);
    hide Envelope, ToTiny;
  }

  // ---------------------------------------------------------------- the conversions

  /** vs_secmodule_tiny_secp256_signature_to_virgil: succeeds exactly when the buffer is longer
      than the result. */
  method SignatureToVirgil(raw: seq<Byte>, sign: array<Byte>) returns (code: int, size: nat)
    requires |raw| == RAW_SIZE
    modifies sign
    ensures code == if sign.Length > |VirgilSignature(raw)| then OK else ERR_CRYPTO
    ensures code == OK ==> size == |VirgilSignature(raw)| < sign.Length && sign[..size] == VirgilSignature(raw)
  {
    hide Tlv, HeaderBytes, ArrayBytes, IntegerBytes, VirgilSignature, Writer.Valid;
    SignatureIs(raw);
    ghost var r, s := IntegerBytes(raw[..HALF]), IntegerBytes(raw[HALF..]);
    size := 0;
    var w := new Writer(sign);
    var ok, el := w.PutArray(INTEGER, raw[HALF..]);
    if ok {
      ok, el := w.PutArray(INTEGER, raw[..HALF]);
    }
    if !ok {
      return ERR_CRYPTO, size;
    }
    assert w.done == r + s by { assert r + (s + []) == r + s; }
    ok := PutSignatureLayers(w, r + s);
    if !ok {
      return ERR_CRYPTO, size;
    }
    size := w.total;
    WriterDone(w);
    MoveDown(sign, w.pos, size);
    code := OK;
  }

  lemma WriterDone(w: Writer)
    requires w.Valid()
    ensures w.pos <= w.data.Length && w.data[w.pos..] == w.done && |w.done| == w.data.Length - w.pos
    ensures w.pos + |w.done| == w.data.Length && w.data[w.pos..w.pos + |w.done|] == w.done
  {
  }

  /** Sequence, octet string, hash algorithm and outer sequence around the pair of integers. */
  method PutSignatureLayers(w: Writer, ghost x: seq<Byte>) returns (ok: bool)
    requires w.Valid() && w.done == x && w.total == |x| && 68 <= |x| <= 70
    modifies w, w.data
    ensures w.Valid() && (ok <==> old(w.pos) > 21)
    ensures ok ==> w.total == |w.done|
                   && w.done == Tlv(SEQUENCE, SHA256_SEQUENCE + Tlv(OCTET_STRING, Tlv(SEQUENCE, x)))
  {
    LayerSizes(x);
    TlvIs(SEQUENCE, x);
    TlvIs(OCTET_STRING, Tlv(SEQUENCE, x));
    TlvIs(SEQUENCE, SHA256_SEQUENCE + Tlv(OCTET_STRING, Tlv(SEQUENCE, x)));
    hide Tlv, HeaderBytes, Writer.Valid;
    ok := w.PutHeader(SEQUENCE, w.total);
    if ok {
      ok := w.PutHeader(OCTET_STRING, w.total);
    }
    if ok {
      ok := w.PutRaw(SHA256_SEQUENCE);
    }
    if ok {
      ok := w.PutHeader(SEQUENCE, w.total);
    }
  }

  lemma LayerSizes(x: seq<Byte>)
    requires 68 <= |x| <= 70
    ensures |HeaderBytes(SEQUENCE, |x|)| == |HeaderBytes(OCTET_STRING, |x| + 2)|
            == |HeaderBytes(SEQUENCE, |x| + 19)| == 2
    ensures |Tlv(SEQUENCE, x)| == |x| + 2 && |Tlv(OCTET_STRING, Tlv(SEQUENCE, x))| == |x| + 4
  {
  }

  lemma SignatureIs(raw: seq<Byte>)
    requires |raw| == RAW_SIZE
    ensures ArrayBytes(INTEGER, raw[..HALF]) == IntegerBytes(raw[..HALF])
    ensures ArrayBytes(INTEGER, raw[HALF..]) == IntegerBytes(raw[HALF..])
    ensures var x := IntegerBytes(raw[..HALF]) + IntegerBytes(raw[HALF..]);
            && VirgilSignature(raw) == Tlv(SEQUENCE, SHA256_SEQUENCE + Tlv(OCTET_STRING, Tlv(SEQUENCE, x)))
            && |VirgilSignature(raw)| == |x| + 21
  {
    ArrayIsTlv(INTEGER, raw[..HALF]);
    ArrayIsTlv(INTEGER, raw[HALF..]);
    hide ArrayBytes;
  }

  /** vs_secmodule_virgil_secp256_signature_to_tiny, where it stays inside its input and output. */
  method SignatureToTiny(sign: seq<Byte>, raw: array<Byte>) returns (code: int)
    requires ToTiny(sign) != OutOfBounds
    modifies raw
    ensures raw.Length < RAW_SIZE ==> code == ERR_INCORRECT_PARAMETER && raw[..] == old(raw[..])
    ensures raw.Length >= RAW_SIZE ==>
              match ToTiny(sign)
              case Converted(x) => code == OK && raw[..] == x + old(raw[RAW_SIZE..])
              case Rejected => code == ERR_CRYPTO && raw[..] == Fill(0, RAW_SIZE) + old(raw[RAW_SIZE..])
              case OutOfBounds => true
  {
    hide ToTiny, Placed, Copied;
    if raw.Length < RAW_SIZE {
      return ERR_INCORRECT_PARAMETER;
    }
    CopyAt(raw, 0, Fill(0, RAW_SIZE));
    assert raw[..0] == [];
    var ok, r, s := ReadHalves(sign);
    if !ok {
      return ERR_CRYPTO;
    }
    PlaceHalves(raw, r, s);
    code := OK;
  }

  method FindPair(sign: seq<Byte>) returns (ok: bool, reader: Reader)
    ensures fresh(reader) && reader.Valid() && reader.data == sign
    ensures Pair(sign) == if ok then Some(reader.Ahead()) else None
  {
    hide Into, Over;
    reader := new Reader(sign);
    assert reader.Ahead() == sign;
    ghost var rest;
    ok, rest := AndEnter(reader, true, Some(sign), SEQUENCE);
    ok, rest := AndPass(reader, ok, rest, SEQUENCE);
    ok, rest := AndEnter(reader, ok, rest, OCTET_STRING);
    ok, rest := AndEnter(reader, ok, rest, SEQUENCE);
  }

  /** The two integers of a signature, and where they end. */
  method FindIntegers(sign: seq<Byte>) returns (ok: bool, r: seq<Byte>, endR: nat, s: seq<Byte>, endS: nat)
    ensures !ok ==> ToTiny(sign) == Rejected
    ensures ok ==> 0 < |r| <= 34 && 0 < |s| <= 34 && endR <= |sign| && endS <= |sign|
                   && ToTiny(sign) == PlacedCopies(sign, endR, r, endS, s)
  {
    hide Pair, GetArray, PlacedCopies;
    r, s, endR, endS := [], [], 0, 0;
    var reader;
    ok, reader := FindPair(sign);
    if ok {
      ok, r := reader.Take(INTEGER);
      endR := reader.pos;
    }
    if ok {
      ok, s := reader.Take(INTEGER);
      endS := reader.pos;
    }
    if ok && (|r| == 0 || |r| > 34 || |s| == 0 || |s| > 34) {
      ok := false;
    }
  }

  /** The octets to copy for them. */
  method ReadHalves(sign: seq<Byte>) returns (ok: bool, r: seq<Byte>, s: seq<Byte>)
    requires ToTiny(sign) != OutOfBounds
    ensures !ok ==> ToTiny(sign) == Rejected
    ensures ok ==> |r| <= HALF && |s| <= 34 && ToTiny(sign) == Placed(r, s)
  {
    hide ToTiny, Placed;
    var endR, endS;
    ok, r, endR, s, endS := FindIntegers(sign);
    if ok && r[0] == 0 {
      r := sign[endR - HALF..endR];
    }
    if ok && s[0] == 0 {
      s := sign[endS - HALF..endS];
    }
  }

  /** Both copies, at the ends of their halves of the zeroed output. */
  method PlaceHalves(raw: array<Byte>, r: seq<Byte>, s: seq<Byte>)
    requires raw.Length >= RAW_SIZE && |r| <= HALF && |s| <= 34 && raw[..RAW_SIZE] == Fill(0, RAW_SIZE)
    modifies raw
    ensures Placed(r, s).Converted? && raw[..] == Placed(r, s).raw + old(raw[RAW_SIZE..])
  {
    ghost var tail := raw[RAW_SIZE..];
    assert raw[..] == Fill(0, RAW_SIZE) + tail;
    CopyAt(raw, HALF - |r|, r);
    ghost var front := Fill(0, HALF - |r|) + r + Fill(0, HALF);
    assert raw[..] == front + tail;
    CopyAt(raw, RAW_SIZE - |s|, s);
    assert raw[..] == front[..RAW_SIZE - |s|] + s + tail;
  }

  /** memcpy into an output. */
  method CopyAt(a: array<Byte>, at: nat, x: seq<Byte>)
    requires at + |x| <= a.Length
    modifies a
    ensures a[..] == old(a[..at]) + x + old(a[at + |x|..])
  {
    var i := 0;
    while i < |x|
      invariant 0 <= i <= |x|
      invariant forall k :: 0 <= k < a.Length ==> a[k] == if at <= k < at + i then x[k - at] else old(a[k])
    {
      a[at + i] := x[i];
      i := i + 1;
    }
  }
}
