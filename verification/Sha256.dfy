/** The streaming SHA-256 of default-impl/crypto/vs-soft-secmodule/src/soft-secmodule-sha2.c
    against the definition in sections 4.1.2, 4.2.2, 5.1.1, 5.2.1, 5.3.3 and 6.2.2 of FIPS 180-4. */
module Sha256 {
  import opened Bytes

  // ---------------------------------------------------------------- FIPS 180-4

  const K: seq<bv32> :=
    [0x428A2F98, 0x71374491, 0xB5C0FBCF, 0xE9B5DBA5, 0x3956C25B, 0x59F111F1, 0x923F82A4, 0xAB1C5ED5]
    + [0xD807AA98, 0x12835B01, 0x243185BE, 0x550C7DC3, 0x72BE5D74, 0x80DEB1FE, 0x9BDC06A7, 0xC19BF174]
    + [0xE49B69C1, 0xEFBE4786, 0x0FC19DC6, 0x240CA1CC, 0x2DE92C6F, 0x4A7484AA, 0x5CB0A9DC, 0x76F988DA]
    + [0x983E5152, 0xA831C66D, 0xB00327C8, 0xBF597FC7, 0xC6E00BF3, 0xD5A79147, 0x06CA6351, 0x14292967]
    + [0x27B70A85, 0x2E1B2138, 0x4D2C6DFC, 0x53380D13, 0x650A7354, 0x766A0ABB, 0x81C2C92E, 0x92722C85]
    + [0xA2BFE8A1, 0xA81A664B, 0xC24B8B70, 0xC76C51A3, 0xD192E819, 0xD6990624, 0xF40E3585, 0x106AA070]
    + [0x19A4C116, 0x1E376C08, 0x2748774C, 0x34B0BCB5, 0x391C0CB3, 0x4ED8AA4A, 0x5B9CCA4F, 0x682E6FF3]
    + [0x748F82EE, 0x78A5636F, 0x84C87814, 0x8CC70208, 0x90BEFFFA, 0xA4506CEB, 0xBEF9A3F7, 0xC67178F2]

  /** The working variables a to h, or the intermediate hash value. */
  datatype Regs = Regs(a: bv32, b: bv32, c: bv32, d: bv32, e: bv32, f: bv32, g: bv32, h: bv32)

  const H0 := Regs(0x6A09E667, 0xBB67AE85, 0x3C6EF372, 0xA54FF53A, 0x510E527F, 0x9B05688C, 0x1F83D9AB, 0x5BE0CD19)

  function Rotr(x: bv32, n: bv32): bv32
    requires 0 < n < 32
  {
    (x >> n) | (x << (32 - n))
  }

  /** Addition modulo 2^32. */
  function Add(x: bv32, y: bv32): bv32 { x + y }
  function Add4(x: bv32, y: bv32, z: bv32, u: bv32): bv32 { x + y + z + u }
  function Add5(x: bv32, y: bv32, z: bv32, u: bv32, v: bv32): bv32 { x + y + z + u + v }

  function Ch(x: bv32, y: bv32, z: bv32): bv32 { (x & y) ^ (!x & z) }
  function Maj(x: bv32, y: bv32, z: bv32): bv32 { (x & y) ^ (x & z) ^ (y & z) }
  function BigSigma0(x: bv32): bv32 { Rotr(x, 2) ^ Rotr(x, 13) ^ Rotr(x, 22) }
  function BigSigma1(x: bv32): bv32 { Rotr(x, 6) ^ Rotr(x, 11) ^ Rotr(x, 25) }
  function SmallSigma0(x: bv32): bv32 { Rotr(x, 7) ^ Rotr(x, 18) ^ (x >> 3) }
  function SmallSigma1(x: bv32): bv32 { Rotr(x, 17) ^ Rotr(x, 19) ^ (x >> 10) }

  lemma FourBytes(s: seq<Byte>)
    requires |s| == 4
    ensures FromBE(s) < 0x1_0000_0000
  {
    FromBEBound(s);
    assert Pow256(4) == 0x1_0000_0000;
  }

  /** The i-th 32-bit word of a block. */
  function WordAt(block: seq<Byte>, i: nat): bv32
    requires 4 * i + 4 <= |block|
  {
    FourBytes(block[4 * i..4 * i + 4]);
    FromBE(block[4 * i..4 * i + 4]) as bv32
  }

  /** A word of the message schedule from those 2, 7, 15 and 16 places before it. */
  function NextWord(w2: bv32, w7: bv32, w15: bv32, w16: bv32): bv32 {
    Add4(SmallSigma1(w2), w7, SmallSigma0(w15), w16)
  }

  /** The message schedule. */
  function Schedule(block: seq<Byte>, t: nat): bv32
    requires |block| == 64
  {
    if t < 16 then WordAt(block, t)
    else NextWord(Schedule(block, t - 2), Schedule(block, t - 7), Schedule(block, t - 15), Schedule(block, t - 16))
  }

  /** The two temporary words of a round. */
  function Temp1(e: bv32, f: bv32, g: bv32, h: bv32, k: bv32, w: bv32): bv32 {
    Add5(h, BigSigma1(e), Ch(e, f, g), k, w)
  }

  function Temp2(a: bv32, b: bv32, c: bv32): bv32 {
    Add(BigSigma0(a), Maj(a, b, c))
  }

  function Round(r: Regs, k: bv32, w: bv32): Regs {
    var t1, t2 := Temp1(r.e, r.f, r.g, r.h, k, w), Temp2(r.a, r.b, r.c);
    Regs(Add(t1, t2), r.a, r.b, r.c, Add(r.d, t1), r.e, r.f, r.g)
  }

  function Rounds(r: Regs, block: seq<Byte>, t: nat): Regs
    requires |block| == 64 && t <= 64
  {
    if t == 0 then r else Round(Rounds(r, block, t - 1), K[t - 1], Schedule(block, t - 1))
  }

  function Plus(x: Regs, y: Regs): Regs {
    Regs(Add(x.a, y.a), Add(x.b, y.b), Add(x.c, y.c), Add(x.d, y.d),
         Add(x.e, y.e), Add(x.f, y.f), Add(x.g, y.g), Add(x.h, y.h))
  }

  function Compress(r: Regs, block: seq<Byte>): Regs
    requires |block| == 64
  {
    Plus(r, Rounds(r, block, 64))
  }

  function BlockAt(m: seq<Byte>, i: nat): (b: seq<Byte>)
    requires 64 * i + 64 <= |m|
    ensures |b| == 64
  {
    m[64 * i..64 * i + 64]
  }

  /** The intermediate hash value after the first n blocks of m. */
  function Hashed(m: seq<Byte>, n: nat): Regs
    requires 64 * n <= |m|
  {
    if n == 0 then H0 else Compress(Hashed(m, n - 1), BlockAt(m, n - 1))
  }

  const TWO64 := 0x1_0000_0000_0000_0000

  /** How many zero bytes the padding of an l-byte message has. */
  function ZeroBytes(l: nat): (k: nat)
    ensures (l + 1 + k) % 64 == 56
  {
    (119 - l % 64) % 64
  }

  /** The message, the one bit, the zeros and the length in bits. */
  function Pad(m: seq<Byte>): (p: seq<Byte>)
    ensures |p| % 64 == 0
  {
    WholePad(|m|);
    m + [0x80] + Fill(0, ZeroBytes(|m|)) + BE(8 * |m| % TWO64, 8)
  }

  lemma WholePad(l: nat)
    ensures (l + 1 + ZeroBytes(l) + 8) % 64 == 0
  {
  }

  function Output(r: Regs): (s: seq<Byte>)
    ensures |s| == 32
  {
    BE(r.a as int, 4) + BE(r.b as int, 4) + BE(r.c as int, 4) + BE(r.d as int, 4)
    + BE(r.e as int, 4) + BE(r.f as int, 4) + BE(r.g as int, 4) + BE(r.h as int, 4)
  }

  /** SHA-256 of a whole message; defined by the standard below 2^61 bytes. */
  function Hash(m: seq<Byte>): (digest: seq<Byte>)
    ensures |digest| == 32
  {
    Output(Hashed(Pad(m), |Pad(m)| / 64))
  }

  /** The padding uses the fewest zeros that fill the block up to the length field. */
  lemma PadIsMinimal(l: nat, k: nat)
    requires (l + 1 + k) % 64 == 56
    ensures ZeroBytes(l) <= k
  {
  }

  /** Below 2^61 bytes the padding ends in the length in bits. */
  lemma PadLength(m: seq<Byte>)
    requires |m| < 0x2000_0000_0000_0000
    ensures FromBE(Pad(m)[|Pad(m)| - 8..]) == 8 * |m|
  {
    hide BE, FromBE, Pow256, ZeroBytes;
    EightBytes();
    BERoundTrip(8 * |m|, 8);
    assert Pad(m)[|Pad(m)| - 8..] == BE(8 * |m|, 8);
  }

  lemma EightBytes()
    ensures Pow256(4) == 0x1_0000_0000 && Pow256(8) == TWO64
  {
    assert Pow256(4) == 0x1_0000_0000;
  }

  lemma {:induction false} HashedPrefix(m: seq<Byte>, x: seq<Byte>, n: nat)
    requires 64 * n <= |m|
    ensures Hashed(m + x, n) == Hashed(m, n)
  {
    hide Compress;
    if n > 0 {
      HashedPrefix(m, x, n - 1);
      assert BlockAt(m + x, n - 1) == BlockAt(m, n - 1);
    }
  }

  // ---------------------------------------------------------------- the reduced forms

  function F0(x: bv32, y: bv32, z: bv32): bv32 { (x & y) | (z & (x | y)) }
  function F1(x: bv32, y: bv32, z: bv32): bv32 { z ^ (x & (y ^ z)) }


  lemma ReducedMaj(x: bv32, y: bv32, z: bv32)
    ensures (x & y) | (z & (x | y)) == (x & y) ^ (x & z) ^ (y & z)
  {
  }

  lemma ReducedCh(x: bv32, y: bv32, z: bv32)
    ensures z ^ (x & (y ^ z)) == (x & y) ^ (!x & z)
  {
  }

  /** The branch-reduced forms compute the functions of the standard. */
  lemma Reduced(x: bv32, y: bv32, z: bv32)
    ensures F0(x, y, z) == Maj(x, y, z) && F1(x, y, z) == Ch(x, y, z)
  {
    ReducedMaj(x, y, z);
    ReducedCh(x, y, z);
  }

  /** The temporary words in their reduced forms. */
  function ReducedTemp1(e: bv32, f: bv32, g: bv32, h: bv32, k: bv32, x: bv32): bv32 {
    Add5(h, BigSigma1(e), F1(e, f, g), k, x)
  }

  function ReducedTemp2(a: bv32, b: bv32, c: bv32): bv32 {
    Add(BigSigma0(a), F0(a, b, c))
  }

  lemma ReducedTemps(a: bv32, b: bv32, c: bv32, e: bv32, f: bv32, g: bv32, h: bv32, k: bv32, x: bv32)
    ensures ReducedTemp1(e, f, g, h, k, x) == Temp1(e, f, g, h, k, x)
    ensures ReducedTemp2(a, b, c) == Temp2(a, b, c)
  {
    hide Add, Add5, BigSigma0, BigSigma1, F0, F1, Ch, Maj;
    Reduced(a, b, c);
    Reduced(e, f, g);
  }

  // ---------------------------------------------------------------- one block, in place

  /** The working variables, wherever the unrolled rounds keep them. */
  function View(A: seq<bv32>, a: nat, b: nat, c: nat, d: nat, e: nat, f: nat, g: nat, h: nat): Regs
    requires |A| == 8 && a < 8 && b < 8 && c < 8 && d < 8 && e < 8 && f < 8 && g < 8 && h < 8
  {
    Regs(A[a], A[b], A[c], A[d], A[e], A[f], A[g], A[h])
  }

  function RegsOf(s: seq<bv32>): Regs
    requires |s| == 8
  {
    View(s, 0, 1, 2, 3, 4, 5, 6, 7)
  }

  /** One round; instead of moving the variables along, their roles rotate. */
  method P(A: array<bv32>, a: nat, b: nat, c: nat, d: nat, e: nat, f: nat, g: nat, h: nat, x: bv32, k: bv32)
    requires A.Length == 8 && a < 8 && b < 8 && c < 8 && d < 8 && e < 8 && f < 8 && g < 8 && h < 8
    requires d !in {a, b, c, e, f, g, h} && h !in {a, b, c, d, e, f, g}
    modifies A
    ensures View(A[..], h, a, b, c, d, e, f, g) == Round(old(View(A[..], a, b, c, d, e, f, g, h)), k, x)
  {
    hide Add, Temp1, Temp2, ReducedTemp1, ReducedTemp2;
    ReducedTemps(A[a], A[b], A[c], A[e], A[f], A[g], A[h], k, x);
    var temp1 := ReducedTemp1(A[e], A[f], A[g], A[h], k, x);
    var temp2 := ReducedTemp2(A[a], A[b], A[c]);
    A[d] := Add(A[d], temp1);
    A[h] := Add(temp1, temp2);
  }

  /** The first t entries of W are the message schedule. */
  ghost predicate Scheduled(W: array<bv32>, block: seq<Byte>, t: nat)
    reads W
  {
    W.Length == 64 && |block| == 64 && t <= 64 && forall i :: 0 <= i < t ==> W[i] == Schedule(block, i)
  }

  /** Extends the schedule by one entry. */
  method R(W: array<bv32>, t: nat, ghost block: seq<Byte>) returns (x: bv32)
    requires 16 <= t < 64 && Scheduled(W, block, t)
    modifies W
    ensures Scheduled(W, block, t + 1) && x == Schedule(block, t)
  {
    hide NextWord;
    W[t] := NextWord(W[t - 2], W[t - 7], W[t - 15], W[t - 16]);
    return W[t];
  }

  /** The W entry of round t: loaded already, or computed on the way. */
  method WordFor(W: array<bv32>, t: nat, ghost block: seq<Byte>) returns (x: bv32)
    requires t < 64 && Scheduled(W, block, if t < 16 then 16 else t)
    modifies W
    ensures Scheduled(W, block, if t + 1 < 16 then 16 else t + 1) && x == Schedule(block, t)
  {
    hide Schedule;
    if t < 16 {
      x := W[t];
    } else {
      x := R(W, t, block);
    }
  }

  lemma RoundsStep(start: Regs, block: seq<Byte>, t: nat)
    requires |block| == 64 && t < 64
    ensures Rounds(start, block, t + 1) == Round(Rounds(start, block, t), K[t], Schedule(block, t))
  {
    hide Round, Schedule;
  }

  /** Round t, with the variables kept where the indices say. */
  method OneRound(A: array<bv32>, a: nat, b: nat, c: nat, d: nat, e: nat, f: nat, g: nat, h: nat,
                  W: array<bv32>, t: nat, ghost block: seq<Byte>, ghost start: Regs)
    requires A != W && A.Length == 8 && a < 8 && b < 8 && c < 8 && d < 8 && e < 8 && f < 8 && g < 8 && h < 8
    requires d !in {a, b, c, e, f, g, h} && h !in {a, b, c, d, e, f, g}
    requires t < 64 && Scheduled(W, block, if t < 16 then 16 else t)
    requires |block| == 64 && View(A[..], a, b, c, d, e, f, g, h) == Rounds(start, block, t)
    modifies A, W
    ensures Scheduled(W, block, if t + 1 < 16 then 16 else t + 1)
    ensures View(A[..], h, a, b, c, d, e, f, g) == Rounds(start, block, t + 1)
  {
    hide View, Scheduled, Round, Rounds, Schedule;
    var x := WordFor(W, t, block);
    P(A, a, b, c, d, e, f, g, h, x, K[t]);
    RoundsStep(start, block, t);
  }

  /** Eight rounds, at the end of which every variable is back in its place. */
  method EightRounds(A: array<bv32>, W: array<bv32>, i: nat, ghost block: seq<Byte>, ghost start: Regs)
    requires A != W && A.Length == 8 && i <= 56 && Scheduled(W, block, if i < 16 then 16 else i)
    requires |block| == 64 && RegsOf(A[..]) == Rounds(start, block, i)
    modifies A, W
    ensures Scheduled(W, block, if i + 8 < 16 then 16 else i + 8)
    ensures RegsOf(A[..]) == Rounds(start, block, i + 8)
  {
    hide View, Scheduled, Rounds;
    OneRound(A, 0, 1, 2, 3, 4, 5, 6, 7, W, i, block, start);
    OneRound(A, 7, 0, 1, 2, 3, 4, 5, 6, W, i + 1, block, start);
    OneRound(A, 6, 7, 0, 1, 2, 3, 4, 5, W, i + 2, block, start);
    OneRound(A, 5, 6, 7, 0, 1, 2, 3, 4, W, i + 3, block, start);
    OneRound(A, 4, 5, 6, 7, 0, 1, 2, 3, W, i + 4, block, start);
    OneRound(A, 3, 4, 5, 6, 7, 0, 1, 2, W, i + 5, block, start);
    OneRound(A, 2, 3, 4, 5, 6, 7, 0, 1, W, i + 6, block, start);
    OneRound(A, 1, 2, 3, 4, 5, 6, 7, 0, W, i + 7, block, start);
  }

  // ---------------------------------------------------------------- the context

  const TWO32 := 0x1_0000_0000

  /** PUT_UINT32_BE. */
  method PutUint32BE(n: nat, b: array<Byte>, i: nat)
    requires n < TWO32 && i + 4 <= b.Length
    modifies b
    ensures b[..] == old(b[..i]) + BE(n, 4) + old(b[i + 4..])
  {
    WordBytes(n);
    b[i] := n / 0x100_0000 % 256;
    b[i + 1] := n / 0x1_0000 % 256;
    b[i + 2] := n / 0x100 % 256;
    b[i + 3] := n % 256;
  }

  lemma WordBytes(n: nat)
    ensures BE(n, 4) == [n / 0x100_0000 % 256, n / 0x1_0000 % 256, n / 0x100 % 256, n % 256]
  {
    assert BE(n, 1) == [n % 256];
    assert n / 0x100 / 0x100 == n / 0x1_0000 && n / 0x100 / 0x100 / 0x100 == n / 0x100_0000;
    assert BE(n / 0x100_0000, 1) == [n / 0x100_0000 % 256];
    assert BE(n / 0x1_0000, 2) == BE(n / 0x100_0000, 1) + [n / 0x1_0000 % 256];
    assert BE(n / 0x100, 3) == BE(n / 0x1_0000, 2) + [n / 0x100 % 256];
  }

  lemma Residue(l: nat, q: nat, s: nat)
    requires l == TWO64 * q + s && s < TWO64
    ensures l % TWO64 == s && l % 64 == s % 64
  {
    Remainder(l, TWO64, q, s);
  }

  /** The two counters together count modulo 2^64. */
  lemma CounterMoves(t0: nat, t1: nat, l: nat, len: nat)
    requires t0 < TWO32 && t1 < TWO32 && len < TWO32 && t0 + t1 * TWO32 == l % TWO64
    ensures t0 % 64 == l % 64
    ensures var s0 := (t0 + len) % TWO32;
            var s1 := if s0 < len then (t1 + 1) % TWO32 else t1;
            s0 + s1 * TWO32 == (l + len) % TWO64
  {
    var q := l / TWO64;
    Residue(l, q, t0 + t1 * TWO32);
    var carry := if t0 + len < TWO32 then 0 else 1;
    assert (t0 + len) % TWO32 == t0 + len - carry * TWO32;
    if t1 + carry < TWO32 {
      Residue(l + len, q, t0 + len + t1 * TWO32);
    } else {
      Residue(l + len, q + 1, t0 + len - TWO32);
    }
  }

  /** One word behind what has been written. */
  method PutNext(w: bv32, digest: array<Byte>, i: nat, ghost done: seq<Byte>, ghost was: seq<Byte>)
    returns (ghost done': seq<Byte>)
    requires |was| == digest.Length && i + 4 <= |was| && |done| == i && digest[..] == done + was[i..]
    modifies digest
    ensures done' == done + BE(w as int, 4) && |done'| == i + 4 && digest[..] == done' + was[i + 4..]
  {
    PutUint32BE(w as int, digest, i);
    done' := done + BE(w as int, 4);
  }

  lemma OutputWords(s: seq<bv32>)
    requires |s| == 8
    ensures Output(RegsOf(s)) == [] + BE(s[0] as int, 4) + BE(s[1] as int, 4) + BE(s[2] as int, 4) + BE(s[3] as int, 4)
                                 + BE(s[4] as int, 4) + BE(s[5] as int, 4) + BE(s[6] as int, 4) + BE(s[7] as int, 4)
  {
    hide BE;
    assert [] + BE(s[0] as int, 4) == BE(s[0] as int, 4);
  }

  method WriteDigest(s: seq<bv32>, digest: array<Byte>)
    requires |s| == 8 && digest.Length >= 32
    modifies digest
    ensures digest[..] == Output(RegsOf(s)) + old(digest[32..])
  {
    hide *;
    OutputWords(s);
    ghost var was, done := digest[..], [];
    done := PutNext(s[0], digest, 0, done, was);
    done := PutNext(s[1], digest, 4, done, was);
    done := PutNext(s[2], digest, 8, done, was);
    done := PutNext(s[3], digest, 12, done, was);
    done := PutNext(s[4], digest, 16, done, was);
    done := PutNext(s[5], digest, 20, done, was);
    done := PutNext(s[6], digest, 24, done, was);
    done := PutNext(s[7], digest, 28, done, was);
  }

  /** vs_secmodule_sw_sha256_ctx; `fed` is what has been hashed so far. */
  class Context {
    var total0: nat
    var total1: nat
    var state: array<bv32>
    var buffer: array<Byte>
    ghost var fed: seq<Byte>

    ghost predicate Shape()
      reads this`total0, this`total1, this`state, this`buffer
    {
      state.Length == 8 && buffer.Length == 64 && total0 < TWO32 && total1 < TWO32
    }

    /** The state has absorbed the whole blocks of m, and the buffer starts with its rest. */
    ghost predicate Absorbed(m: seq<Byte>)
      requires Shape()
      reads this`total0, this`total1, this`state, this`buffer, state, buffer
    {
      && RegsOf(state[..]) == Hashed(m, |m| / 64)
      && buffer[..|m| % 64] == m[|m| / 64 * 64..]
    }

    ghost predicate Counted(m: seq<Byte>)
      reads this`total0, this`total1
    {
      total0 + total1 * TWO32 == |m| % TWO64
    }

    ghost predicate Valid()
      reads this, state, buffer
    {
      Shape() && Absorbed(fed) && Counted(fed)
    }

    /** mbedtls_internal_sha256_process. */
    method Process(data: seq<Byte>)
      requires Shape() && |data| == 64
      modifies state
      ensures RegsOf(state[..]) == Compress(old(RegsOf(state[..])), data)
    {
      hide Rounds, Scheduled, Schedule, Add, WordAt, RegsOf;
      var W, A := new bv32[64], new bv32[8];
      ghost var start := RegsOf(state[..]);
      Copy(A, state);
      LoadWords(W, data);
      StartRounds(start, data, A[..]);
      var i := 0;
      while i < 16
        invariant i <= 16 && i % 8 == 0 && Scheduled(W, data, 16)
        invariant RegsOf(A[..]) == Rounds(start, data, i) && state[..] == old(state[..])
      {
        EightRounds(A, W, i, data, start);
        i := i + 8;
      }
      i := 16;
      while i < 64
        invariant i <= 64 && i % 8 == 0 && i >= 16 && Scheduled(W, data, i)
        invariant RegsOf(A[..]) == Rounds(start, data, i) && state[..] == old(state[..])
      {
        EightRounds(A, W, i, data, start);
        i := i + 8;
      }
      AddTo(state, A);
    }

    /** vs_secmodule_sw_sha256_init. */
    constructor ()
      ensures Valid() && fed == [] && fresh(state) && fresh(buffer)
    {
      total0, total1, fed := 0, 0, [];
      state, buffer := new bv32[8], new Byte[64](_ => 0);
      new;
      state[0], state[1], state[2], state[3] := 0x6A09E667, 0xBB67AE85, 0x3C6EF372, 0xA54FF53A;
      state[4], state[5], state[6], state[7] := 0x510E527F, 0x9B05688C, 0x1F83D9AB, 0x5BE0CD19;
    }

    /** Puts a piece of the message into the buffer. */
    method Store(at: nat, data: seq<Byte>)
      requires Shape() && at + |data| <= 64
      modifies buffer
      ensures buffer[..] == old(buffer[..at]) + data + old(buffer[at + |data|..])
    {
      var i := 0;
      while i < |data|
        invariant 0 <= i <= |data|
        invariant forall k :: 0 <= k < 64 ==> buffer[k] == if at <= k < at + i then data[k - at] else old(buffer[k])
      {
        buffer[at + i] := data[i];
        i := i + 1;
      }
    }

    /** Hashes block number n of a message whose first n blocks have been hashed. */
    method ProcessBlock(ghost m: seq<Byte>, ghost n: nat, data: seq<Byte>)
      requires Shape() && 64 * n + 64 <= |m| && data == BlockAt(m, n) && RegsOf(state[..]) == Hashed(m, n)
      modifies state
      ensures RegsOf(state[..]) == Hashed(m, n + 1)
    {
      hide Compress, RegsOf, BlockAt;
      Process(data);
    }

    method Count(len: nat, ghost m: seq<Byte>)
      requires Shape() && Counted(fed) && len < TWO32 && |m| == |fed| + len
      modifies this`total0, this`total1
      ensures Shape() && Counted(m)
    {
      CounterMoves(total0, total1, |fed|, len);
      total0 := (total0 + len) % TWO32;
      if total0 < len {
        total1 := (total1 + 1) % TWO32;
      }
    }

    /** The first n blocks of m are hashed and the buffer starts with the next `left` bytes. */
    ghost predicate Upto(m: seq<Byte>, n: nat, left: nat)
      reads this`total0, this`total1, this`state, this`buffer, state, buffer
    {
      && Shape() && left < 64 && 64 * n + left <= |m|
      && RegsOf(state[..]) == Hashed(m, n) && buffer[..left] == m[64 * n..64 * n + left]
    }

    /** The buffered bytes are completed to a block. */
    method FillUp(ghost m: seq<Byte>, ghost n: nat, left: nat, data: seq<Byte>)
      requires Upto(m, n, left) && left + |data| == 64 && 64 * n + 64 <= |m|
      requires data == m[64 * n + left..64 * n + 64]
      modifies state, buffer
      ensures Upto(m, n + 1, 0)
    {
      hide Hashed, RegsOf;
      Store(left, data);
      assert buffer[..] == BlockAt(m, n);
      ProcessBlock(m, n, buffer[..]);
    }

    /** Whole blocks are hashed where they lie; after a partly filled buffer there are none. */
    method WholeBlocks(ghost m: seq<Byte>, ghost n: nat, ghost left: nat, message: seq<Byte>)
      returns (off: nat, ghost n': nat)
      requires Upto(m, n, left) && m[64 * n + left..] == message && (left == 0 || left + |message| < 64)
      modifies state
      ensures off <= |message| && left + |message| - off < 64 && 64 * n' == 64 * n + off && Upto(m, n', left)
      ensures m[64 * n' + left..] == message[off..]
    {
      hide Hashed, RegsOf;
      off, n' := 0, n;
      while |message| - off >= 64
        invariant off <= |message| && 64 * n' == 64 * n + off && Upto(m, n', left)
        invariant left == 0 || (off == 0 && |message| < 64)
      {
        assert message[off..off + 64] == BlockAt(m, n');
        ProcessBlock(m, n', message[off..off + 64]);
        off, n' := off + 64, n' + 1;
      }
    }

    /** What is left goes to the buffer. */
    method Keep(ghost m: seq<Byte>, ghost n: nat, left: nat, rest: seq<Byte>)
      requires Upto(m, n, left) && left + |rest| < 64 && m[64 * n + left..] == rest
      modifies buffer
      ensures Upto(m, n, left + |rest|)
    {
      hide Hashed, RegsOf;
      if |rest| > 0 {
        Store(left, rest);
      }
    }

    lemma AbsorbedUpto(m: seq<Byte>, n: nat, left: nat)
      requires Shape() && left < 64 && |m| == 64 * n + left
      ensures Absorbed(m) <==> Upto(m, n, left)
    {
      hide Hashed, RegsOf;
      assert m[64 * n..64 * n + left] == m[64 * n..];
    }

    lemma UptoGrows(m: seq<Byte>, n: nat, left: nat, x: seq<Byte>)
      requires Upto(m, n, left)
      ensures Upto(m + x, n, left)
    {
      hide Hashed, RegsOf;
      HashedPrefix(m, x, n);
      assert (m + x)[64 * n..64 * n + left] == m[64 * n..64 * n + left];
    }

    /** Whole blocks, then the buffer. */
    method Drain(ghost m: seq<Byte>, ghost first: nat, start: nat, message: seq<Byte>)
      returns (ghost n: nat, left: nat)
      requires Upto(m, first, start) && m[64 * first + start..] == message && (start == 0 || start + |message| < 64)
      modifies state, buffer
      ensures Upto(m, n, left) && |m| == 64 * n + left
    {
      UptoBounds(m, first, start);
      hide *;
      var off;
      off, n := WholeBlocks(m, first, start, message);
      UptoBounds(m, n, start);
      var rest := message[off..];
      Keep(m, n, start, rest);
      left := start + |rest|;
    }

    /** Takes the rest of m, given as message, behind `start` buffered bytes. */
    method Absorb(ghost m: seq<Byte>, ghost first: nat, start: nat, message: seq<Byte>)
      returns (ghost n: nat, left: nat)
      requires Upto(m, first, start) && m[64 * first + start..] == message
      modifies state, buffer
      ensures Upto(m, n, left) && |m| == 64 * n + left
    {
      UptoBounds(m, first, start);
      hide *;
      var fill := 64 - start;
      if start != 0 && |message| >= fill {
        Suffix(m, 64 * first + start, message, fill);
        FillUp(m, first, start, message[..fill]);
        n, left := Drain(m, first + 1, 0, message[fill..]);
      } else {
        n, left := Drain(m, first, start, message);
      }
    }

    lemma UptoBounds(m: seq<Byte>, n: nat, left: nat)
      requires Upto(m, n, left)
      ensures Shape() && left < 64 && 64 * n + left <= |m|
    {
    }

    /** vs_secmodule_sw_sha256_update. */
    method Update(message: seq<Byte>)
      requires Valid() && |message| < TWO32
      modifies this`total0, this`total1, this`fed, state, buffer
      ensures Valid() && fed == old(fed) + message
    {
      if |message| == 0 {
        assert fed + message == fed;
        return;
      }
      hide Absorbed, Upto, Counted;
      ghost var m, n := fed + message, |fed| / 64;
      LeftIs();
      var left := total0 % 64;
      AbsorbedUpto(fed, n, left);
      UptoGrows(fed, n, left, message);
      Count(|message|, m);
      assert m[|fed|..] == message;
      n, left := Absorb(m, n, left, message);
      fed := m;
      UptoBounds(m, n, left);
      AbsorbedUpto(m, n, left);
    }

    lemma LeftIs()
      requires Shape() && Counted(fed)
      ensures total0 % 64 == |fed| % 64
    {
      CounterMoves(total0, total1, |fed|, 0);
    }

    // ------------------------------------------------------------ finishing

    /** memset on a part of the buffer. */
    method Clear(from: nat, to: nat)
      requires Shape() && from <= to <= 64
      modifies buffer
      ensures buffer[..] == old(buffer[..from]) + Fill(0, to - from) + old(buffer[to..])
    {
      Store(from, Fill(0, to - from));
    }

    /** Everything of the padding but the length. */
    method PadBuffer(ghost first: nat) returns (ghost n: nat)
      requires Upto(fed, first, |fed| % 64) && |fed| == 64 * first + |fed| % 64 && total0 % 64 == |fed| % 64
      modifies state, buffer
      ensures Upto(Pad(fed), n, 56) && |Pad(fed)| == 64 * n + 64
    {
      hide Hashed, RegsOf, Pad, ZeroBytes;
      PadParts(fed, first);
      n := first;
      var used := total0 % 64;
      PadKeepsHash(fed, n);
      Store(used, [0x80]);
      used := used + 1;
      if used <= 56 {
        Clear(used, 56);
        assert buffer[..56] == fed[64 * n..] + [0x80] + Fill(0, 56 - used);
      } else {
        Clear(used, 64);
        assert buffer[..] == fed[64 * n..] + [0x80] + Fill(0, 64 - used);
        ExtraBlock(Pad(fed), n);
        n := n + 1;
      }
    }

    /** The length did not fit: the full buffer is hashed and starts again with zeros. */
    method ExtraBlock(ghost p: seq<Byte>, ghost n: nat)
      requires Shape() && |p| == 64 * n + 128 && RegsOf(state[..]) == Hashed(p, n)
      requires buffer[..] == p[64 * n..64 * n + 64] && p[64 * n + 64..64 * n + 120] == Fill(0, 56)
      modifies state, buffer
      ensures Upto(p, n + 1, 56)
    {
      hide Hashed, RegsOf;
      ProcessBlock(p, n, buffer[..]);
      Clear(0, 64);
      assert buffer[..56] == Fill(0, 56);
    }

    /** The length in bits, and the last block. */
    method Finish(ghost n: nat)
      requires Shape() && Counted(fed) && Upto(Pad(fed), n, 56) && |Pad(fed)| == 64 * n + 64
      modifies state, buffer
      ensures RegsOf(state[..]) == Hashed(Pad(fed), n + 1)
    {
      hide Hashed, RegsOf, Pad, BE;
      LengthBytes(total0, total1, |fed|);
      PadEnd(fed);
      PutLength(8 * |fed| % TWO64);
      LastBlock(Pad(fed), n, buffer[..]);
      ProcessBlock(Pad(fed), n, buffer[..]);
    }

    method PutLength(ghost bits: nat)
      requires Shape()
      requires BE((total0 / 0x2000_0000 + total1 * 8) % TWO32, 4) + BE(total0 * 8 % TWO32, 4) == BE(bits, 8)
      modifies buffer
      ensures buffer[..] == old(buffer[..56]) + BE(bits, 8)
    {
      hide BE;
      // the two operands of the bitwise or have no bit in common
      var high := (total0 / 0x2000_0000 + total1 * 8) % TWO32;
      var low := total0 * 8 % TWO32;
      PutUint32BE(high, buffer, 56);
      PutUint32BE(low, buffer, 60);
    }

    /** vs_secmodule_sw_sha256_final: the digest is that of everything fed, and the context is wiped. */
    method Final(digest: array<Byte>)
      requires Valid() && digest.Length >= 32 && digest != buffer
      modifies this`total0, this`total1, state, buffer, digest
      ensures digest[..] == Hash(old(fed)) + old(digest[32..])
      ensures total0 == 0 && total1 == 0 && (forall i :: 0 <= i < 8 ==> state[i] == 0) && forall i :: 0 <= i < 64 ==>
              buffer[i] == 0
    {
      hide Hashed, RegsOf, Pad, Upto, Absorbed, Counted;
      LeftIs();
      AbsorbedUpto(fed, |fed| / 64, |fed| % 64);
      ghost var n := PadBuffer(|fed| / 64);
      Finish(n);
      WriteDigest(state[..], digest);
      Wipe();
    }

    method Wipe()
      requires Shape()
      modifies this`total0, this`total1, state, buffer
      ensures total0 == 0 && total1 == 0 && (forall i :: 0 <= i < 8 ==> state[i] == 0) && forall i :: 0 <= i < 64 ==>
              buffer[i] == 0
    {
      var i := 0;
      while i < 8
        invariant 0 <= i <= 8 && forall k :: 0 <= k < i ==> state[k] == 0
        modifies state
      {
        state[i] := 0;
        i := i + 1;
      }
      Clear(0, 64);
      total0, total1 := 0, 0;
    }
  }

  lemma Suffix(m: seq<Byte>, a: nat, b: seq<Byte>, i: nat)
    requires a <= |m| && m[a..] == b && i <= |b|
    ensures m[a..a + i] == b[..i] && m[a + i..] == b[i..]
  {
  }

  /** The padded message behind the first whole blocks. */
  lemma PadParts(m: seq<Byte>, n: nat)
    requires |m| == 64 * n + |m| % 64
    ensures var p, r := Pad(m), |m| % 64;
            if r + 1 <= 56 then
              |p| == 64 * n + 64 && p[64 * n..64 * n + 56] == m[64 * n..] + [0x80] + Fill(0, 55 - r)
            else
              && |p| == 64 * n + 128 && p[64 * n..64 * n + 64] == m[64 * n..] + [0x80] + Fill(0, 63 - r)
              && p[64 * n + 64..64 * n + 120] == Fill(0, 56)
  {
    ZeroCount(|m|);
    hide ZeroBytes;
  }

  lemma ZeroCount(l: nat)
    ensures ZeroBytes(l) == if l % 64 <= 55 then 55 - l % 64 else 119 - l % 64
  {
  }

  lemma LastBlock(p: seq<Byte>, n: nat, b: seq<Byte>)
    requires |p| == 64 * n + 64 && |b| == 64 && b[..56] == p[64 * n..64 * n + 56] && b[56..] == p[|p| - 8..]
    ensures b == BlockAt(p, n)
  {
    assert b == b[..56] + b[56..];
  }

  lemma PadEnd(m: seq<Byte>)
    ensures |Pad(m)| >= 8 && Pad(m)[|Pad(m)| - 8..] == BE(8 * |m| % TWO64, 8)
  {
  }

  lemma PadKeepsHash(m: seq<Byte>, n: nat)
    requires 64 * n <= |m|
    ensures |m| <= |Pad(m)| && Hashed(Pad(m), n) == Hashed(m, n)
  {
    hide Hashed;
    var x := [0x80] + Fill(0, ZeroBytes(|m|)) + BE(8 * |m| % TWO64, 8);
    assert Pad(m) == m + x;
    HashedPrefix(m, x, n);
  }

  /** The two counters, shifted left by three, are the length in bits. */
  lemma LengthBytes(t0: nat, t1: nat, l: nat)
    requires t0 < TWO32 && t1 < TWO32 && t0 + t1 * TWO32 == l % TWO64
    ensures BE((t0 / 0x2000_0000 + t1 * 8) % TWO32, 4) + BE(t0 * 8 % TWO32, 4) == BE(8 * l % TWO64, 8)
  {
    var high, low := (t0 / 0x2000_0000 + t1 * 8) % TWO32, t0 * 8 % TWO32;
    hide BE;
    BitLength(t0, t1, l);
    EightBytes();
    BESplit(8 * l % TWO64, 4, 4);
    BEMod(8 * l % TWO64, 4);
  }

  lemma BitLength(t0: nat, t1: nat, l: nat)
    requires t0 < TWO32 && t1 < TWO32 && t0 + t1 * TWO32 == l % TWO64
    ensures 8 * l % TWO64 / TWO32 == (t0 / 0x2000_0000 + t1 * 8) % TWO32
    ensures 8 * l % TWO64 % TWO32 == t0 * 8 % TWO32
  {
    var c := l % TWO64;
    var k := t1 / 0x2000_0000;
    var rest := (t1 % 0x2000_0000) * 8;
    var carry, low := t0 / 0x2000_0000, t0 * 8 % TWO32;
    assert t0 * 8 == carry * TWO32 + low;
    assert 8 * c == TWO64 * k + (rest + carry) * TWO32 + low;
    Residue(8 * l, 8 * (l / TWO64) + k, (rest + carry) * TWO32 + low);
  }

  lemma StartRounds(start: Regs, data: seq<Byte>, s: seq<bv32>)
    requires |data| == 64 && |s| == 8 && RegsOf(s) == start
    ensures RegsOf(s) == Rounds(start, data, 0)
  {
    hide Round, Schedule;
  }

  method Copy(A: array<bv32>, state: array<bv32>)
    requires A != state && A.Length == 8 && state.Length == 8
    modifies A
    ensures A[..] == state[..]
  {
    var i := 0;
    while i < 8
      invariant 0 <= i <= 8 && forall k :: 0 <= k < i ==> A[k] == state[k]
    {
      A[i] := state[i];
      i := i + 1;
    }
  }

  method LoadWords(W: array<bv32>, data: seq<Byte>)
    requires W.Length == 64 && |data| == 64
    modifies W
    ensures Scheduled(W, data, 16)
  {
    hide WordAt, Add;
    var i := 0;
    while i < 16
      invariant 0 <= i <= 16 && Scheduled(W, data, i)
    {
      W[i] := WordAt(data, i);
      i := i + 1;
    }
  }

  method AddTo(state: array<bv32>, A: array<bv32>)
    requires A != state && A.Length == 8 && state.Length == 8
    modifies state
    ensures RegsOf(state[..]) == Plus(old(RegsOf(state[..])), RegsOf(A[..]))
  {
    hide Add;
    var i := 0;
    while i < 8
      invariant 0 <= i <= 8 && A[..] == old(A[..])
      invariant forall k :: 0 <= k < i ==> state[k] == Add(old(state[k]), A[k])
      invariant forall k :: i <= k < 8 ==> state[k] == old(state[k])
    {
      state[i] := Add(state[i], A[i]);
      i := i + 1;
    }
  }

  // ---------------------------------------------------------------- any split

  lemma JoinedStep(parts: seq<seq<Byte>>, i: nat, fed: seq<Byte>)
    requires i < |parts|
    ensures fed + Joined(parts[i..]) == fed + parts[i] + Joined(parts[i + 1..])
  {
    assert parts[i..][1..] == parts[i + 1..];
  }

  lemma JoinedEnds(parts: seq<seq<Byte>>)
    ensures [] + Joined(parts[0..]) == Joined(parts)
    ensures forall fed: seq<Byte> :: fed + Joined(parts[|parts|..]) == fed
  {
    assert parts[0..] == parts;
    assert Joined(parts[|parts|..]) == [];
  }

  /** However a message is cut into update calls, the digest is that of the whole message. */
  method HashParts(parts: seq<seq<Byte>>) returns (digest: array<Byte>)
    requires forall i :: 0 <= i < |parts| ==> |parts[i]| < TWO32
    ensures fresh(digest) && digest[..] == Hash(Joined(parts))
  {
    hide *;
    JoinedEnds(parts);
    var ctx := new Context();
    var i := 0;
    while i < |parts|
      invariant 0 <= i <= |parts| && ctx.Valid() && fresh(ctx) && fresh(ctx.state) && fresh(ctx.buffer)
      invariant ctx.fed + Joined(parts[i..]) == Joined(parts)
    {
      JoinedStep(parts, i, ctx.fed);
      ctx.Update(parts[i]);
      i := i + 1;
    }
    digest := new Byte[32](_ => 0);
    ctx.Final(digest);
  }
}
