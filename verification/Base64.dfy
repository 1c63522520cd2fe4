/** Base64 (section 4 of RFC 4648) as modules/cloud/src/base64.c computes it, over arrays, with the
    output allowed to overwrite the input. */
module Base64 {

  type Octet = bv8

  const PAD: Octet := 61 // '='
  const NUL: Octet := 0

  /** basis_64: A-Z, a-z, 0-9, + and /. */
  function Basis(i: Octet): Octet {
    if i < 26 then i + 65
    else if i < 52 then i + 71
    else if i < 62 then i - 4
    else if i == 62 then 43
    else 47
  }

  /** pr2six: the value of a character of the alphabet, 64 for any other. */
  function Six(c: Octet): Octet {
    if 65 <= c <= 90 then c - 65
    else if 97 <= c <= 122 then c - 71
    else if 48 <= c <= 57 then c + 4
    else if c == 43 then 62
    else if c == 47 then 63
    else 64
  }

  predicate InAlphabet(c: Octet) {
    Six(c) <= 63
  }

  /** Table 1 of RFC 4648: capital letters, small letters, digits, plus and slash. */
  lemma TableOne(i: Octet)
    ensures i < 26 ==> Basis(i) as int == 'A' as int + i as int
    ensures 26 <= i < 52 ==> Basis(i) as int == 'a' as int + i as int - 26
    ensures 52 <= i < 62 ==> Basis(i) as int == '0' as int + i as int - 52
    ensures Basis(62) as int == '+' as int && Basis(63) as int == '/' as int
  {
  }

  /** The two tables are inverse, and neither padding nor the terminator is in the alphabet. */
  lemma TablesAgree(i: Octet, c: Octet)
    ensures i < 64 ==> Six(Basis(i)) == i
    ensures InAlphabet(c) ==> Basis(Six(c)) == c
    ensures !InAlphabet(PAD) && !InAlphabet(NUL)
  {
  }

  /** Three bytes joined to 24 bits and cut into four characters. */
  function Chars(a: Octet, b: Octet, c: Octet): (s: seq<Octet>)
    ensures |s| == 4
  {
    var group := ((a as bv24) << 16) | ((b as bv24) << 8) | (c as bv24);
    [Basis(((group >> 18) & 63) as Octet), Basis(((group >> 12) & 63) as Octet),
     Basis(((group >> 6) & 63) as Octet), Basis((group & 63) as Octet)]
  }

  /** Four 6-bit values joined to 24 bits and cut into three bytes. */
  function Triple(p: Octet, q: Octet, r: Octet, t: Octet): (s: seq<Octet>)
    ensures |s| == 3
  {
    var group := ((p as bv24) << 18) | ((q as bv24) << 12) | ((r as bv24) << 6) | (t as bv24);
    [((group >> 16) & 255) as Octet, ((group >> 8) & 255) as Octet, (group & 255) as Octet]
  }

  /** The text of a byte string. */
  function Text(s: seq<Octet>): (t: seq<Octet>)
    ensures |t| == (|s| + 2) / 3 * 4
  {
    if s == [] then []
    else if |s| == 1 then Chars(s[0], 0, 0)[..2] + [PAD, PAD]
    else if |s| == 2 then Chars(s[0], s[1], 0)[..3] + [PAD]
    else Chars(s[0], s[1], s[2]) + Text(s[3..])
  }

  /** The leading characters of the alphabet; decoding stops at the first other one. */
  function Leading(t: seq<Octet>): (v: seq<Octet>)
    ensures |v| <= |t| && v == t[..|v|] && (forall c <- v :: InAlphabet(c))
    ensures |v| < |t| ==> !InAlphabet(t[|v|])
  {
    if t == [] || !InAlphabet(t[0]) then [] else [t[0]] + Leading(t[1..])
  }

  function At(v: seq<Octet>, i: nat): Octet {
    if i < |v| then Six(v[i]) else 0
  }

  /** The bytes of a run of characters; a last group short of four stands for one byte less than it has
      characters. */
  function Groups(v: seq<Octet>): (s: seq<Octet>)
    ensures |s| == |v| / 4 * 3 + (if |v| % 4 == 0 then 0 else |v| % 4 - 1)
  {
    if |v| <= 4 then Triple(At(v, 0), At(v, 1), At(v, 2), At(v, 3))[..if v == [] then 0 else |v| - 1]
    else Triple(At(v, 0), At(v, 1), At(v, 2), At(v, 3)) + Groups(v[4..])
  }

  function Decoded(t: seq<Octet>): seq<Octet> {
    Groups(Leading(t))
  }

  /** base64encode_len. */
  function EncodeLen(n: nat): nat {
    (n + 2) / 3 * 4 + 1
  }

  /** base64decode_len: what the caller has to provide. */
  function DecodeLen(t: seq<Octet>): nat {
    (|Leading(t)| + 3) / 4 * 3 + 1
  }

  // The shifts of the source

  /** The 6-bit values of three bytes. */
  function First(a: Octet): Octet { (a >> 2) & 0x3F }
  function Second(a: Octet, b: Octet): Octet { ((a & 0x3) << 4) | ((b & 0xF0) >> 4) }
  function Third(b: Octet, c: Octet): Octet { ((b & 0xF) << 2) | ((c & 0xC0) >> 6) }
  function Fourth(c: Octet): Octet { c & 0x3F }

  /** ... of a last group with bytes missing. */
  function SecondAlone(a: Octet): Octet { (a & 0x3) << 4 }
  function ThirdAlone(b: Octet): Octet { (b & 0xF) << 2 }

  /** The bytes of four 6-bit values. */
  function High(p: Octet, q: Octet): Octet { (p << 2) | (q >> 4) }
  function Middle(q: Octet, r: Octet): Octet { (q << 4) | (r >> 2) }
  function Low(r: Octet, t: Octet): Octet { (r << 6) | t }

  /** The four characters as the encoder computes them. */
  lemma CharsByShifts(a: Octet, b: Octet, c: Octet)
    ensures Chars(a, b, c) == [Basis(First(a)), Basis(Second(a, b)), Basis(Third(b, c)), Basis(Fourth(c))]
  {
    hide Basis, First, Second, Third, Fourth;
    FirstTwo(a, b, c);
    LastTwo(a, b, c);
  }

  lemma FirstTwo(a: Octet, b: Octet, c: Octet)
    ensures var group := ((a as bv24) << 16) | ((b as bv24) << 8) | (c as bv24);
            && ((group >> 18) & 63) as Octet == First(a)
            && ((group >> 12) & 63) as Octet == Second(a, b)
  {
  }

  lemma LastTwo(a: Octet, b: Octet, c: Octet)
    ensures var group := ((a as bv24) << 16) | ((b as bv24) << 8) | (c as bv24);
            && ((group >> 6) & 63) as Octet == Third(b, c)
            && (group & 63) as Octet == Fourth(c)
  {
  }

  /** The three bytes as the decoder computes them. */
  lemma TripleByShifts(p: Octet, q: Octet, r: Octet, t: Octet)
    requires p < 64 && q < 64 && r < 64 && t < 64
    ensures Triple(p, q, r, t) == [High(p, q), Middle(q, r), Low(r, t)]
  {
    var group := ((p as bv24) << 18) | ((q as bv24) << 12) | ((r as bv24) << 6) | (t as bv24);
    assert ((group >> 16) & 255) as Octet == High(p, q);
    assert ((group >> 8) & 255) as Octet == Middle(q, r);
    assert (group & 255) as Octet == Low(r, t);
  }

  /** Cutting four values into bytes undoes cutting the bytes into values. */
  lemma TripleOfChars(a: Octet, b: Octet, c: Octet)
    ensures forall i :: 0 <= i < 4 ==> InAlphabet(Chars(a, b, c)[i])
    ensures var s := Chars(a, b, c); Triple(Six(s[0]), Six(s[1]), Six(s[2]), Six(s[3])) == [a, b, c]
  {
    hide Chars, Triple, Basis, Six, First, Second, Third, Fourth, High, Middle, Low;
    var p, q, r, t := First(a), Second(a, b), Third(b, c), Fourth(c);
    CharsByShifts(a, b, c);
    Sextets(a, b, c);
    TablesAgree(p, 0);
    TablesAgree(q, 0);
    TablesAgree(r, 0);
    TablesAgree(t, 0);
    TripleByShifts(p, q, r, t);
  }

  lemma Sextets(a: Octet, b: Octet, c: Octet)
    ensures First(a) < 64 && Second(a, b) < 64 && Third(b, c) < 64 && Fourth(c) < 64
    ensures High(First(a), Second(a, b)) == a
    ensures Middle(Second(a, b), Third(b, c)) == b
    ensures Low(Third(b, c), Fourth(c)) == c
  {
  }

  // Round trip

  lemma {:induction false} LeadingJoin(v: seq<Octet>, t: seq<Octet>)
    requires forall c <- v :: InAlphabet(c)
    ensures Leading(v + t) == v + Leading(t)
    decreases |v|
  {
    if v == [] {
      assert v + t == t;
    } else {
      assert v[0] in v;
      assert (v + t)[1..] == v[1..] + t;
      LeadingJoin(v[1..], t);
    }
  }

  /** Text without its padding. */
  function Bare(s: seq<Octet>): seq<Octet> {
    if s == [] then []
    else if |s| == 1 then Chars(s[0], 0, 0)[..2]
    else if |s| == 2 then Chars(s[0], s[1], 0)[..3]
    else Chars(s[0], s[1], s[2]) + Bare(s[3..])
  }

  lemma LeadingEmpty(t: seq<Octet>)
    requires t != [] ==> !InAlphabet(t[0])
    ensures Leading(t) == []
  {
    hide InAlphabet;
  }

  lemma {:induction false} LeadingText(s: seq<Octet>, more: seq<Octet>)
    requires more != [] ==> !InAlphabet(more[0])
    ensures Leading(Text(s) + more) == Bare(s)
    decreases |s|
  {
    hide Chars, InAlphabet, Leading;
    TablesAgree(0, 0);
    LeadingEmpty(more);
    LeadingEmpty([PAD] + more);
    LeadingEmpty([PAD, PAD] + more);
    if s == [] {
      assert Text(s) + more == more;
    } else if |s| == 1 {
      TripleOfChars(s[0], 0, 0);
      assert Text(s) + more == Chars(s[0], 0, 0)[..2] + ([PAD, PAD] + more);
      LeadingJoin(Chars(s[0], 0, 0)[..2], [PAD, PAD] + more);
    } else if |s| == 2 {
      TripleOfChars(s[0], s[1], 0);
      assert Text(s) + more == Chars(s[0], s[1], 0)[..3] + ([PAD] + more);
      LeadingJoin(Chars(s[0], s[1], 0)[..3], [PAD] + more);
    } else {
      TripleOfChars(s[0], s[1], s[2]);
      assert Text(s) + more == Chars(s[0], s[1], s[2]) + (Text(s[3..]) + more);
      LeadingJoin(Chars(s[0], s[1], s[2]), Text(s[3..]) + more);
      LeadingText(s[3..], more);
    }
  }

  lemma {:induction false} GroupsOfBare(s: seq<Octet>)
    ensures Groups(Bare(s)) == s
    decreases |s|
  {
    hide Chars, Six, Triple;
    if s == [] {
    } else if |s| == 1 {
      OneByte(s[0]);
    } else if |s| == 2 {
      TwoBytes(s[0], s[1]);
    } else {
      TripleOfChars(s[0], s[1], s[2]);
      var v := Bare(s);
      if |s| == 3 {
        assert v == Chars(s[0], s[1], s[2]);
      } else {
        BareNonEmpty(s[3..]);
        assert v[4..] == Bare(s[3..]);
        GroupsOfBare(s[3..]);
      }
    }
  }

  lemma BareNonEmpty(s: seq<Octet>)
    requires s != []
    ensures |Bare(s)| > 1
  {
  }

  lemma OneByte(a: Octet)
    ensures var v := Chars(a, 0, 0)[..2]; Triple(Six(v[0]), Six(v[1]), 0, 0)[..1] == [a]
  {
    hide Chars, Six, Triple;
    var s := Chars(a, 0, 0);
    TripleOfChars(a, 0, 0);
    FirstBytes(Six(s[0]), Six(s[1]), Six(s[2]), Six(s[3]));
  }

  lemma TwoBytes(a: Octet, b: Octet)
    ensures var v := Chars(a, b, 0)[..3]; Triple(Six(v[0]), Six(v[1]), Six(v[2]), 0)[..2] == [a, b]
  {
    hide Chars, Six, Triple;
    var s := Chars(a, b, 0);
    TripleOfChars(a, b, 0);
    FirstBytes(Six(s[0]), Six(s[1]), Six(s[2]), Six(s[3]));
  }

  /** The first bytes of a group do not depend on the characters that are missing. */
  lemma FirstBytes(p: Octet, q: Octet, r: Octet, t: Octet)
    requires p < 64 && q < 64 && r < 64 && t < 64
    ensures Triple(p, q, 0, 0)[0] == Triple(p, q, r, t)[0]
    ensures Triple(p, q, r, 0)[0] == Triple(p, q, r, t)[0] && Triple(p, q, r, 0)[1] == Triple(p, q, r, t)[1]
  {
    hide Triple, High, Middle, Low;
    TripleByShifts(p, q, 0, 0);
    TripleByShifts(p, q, r, 0);
    TripleByShifts(p, q, r, t);
  }

  /** Decoding undoes encoding, also when something outside the alphabet follows the text. */
  lemma RoundTrip(s: seq<Octet>, more: seq<Octet>)
    requires more != [] ==> !InAlphabet(more[0])
    ensures Decoded(Text(s) + more) == s
    ensures Decoded(Text(s)) == s
  {
    LeadingText(s, more);
    LeadingText(s, []);
    assert Text(s) + [] == Text(s);
    GroupsOfBare(s);
  }

  // The code

  /** base64encode; out holds the terminated text, capacity is what *outlen was. */
  method Encode(data: seq<Octet>, out: array<Octet>, capacity: nat) returns (ok: bool, outlen: nat)
    requires capacity <= out.Length
    modifies out
    ensures ok <==> EncodeLen(|data|) <= capacity
    ensures ok ==> outlen == EncodeLen(|data|) && out[..outlen] == Text(data) + [NUL]
    ensures if ok then out[outlen..] == old(out[outlen..]) else out[..] == old(out[..])
  {
    hide Text;
    ok, outlen := EncodeLen(|data|) <= capacity, capacity;
    if ok {
      outlen := EncodeAll(data, out);
    }
  }

  /** The characters and the terminator. */
  method EncodeAll(data: seq<Octet>, out: array<Octet>) returns (outlen: nat)
    requires EncodeLen(|data|) <= out.Length
    modifies out
    ensures outlen == EncodeLen(|data|) && out[..outlen] == Text(data) + [NUL] && out[outlen..] == old(out[outlen..])
  {
    hide Text;
    var i, p := 0, 0;
    assert data[0..] == data;
    while i < |data| - 2
      invariant 0 <= i <= |data| && 0 <= p <= out.Length
      invariant out[..p] + Text(data[i..]) == Text(data)
      invariant out[p..] == old(out[p..])
    {
      ghost var before := out[..p];
      TextStep(data, i);
      EncodeGroup(data[i], data[i + 1], data[i + 2], out, p);
      p := p + 4;
      i := i + 3;
    }
    ghost var before := out[..p];
    if i < |data| {
      p := EncodeTail(data[i..], out, p);
    } else {
      NoText();
    }
    assert out[..p] == before + Text(data[i..]);
    out[p] := NUL;
    p := p + 1;
    outlen := p;
  }

  lemma TextStep(data: seq<Octet>, i: nat)
    requires i + 3 <= |data|
    ensures Text(data[i..]) == Chars(data[i], data[i + 1], data[i + 2]) + Text(data[i + 3..])
  {
    hide Chars;
    assert data[i..][3..] == data[i + 3..];
  }

  lemma NoText()
    ensures Text([]) == []
  {
  }

  /** Three bytes to four characters. */
  method EncodeGroup(a: Octet, b: Octet, c: Octet, out: array<Octet>, p: nat)
    requires p + 4 <= out.Length
    modifies out
    ensures out[..p + 4] == old(out[..p]) + Chars(a, b, c) && out[p + 4..] == old(out[p + 4..])
  {
    hide Chars, Basis, First, Second, Third, Fourth;
    CharsByShifts(a, b, c);
    ghost var before := out[..p];
    out[p] := Basis(First(a));
    out[p + 1] := Basis(Second(a, b));
    out[p + 2] := Basis(Third(b, c));
    out[p + 3] := Basis(Fourth(c));
    assert out[p..p + 4] == Chars(a, b, c);
    assert out[..p + 4] == before + out[p..p + 4];
  }

  /** The last one or two bytes, padded. */
  method EncodeTail(rest: seq<Octet>, out: array<Octet>, at: nat) returns (p: nat)
    requires 1 <= |rest| <= 2 && at + 4 <= out.Length
    modifies out
    ensures p == at + 4 && out[..p] == old(out[..at]) + Text(rest) && out[p..] == old(out[p..])
  {
    hide Chars, Basis, First, Second, SecondAlone, ThirdAlone;
    p := at;
    ghost var before := out[..at];
    TailByShifts(rest[0], if |rest| == 2 then rest[1] else 0);
    out[p] := Basis(First(rest[0]));
    if |rest| == 1 {
      out[p + 1] := Basis(SecondAlone(rest[0]));
      out[p + 2] := PAD;
    } else {
      out[p + 1] := Basis(Second(rest[0], rest[1]));
      out[p + 2] := Basis(ThirdAlone(rest[1]));
    }
    out[p + 3] := PAD;
    p := p + 4;
    assert out[at..p] == Text(rest);
    assert out[..p] == before + out[at..p];
  }

  /** The tail characters the encoder computes without the missing bytes. */
  lemma TailByShifts(a: Octet, b: Octet)
    ensures Chars(a, 0, 0)[..2] == [Basis(First(a)), Basis(SecondAlone(a))]
    ensures Chars(a, b, 0)[..3] == [Basis(First(a)), Basis(Second(a, b)), Basis(ThirdAlone(b))]
  {
    hide Chars, Basis;
    CharsByShifts(a, 0, 0);
    CharsByShifts(a, b, 0);
    assert Second(a, 0) == SecondAlone(a) && Third(b, 0) == ThirdAlone(b);
  }

  /** The scan of both decoding functions; it may look at the byte after the text. */
  method CountLeading(text: array<Octet>, inlen: nat) returns (n: nat)
    requires inlen < text.Length
    ensures n == |Leading(text[..inlen])|
  {
    hide *;
    var left: nat, at: nat := inlen, 0;
    ghost var t := text[..inlen];
    var c := text[at];
    at := 1;
    RunStart(t);
    while InAlphabet(c) && left != 0
      invariant left <= inlen && at == inlen - left + 1 && c == text[inlen - left]
      invariant Run(t, inlen - left)
    {
      RunMore(t, inlen - left);
      left := left - 1;
      c := text[at];
      at := at + 1;
    }
    RunEnds(t, inlen - left);
    n := at - 1;
  }

  /** The first n characters are in the alphabet. */
  predicate Run(t: seq<Octet>, n: nat) {
    n <= |t| && forall i :: 0 <= i < n ==> InAlphabet(t[i])
  }

  lemma RunStart(t: seq<Octet>)
    ensures Run(t, 0)
  {
  }

  lemma RunMore(t: seq<Octet>, n: nat)
    requires Run(t, n) && n < |t| && InAlphabet(t[n])
    ensures Run(t, n + 1)
  {
  }

  lemma RunEnds(t: seq<Octet>, n: nat)
    requires Run(t, n) && (n < |t| ==> !InAlphabet(t[n]))
    ensures |Leading(t)| == n
  {
    hide InAlphabet;
  }

  /** base64decode_len. */
  method DecodeLength(text: array<Octet>, inlen: nat) returns (n: nat)
    requires inlen < text.Length
    ensures n == DecodeLen(text[..inlen])
  {
    n := CountLeading(text, inlen);
    n := (n + 3) / 4 * 3 + 1;
  }

  /** What is written always fits over the text it is read from. */
  lemma FitsInPlace(t: seq<Octet>)
    ensures |Decoded(t)| <= |t| && |Decoded(t)| < DecodeLen(t)
  {
  }

  /** Up to four characters of the alphabet, read at bufin and decoded to bufout; when out is the array the
      text is in, the bytes land on characters already read. */
  method DecodeGroup(text: array<Octet>, bufin: nat, n: nat, out: array<Octet>, bufout: nat, ghost v: seq<Octet>)
    returns (written: nat)
    requires n <= 4 && bufin + n <= text.Length && v == text[bufin..bufin + n] && (forall c <- v :: InAlphabet(c))
    requires bufout + |Groups(v)| <= out.Length && bufout <= bufin
    modifies out
    ensures written == |Groups(v)|
    ensures forall k :: 0 <= k < out.Length && !(bufout <= k < bufout + written) ==> out[k] == old(out[k])
    ensures forall k :: 0 <= k < written ==> out[bufout + k] == Groups(v)[k]
  {
    hide *;
    GroupByShifts(v);
    assert forall k :: 0 <= k < n ==> text[bufin + k] == v[k];
    written := 0;
    if n > 1 {
      out[bufout] := High(Six(text[bufin]), Six(text[bufin + 1]));
      written := 1;
    }
    if n > 2 {
      out[bufout + 1] := Middle(Six(text[bufin + 1]), Six(text[bufin + 2]));
      written := 2;
    }
    if n > 3 {
      out[bufout + 2] := Low(Six(text[bufin + 2]), Six(text[bufin + 3]));
      written := 3;
    }
  }

  /** The bytes the decoder computes from up to four characters. */
  lemma GroupByShifts(v: seq<Octet>)
    requires |v| <= 4 && forall c <- v :: InAlphabet(c)
    ensures |Groups(v)| == if v == [] then 0 else |v| - 1
    ensures |v| > 1 ==> Groups(v)[0] == High(Six(v[0]), Six(v[1]))
    ensures |v| > 2 ==> Groups(v)[1] == Middle(Six(v[1]), Six(v[2]))
    ensures |v| > 3 ==> Groups(v)[2] == Low(Six(v[2]), Six(v[3]))
  {
    hide Triple, Six, High, Middle, Low;
    forall i | 0 <= i < |v|
      ensures At(v, i) == Six(v[i]) && Six(v[i]) < 64
    {
      assert v[i] in v;
    }
    TripleByShifts(At(v, 0), At(v, 1), At(v, 2), At(v, 3));
  }

  /** The groups of the first n characters except the last four or less. */
  method DecodeWhole(text: array<Octet>, n: nat, out: array<Octet>, ghost v: seq<Octet>)
    returns (bufin: nat, bufout: nat, left: nat)
    requires n <= text.Length && v == text[..n] && (forall c <- v :: InAlphabet(c))
    requires |Groups(v)| < out.Length
    modifies out
    ensures left <= 4 && bufin == n - left && bufout <= bufin && SameRest(n, left)
    ensures bufout <= |Groups(v)| && ToCome(Groups(v), bufout, v, bufin)
    ensures forall k :: 0 <= k < bufout ==> out[k] == Groups(v)[k]
    ensures forall k :: bufin <= k < n ==> text[k] == v[k]
    ensures forall k :: bufout <= k < out.Length ==> out[k] == old(out[k])
  {
    hide *;
    bufin, bufout, left := 0, 0, n;
    RestStart(n);
    AllToCome(v);
    while left > 4
      invariant left <= n && bufin == n - left && bufout <= bufin && SameRest(n, left)
      invariant bufout <= |Groups(v)| && ToCome(Groups(v), bufout, v, bufin)
      invariant forall k :: 0 <= k < bufout ==> out[k] == Groups(v)[k]
      invariant forall k :: bufin <= k < n ==> text[k] == v[k]
      invariant forall k :: bufout <= k < out.Length ==> out[k] == old(out[k])
    {
      NextGroup(Groups(v), bufout, v, bufin);
      assert v[bufin..bufin + 4] == text[bufin..bufin + 4];
      var more := DecodeGroup(text, bufin, 4, out, bufout, v[bufin..bufin + 4]);
      bufin := bufin + 4;
      bufout := bufout + more;
      left := left - 4;
      RestStep(n, left + 4);
    }
  }

  /** All groups, and the terminator. */
  method DecodeGroups(text: array<Octet>, n: nat, out: array<Octet>, ghost v: seq<Octet>) returns (written: nat)
    requires n <= text.Length && v == text[..n] && (forall c <- v :: InAlphabet(c))
    requires |Groups(v)| < out.Length
    modifies out
    ensures written == |Groups(v)|
    ensures forall k :: 0 <= k < written ==> out[k] == Groups(v)[k]
    ensures out[written] == NUL
    ensures forall k :: written < k < out.Length ==> out[k] == old(out[k])
  {
    hide *;
    var bufin, bufout, left := DecodeWhole(text, n, out, v);
    assert v[bufin..] == text[bufin..bufin + left];
    FinalGroup(Groups(v), bufout, v, bufin);
    var more := DecodeGroup(text, bufin, left, out, bufout, v[bufin..]);
    bufout := bufout + more;
    out[bufout] := NUL;
    LastGroup(n, left);
    written := (n + 3) / 4 * 3 - (4 - left) % 4;
  }

  /** base64decode; out may be the array the text is in. */
  method Decode(text: array<Octet>, inlen: nat, out: array<Octet>, capacity: nat) returns (ok: bool, outlen: nat)
    requires inlen < text.Length
    requires capacity >= DecodeLen(text[..inlen]) ==> |Decoded(text[..inlen])| < out.Length
    modifies out
    ensures ok <==> old(DecodeLen(text[..inlen])) <= capacity
    ensures ok ==> outlen == |old(Decoded(text[..inlen]))| && out[..outlen + 1] == old(Decoded(text[..inlen])) + [NUL]
    ensures if ok then out[outlen + 1..] == old(out[outlen + 1..]) else out[..] == old(out[..])
  {
    hide Groups, Leading, Six, InAlphabet;
    var n := CountLeading(text, inlen);
    ok, outlen := (n + 3) / 4 * 3 + 1 <= capacity, capacity;
    if ok {
      assert text[..inlen][..n] == text[..n];
      outlen := DecodeGroups(text, n, out, text[..n]);
    }
  }

  /** The bytes of g from i on are those of the characters of v from j on. */
  predicate ToCome(g: seq<Octet>, i: nat, v: seq<Octet>, j: nat) {
    i <= |g| && j <= |v| && g[i..] == Groups(v[j..])
  }

  lemma AllToCome(v: seq<Octet>)
    ensures ToCome(Groups(v), 0, v, 0)
  {
    hide Groups;
    assert v[0..] == v && Groups(v)[0..] == Groups(v);
  }

  lemma NextGroup(g: seq<Octet>, i: nat, v: seq<Octet>, j: nat)
    requires ToCome(g, i, v, j) && j + 4 < |v|
    ensures i + 3 <= |g| && ToCome(g, i + 3, v, j + 4) && |Groups(v[j..j + 4])| == 3
    ensures forall k :: i <= k < i + 3 ==> g[k] == Groups(v[j..j + 4])[k - i]
  {
    hide Groups;
    GroupsStep(v, j);
    assert forall k :: i <= k < |g| ==> g[k] == g[i..][k - i];
  }

  lemma FinalGroup(g: seq<Octet>, i: nat, v: seq<Octet>, j: nat)
    requires ToCome(g, i, v, j)
    ensures i + |Groups(v[j..])| == |g|
    ensures forall k :: i <= k < |g| ==> g[k] == Groups(v[j..])[k - i]
  {
    hide Groups;
    assert forall k :: i <= k < |g| ==> g[k] == g[i..][k - i];
  }

  predicate SameRest(n: nat, left: int) {
    left % 4 == n % 4
  }

  lemma RestStart(n: nat)
    ensures SameRest(n, n)
  {
  }

  lemma RestStep(n: nat, left: int)
    requires SameRest(n, left)
    ensures SameRest(n, left - 4)
  {
  }

  /** The size computed in the end is the number of bytes written. */
  lemma LastGroup(n: nat, left: int)
    requires 0 <= left <= 4 && SameRest(n, left)
    ensures (n + 3) / 4 * 3 - (4 - left) % 4 == n / 4 * 3 + if n % 4 == 0 then 0 else n % 4 - 1
  {
  }

  lemma GroupsStep(v: seq<Octet>, i: nat)
    requires i + 4 < |v|
    ensures Groups(v[i..]) == Groups(v[i..i + 4]) + Groups(v[i + 4..]) && |Groups(v[i..i + 4])| == 3
  {
    hide Triple, Six;
    assert v[i..][4..] == v[i + 4..];
    var g := v[i..i + 4];
    assert forall k: nat :: k < 4 ==> At(g, k) == At(v[i..], k);
  }
}
