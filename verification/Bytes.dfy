/** Byte strings and the two byte orders the wire formats use. */
module Bytes {

  type Byte = b: int | 0 <= b < 256

  function Fill(b: Byte, n: nat): (s: seq<Byte>)
    ensures |s| == n && forall i :: 0 <= i < n ==> s[i] == b
  {
    seq(n, _ => b)
  }

  /** Blocks, one after the other. */
  function Joined(parts: seq<seq<Byte>>): seq<Byte> {
    if parts == [] then [] else parts[0] + Joined(parts[1..])
  }

  lemma {:induction false} JoinedMore(parts: seq<seq<Byte>>, last: seq<Byte>)
    ensures Joined(parts + [last]) == Joined(parts) + last
  {
    if parts == [] {
      assert Joined([last]) == last + Joined([]);
    } else {
      assert (parts + [last])[1..] == parts[1..] + [last];
      JoinedMore(parts[1..], last);
    }
  }

  function Pow256(k: nat): (p: nat)
    ensures p > 0
  {
    if k == 0 then 1 else 256 * Pow256(k - 1)
  }

  /** The k low-order bytes of n, most significant first. */
  function BE(n: nat, k: nat): (s: seq<Byte>)
    ensures |s| == k
  {
    if k == 0 then [] else BE(n / 256, k - 1) + [n % 256]
  }

  /** Four bytes as a number, the first the most significant. */
  function Big32At(b: seq<Byte>, i: nat): nat
    requires i + 4 <= |b|
  {
    ((b[i] as int * 256 + b[i + 1]) * 256 + b[i + 2]) * 256 + b[i + 3]
  }

  function Big16At(b: seq<Byte>, i: nat): nat
    requires i + 2 <= |b|
  {
    b[i] as int * 256 + b[i + 1]
  }

  /** Four bytes as a number, the first the least significant. */
  function Little32At(b: seq<Byte>, i: nat): nat
    requires i + 4 <= |b|
  {
    b[i] + 256 * (b[i + 1] + 256 * (b[i + 2] + 256 * b[i + 3] as int))
  }

  function Little16At(b: seq<Byte>, i: nat): nat
    requires i + 2 <= |b|
  {
    b[i] + 256 * b[i + 1] as int
  }

  lemma BEHalf(n: nat)
    ensures BE(n, 2) == [n / 256 % 256, n % 256]
  {
  }

  lemma BEWords(n: nat)
    ensures n < 0x1_0000_0000 ==> Big32At(BE(n, 4), 0) == n
    ensures n < 0x1_0000 ==> Big16At(BE(n, 2), 0) == n
  {
    var m := n / 256;
    BEHalf(n);
    BEHalf(m / 256);
    assert BE(n, 4) == BE(m, 3) + [n % 256];
    assert BE(m, 3) == BE(m / 256, 2) + [m % 256];
    hide BE;
    assert n == m * 256 + n % 256 && m == m / 256 * 256 + m % 256;
  }

  lemma LEHalf(n: nat)
    ensures LE(n, 2) == [n % 256, n / 256 % 256]
  {
  }

  lemma LEWords(n: nat)
    ensures n < 0x1_0000_0000 ==> Little32At(LE(n, 4), 0) == n
    ensures n < 0x1_0000 ==> Little16At(LE(n, 2), 0) == n
  {
    var m := n / 256;
    LEHalf(n);
    LEHalf(m / 256);
    assert LE(n, 4) == [n % 256] + LE(m, 3);
    assert LE(m, 3) == [m % 256] + LE(m / 256, 2);
    hide LE;
    assert n == m * 256 + n % 256 && m == m / 256 * 256 + m % 256;
  }

  function FromBE(s: seq<Byte>): (n: nat)
  {
    if s == [] then 0 else FromBE(s[..|s| - 1]) * 256 + s[|s| - 1]
  }

  /** The k low-order bytes of n, least significant first. */
  function LE(n: nat, k: nat): (s: seq<Byte>)
    ensures |s| == k
  {
    if k == 0 then [] else [n % 256] + LE(n / 256, k - 1)
  }

  function FromLE(s: seq<Byte>): (n: nat)
  {
    if s == [] then 0 else s[0] + 256 * FromLE(s[1..])
  }

  lemma {:induction false} FromBEBound(s: seq<Byte>)
    ensures FromBE(s) < Pow256(|s|)
  {
    if s != [] {
      FromBEBound(s[..|s| - 1]);
    }
  }

  lemma {:induction false} BERoundTrip(n: nat, k: nat)
    requires n < Pow256(k)
    ensures FromBE(BE(n, k)) == n
  {
    if k > 0 {
      BERoundTrip(n / 256, k - 1);
      assert BE(n, k)[..k - 1] == BE(n / 256, k - 1);
    }
  }

  lemma {:induction false} BEOfFromBE(s: seq<Byte>)
    ensures BE(FromBE(s), |s|) == s
  {
    if s != [] {
      BEOfFromBE(s[..|s| - 1]);
      assert (FromBE(s[..|s| - 1]) * 256 + s[|s| - 1]) / 256 == FromBE(s[..|s| - 1]);
    }
  }

  lemma {:induction false} LEOfFromLE(s: seq<Byte>)
    ensures LE(FromLE(s), |s|) == s
  {
    if s != [] {
      LEOfFromLE(s[1..]);
      assert (s[0] + 256 * FromLE(s[1..])) / 256 == FromLE(s[1..]);
      assert s == [s[0]] + s[1..];
    }
  }

  lemma {:induction false} FromLEBound(s: seq<Byte>)
    ensures FromLE(s) < Pow256(|s|)
  {
    if s != [] {
      FromLEBound(s[1..]);
    }
  }

  lemma {:induction false} LERoundTrip(n: nat, k: nat)
    requires n < Pow256(k)
    ensures FromLE(LE(n, k)) == n
  {
    if k > 0 {
      LERoundTrip(n / 256, k - 1);
      assert LE(n, k)[1..] == LE(n / 256, k - 1);
    }
  }

  /** Only the low bytes matter. */
  lemma {:induction false} BEMod(n: nat, k: nat)
    ensures BE(n % Pow256(k), k) == BE(n, k)
  {
    if k > 0 {
      DivMod(n, Pow256(k - 1));
      BEMod(n / 256, k - 1);
    }
  }

  lemma DivMod(n: nat, p: nat)
    requires p > 0
    ensures (n % (256 * p)) / 256 == (n / 256) % p && (n % (256 * p)) % 256 == n % 256
  {
    var q, r := (n / 256) / p, (n / 256) % p;
    var d := n % 256;
    assert n == 256 * (n / 256) + d && n / 256 == p * q + r;
    assert n == (256 * p) * q + (256 * r + d) by {
      assert 256 * (p * q + r) == (256 * p) * q + 256 * r;
    }
    assert 256 * r + d < 256 * p;
    Remainder(n, 256 * p, q, 256 * r + d);
  }

  lemma Remainder(n: nat, p: nat, q: nat, r: nat)
    requires p > 0 && n == p * q + r && r < p
    ensures n % p == r && n / p == q
  {
    assert p * (n / p - q) == r - n % p;
    SmallMultiple(p, n / p - q);
  }

  lemma SmallMultiple(p: int, x: int)
    requires -p < p * x < p
    ensures x == 0
  {
  }

  lemma DivDiv(n: nat, p: nat)
    requires p > 0
    ensures n / 256 / p == n / (256 * p)
  {
    var q, r := n / 256 / p, n / 256 % p;
    assert n == 256 * (n / 256) + n % 256 && n / 256 == p * q + r;
    assert n == (256 * p) * q + (256 * r + n % 256) by {
      assert 256 * (p * q + r) == (256 * p) * q + 256 * r;
    }
    Remainder(n, 256 * p, q, 256 * r + n % 256);
  }

  function Quotient(n: nat, p: nat): nat
    requires p > 0
  {
    n / p
  }

  /** n without its k low-order bytes. */
  function High(n: nat, k: nat): nat {
    Quotient(n, Pow256(k))
  }

  lemma BEStep(n: nat, k: nat)
    requires k > 0
    ensures BE(n, k) == BE(n / 256, k - 1) + [n % 256] && High(n, k) == High(n / 256, k - 1)
  {
    DivDiv(n, Pow256(k - 1));
  }

  /** The high bytes, then the low bytes. */
  lemma {:induction false} BESplit(n: nat, j: nat, k: nat)
    ensures BE(n, j + k) == BE(High(n, k), j) + BE(n, k)
  {
    if k > 0 {
      hide BE, High;
      BESplit(n / 256, j, k - 1);
      BEStep(n, j + k);
      BEStep(n, k);
    }
  }
}
