/** Object identifiers: the octets that encrypted messages carry, from the numbers they stand for (section 8.19 of
    ITU-T X.690). */
module Oids {
  import opened Bytes
  import opened Der
  import C = Cryptogram

  /** Seven bits to an octet, the highest first; every octet but the last has its top bit set. */
  function Base128(n: nat, more: bool): (b: seq<Byte>) {
    var low := n % 128 + if more then 128 else 0;
    if n < 128 then [low] else Base128(n / 128, true) + [low]
  }

  function Subidentifiers(ns: seq<nat>): (b: seq<Byte>) {
    if ns == [] then [] else Base128(ns[0], false) + Subidentifiers(ns[1..])
  }

  /** The first two numbers share an octet. */
  function OidBytes(first: nat, second: nat, rest: seq<nat>): (b: seq<Byte>) {
    Base128(40 * first + second, false) + Subidentifiers(rest)
  }

  lemma Small(n: nat)
    ensures n < 128 ==> Base128(n, false) == [n] && Base128(n, true) == [n + 128]
    ensures 128 <= n < 16384 ==> Base128(n, false) == [n / 128 + 128, n % 128]
    ensures 128 <= n < 16384 ==> Base128(n, true) == [n / 128 + 128, n % 128 + 128]
  {
    if 128 <= n < 16384 {
      assert Base128(n / 128, true) == [n / 128 + 128];
    }
  }

  lemma Large(n: nat)
    requires 16384 <= n < 2097152
    ensures Base128(n, false) == [n / 16384 + 128, n / 128 % 128 + 128, n % 128]
  {
    Small(n / 128);
    assert n / 128 / 128 == n / 16384;
  }

  lemma First(n: nat, ns: seq<nat>)
    ensures Subidentifiers([n] + ns) == Base128(n, false) + Subidentifiers(ns) && Subidentifiers([]) == []
  {
    assert ([n] + ns)[1..] == ns;
  }

  /** Numbers below 128 are an octet each. */
  lemma {:induction false} Plain(ns: seq<nat>, b: seq<Byte>)
    requires |ns| == |b| && forall i :: 0 <= i < |ns| ==> ns[i] == b[i] < 128
    ensures Subidentifiers(ns) == b
    decreases |ns|
  {
    if ns != [] {
      Small(ns[0]);
      Plain(ns[1..], b[1..]);
      assert b == [b[0]] + b[1..];
    }
  }

  /** Two numbers, then small ones. */
  lemma TwoThenPlain(m: nat, n: nat, ns: seq<nat>, b: seq<Byte>)
    requires |ns| == |b| && forall i :: 0 <= i < |ns| ==> ns[i] == b[i] < 128
    ensures Subidentifiers([m, n] + ns) == Base128(m, false) + (Base128(n, false) + b)
  {
    Plain(ns, b);
    First(n, ns);
    First(m, [n] + ns);
    assert [m, n] + ns == [m] + ([n] + ns);
  }

  lemma NistAlgorithm(x: nat, y: nat)
    requires x < 128 && y < 128
    ensures OidBytes(2, 16, [840, 1, 101, 3, 4, x, y]) == [0x60, 0x86, 0x48, 0x01, 0x65, 0x03, 0x04, x, y]
  {
    Small(96);
    Small(840);
    Small(1);
    hide Base128, Subidentifiers;
    TwoThenPlain(840, 1, [101, 3, 4, x, y], [101, 3, 4, x, y]);
    assert [840, 1] + [101, 3, 4, x, y] == [840, 1, 101, 3, 4, x, y];
  }

  lemma Pkcs7Type(x: nat)
    requires x < 128
    ensures OidBytes(1, 2, [840, 113549, 1, 7, x]) == [0x2A, 0x86, 0x48, 0x86, 0xF7, 0x0D, 0x01, 0x07, x]
  {
    Small(42);
    Small(840);
    Large(113549);
    hide Base128, Subidentifiers;
    TwoThenPlain(840, 113549, [1, 7, x], [1, 7, x]);
    assert [840, 113549] + [1, 7, x] == [840, 113549, 1, 7, x];
  }

  /** The identifiers of NIST algorithms: joint-iso-itu-t, country, us, organization, gov, csor, nistAlgorithm. */
  lemma NistIdentifiers()
    ensures C.SHA256_ID == OidBytes(2, 16, [840, 1, 101, 3, 4, 2, 1])
    ensures C.SHA384_ID == OidBytes(2, 16, [840, 1, 101, 3, 4, 2, 2])
    ensures C.AES256_CBC_ID == OidBytes(2, 16, [840, 1, 101, 3, 4, 1, 42])
    ensures C.AES256_GCM_ID == OidBytes(2, 16, [840, 1, 101, 3, 4, 1, 46])
  {
    hide OidBytes;
    NistAlgorithm(2, 1);
    NistAlgorithm(2, 2);
    NistAlgorithm(1, 42);
    NistAlgorithm(1, 46);
  }

  /** The algorithm in front of a signature is SHA-256 without parameters. */
  lemma SignatureHash()
    ensures C.SHA256_SEQUENCE == Tlv(SEQUENCE, Tlv(OID, C.SHA256_ID) + Tlv(NULL, []))
  {
    assert Tlv(OID, C.SHA256_ID) == [OID, 9] + C.SHA256_ID && Tlv(NULL, []) == [NULL, 0];
  }

  /** Those of PKCS #7: iso, member-body, us, rsadsi, pkcs, pkcs-7. */
  lemma PkcsIdentifiers()
    ensures C.DATA_ID == OidBytes(1, 2, [840, 113549, 1, 7, 1])
    ensures C.ENVELOPED_ID == OidBytes(1, 2, [840, 113549, 1, 7, 3])
  {
    hide OidBytes;
    Pkcs7Type(1);
    Pkcs7Type(3);
  }

  /** id-ecPublicKey and prime256v1 of ANSI X9.62. */
  lemma CurveIdentifiers()
    ensures C.EC_ID == OidBytes(1, 2, [840, 10045, 2, 1])
    ensures C.PRIME256V1_ID == OidBytes(1, 2, [840, 10045, 3, 1, 7])
  {
    Small(42);
    Small(840);
    Small(10045);
    hide Base128, Subidentifiers;
    TwoThenPlain(840, 10045, [2, 1], [2, 1]);
    TwoThenPlain(840, 10045, [3, 1, 7], [3, 1, 7]);
    assert [840, 10045] + [2, 1] == [840, 10045, 2, 1];
    assert [840, 10045] + [3, 1, 7] == [840, 10045, 3, 1, 7];
  }

  /** KDF2 of ISO/IEC 18033-2. */
  lemma KdfIdentifier()
    ensures C.KDF2_ID == OidBytes(1, 0, [18033, 2, 5, 2])
  {
    Small(40);
    Large(18033);
    Small(2);
    hide Base128, Subidentifiers;
    TwoThenPlain(18033, 2, [5, 2], [5, 2]);
    assert [18033, 2] + [5, 2] == [18033, 2, 5, 2];
  }

  /** A message begins with a sequence whose length stands in the next three octets and reaches to the payload. */
  lemma MessageHeader(p: C.Parts)
    requires C.Sized(p)
    ensures var m := C.Message(p);
            && m[0] == 0x30 && m[1] == 0x82 && m[2] as int * 256 + m[3] + 4 + |p.payload| == |m|
            && m[4..7] == [0x02, 0x01, 0x00] && m[7] == 0x30 && m[8] == 0x82
            && m[|m| - |p.payload|..] == p.payload
  {
    var x := C.ENVELOPED_OID + Tlv(ZERO_TAG, Tlv(SEQUENCE, C.Enveloped(p)));
    C.EnvelopeIs(p);
    hide C.Enveloped, C.Envelope, Tlv;
    var e := C.Envelope(p);
    assert HeaderBytes(SEQUENCE, |x|)[..2] == [0x30, 0x82];
    assert HeaderBytes(SEQUENCE, |x| + 7) == [0x30, 0x82, (|x| + 7) / 256 % 256, (|x| + 7) % 256];
  }
}
