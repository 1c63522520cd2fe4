/** Signatures as the tools write them, read back by the device. */
module SignatureBlocks {
  import opened Bytes
  import opened Firmware
  import K = KeyChain

  function EntryOf(s: Signature): K.Entry {
    K.Entry(s.signer, s.ecType, s.hashType, s.sign, s.pubkey)
  }

  function EntriesOf(ss: seq<Signature>): (es: seq<K.Entry>)
    ensures |es| == |ss| && forall i :: 0 <= i < |ss| ==> es[i] == EntryOf(ss[i])
  {
    seq(|ss|, i requires 0 <= i < |ss| => EntryOf(ss[i]))
  }

  lemma EntryReads(b: seq<Byte>, pos: nat, s: Signature, rest: seq<Byte>)
    requires pos <= |b| && b[pos..] == SignatureBytes(s) + rest && WellSized(s)
    ensures K.EntryAt(b, pos) == K.Some(EntryOf(s))
    ensures K.EntryEnd(b, pos) == pos + |SignatureBytes(s)| <= |b| && b[K.EntryEnd(b, pos)..] == rest
  {
    hide SignatureLen, PubkeyLen;
    var x := SignatureBytes(s);
    EntrySlices(s.signer, s.ecType, s.hashType, s.sign, s.pubkey, rest);
    Shifted(b, pos, 3, 3 + |s.sign|, |x|);
    assert b[pos..][0] == b[pos] && b[pos..][1] == b[pos + 1] && b[pos..][2] == b[pos + 2];
  }

  lemma EntrySlices(a: Byte, e: Byte, h: Byte, sign: seq<Byte>, key: seq<Byte>, rest: seq<Byte>)
    ensures var x := [a, e, h] + sign + key + rest;
            && x[0] == a && x[1] == e && x[2] == h && x[3..3 + |sign|] == sign
            && x[3 + |sign|..3 + |sign| + |key|] == key && x[3 + |sign| + |key|..] == rest
  {
  }

  lemma Shifted(b: seq<Byte>, pos: nat, i: nat, j: nat, k: nat)
    requires i <= j <= k && pos + k <= |b|
    ensures b[pos..][i..j] == b[pos + i..pos + j] && b[pos..][j..k] == b[pos + j..pos + k]
            && b[pos..][k..] == b[pos + k..]
  {
  }

  /** The device reads back the signatures that the signer wrote. */
  lemma {:induction false} SignaturesRead(b: seq<Byte>, pos: nat, ss: seq<Signature>)
    requires pos <= |b| && b[pos..] == SignaturesBytes(ss)
    requires forall i :: 0 <= i < |ss| ==> WellSized(ss[i])
    ensures K.Entries(b, |ss|, pos) == K.Some(EntriesOf(ss))
    decreases |ss|
  {
    if ss == [] {
      assert EntriesOf(ss) == [];
    } else {
      EntriesCons(ss);
      hide *;
      FirstSignature(ss);
      EntryReads(b, pos, ss[0], SignaturesBytes(ss[1..]));
      SignaturesRead(b, K.EntryEnd(b, pos), ss[1..]);
      EntriesStep(b, |ss| - 1, pos);
    }
  }

  lemma EntriesCons(ss: seq<Signature>)
    requires ss != []
    ensures EntriesOf(ss) == [EntryOf(ss[0])] + EntriesOf(ss[1..])
  {
  }

  lemma EntriesStep(b: seq<Byte>, count: nat, pos: nat)
    requires K.EntryAt(b, pos).Some? && K.Entries(b, count, K.EntryEnd(b, pos)).Some?
    ensures K.Entries(b, count + 1, pos)
            == K.Some([K.EntryAt(b, pos).value] + K.Entries(b, count, K.EntryEnd(b, pos)).value)
  {
    hide K.EntryAt, K.EntryEnd;
  }

  /** Signatures that a device should accept for a message: of trusted keys that can be found,
      with SHA-256, two of them of the signer types t and u, and these holding over the hash. */
  ghost predicate Proper(m: K.SecModule, t: int, u: int, hash: seq<Byte>, ss: seq<Signature>) {
    K.Readable(m) && K.WellSigned(m, t, u, hash, EntriesOf(ss))
  }

  /** Proper signatures, written one after the other, are accepted. */
  lemma ProperAccepted(m: K.SecModule, t: int, u: int, hash: seq<Byte>, b: seq<Byte>, pos: nat, ss: seq<Signature>)
    requires K.Provisioned(m) && pos <= |b| && b[pos..] == SignaturesBytes(ss)
    requires (forall i :: 0 <= i < |ss| ==> WellSized(ss[i])) && Proper(m, t, u, hash, ss)
    ensures K.Accepts(m, [t, u], hash, b, |ss|, pos)
  {
    hide K.Provisioned, SignaturesBytes, K.Accepts, K.Entries, K.WellSigned, K.Readable, WellSized;
    SignaturesRead(b, pos, ss);
    K.AcceptsMeans(m, t, u, hash, b, |ss|, pos);
  }
}
