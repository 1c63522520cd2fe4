/** Provisioned key records byte by byte: which record holds which key, which is vouched for, and what it takes
    to be trusted. */
module KeyRecords {
  import opened Bytes
  import opened Firmware
  import opened SignatureBlocks
  import K = KeyChain

  /** A record without its signature: two dates of four bytes, key type, curve, the size of the metadata,
      metadata, key. */
  function RecordBytes(dates: seq<Byte>, t: Byte, ec: Byte, meta: seq<Byte>, key: seq<Byte>): (k: seq<Byte>) {
    dates + [t, ec] + BE(|meta|, 2) + meta + key
  }

  lemma RecordParts(dates: seq<Byte>, t: Byte, ec: Byte, meta: seq<Byte>, key: seq<Byte>, rest: seq<Byte>)
    requires |dates| == 8 && |meta| < 65536 && PubkeyLen(ec) == |key| > 0
    ensures var k := RecordBytes(dates, t, ec, meta, key) + rest;
            && |k| == 12 + |meta| + |key| + |rest| && K.KeyType(k) == t && K.EcType(k) == ec && K.MetaSize(k) == |meta|
            && k[..12 + |meta| + |key|] == RecordBytes(dates, t, ec, meta, key) && k[12 + |meta| + |key|..] == rest
            && k[12..12 + |meta|] == meta && k[12 + |meta|..12 + |meta| + |key|] == key
  {
    Words();
    BERoundTrip(|meta|, 2);
    hide BE, FromBE, Pow256, PubkeyLen;
    var k := RecordBytes(dates, t, ec, meta, key) + rest;
    assert k[10..12] == BE(|meta|, 2);
  }

  /** Only a record without metadata holds its key. */
  lemma RecordHolds(dates: seq<Byte>, t: Byte, ec: Byte, key: seq<Byte>, rest: seq<Byte>,
                    t': int, ec': Byte, key': seq<Byte>)
    requires |dates| == 8 && PubkeyLen(ec) == |key| > 0
    ensures K.Holds(RecordBytes(dates, t, ec, [], key) + rest, t', ec', key') <==> t' == t && ec' == ec && key' == key
  {
    RecordParts(dates, t, ec, [], key, rest);
    hide PubkeyLen, FromBE;
    assert BE(0, 2) == [0, 0];
    assert (RecordBytes(dates, t, ec, [], key) + rest)[10..12] == [0, 0];
    hide BE;
    assert K.Complete(RecordBytes(dates, t, ec, [], key) + rest);
  }

  /** A record is vouched for by a signature with a recovery key (type 0), which one of the two recovery slots
      holds, over all bytes in front of that signature. */
  lemma RecordVouched(m: K.SecModule, dates: seq<Byte>, t: Byte, ec: Byte, meta: seq<Byte>, key: seq<Byte>,
                      s: Signature)
    requires |dates| == 8 && |meta| < 65536 && PubkeyLen(ec) == |key| > 0 && WellSized(s)
    ensures var record := RecordBytes(dates, t, ec, meta, key);
            K.VouchedFor(m, record + SignatureBytes(s)) <==>
            && s.signer == 0
            && ((m.slot(0, 0).Some? && K.Holds(m.slot(0, 0).value, 0, s.ecType, s.pubkey))
                || (m.slot(0, 1).Some? && K.Holds(m.slot(0, 1).value, 0, s.ecType, s.pubkey)))
            && match m.hash(s.hashType, record)
               case None => false
               case Some(h) => m.ecdsa(s.ecType, s.pubkey, s.hashType, h, s.sign)
  {
    var k := RecordBytes(dates, t, ec, meta, key) + SignatureBytes(s);
    RecordParts(dates, t, ec, meta, key, SignatureBytes(s));
    assert SignatureBytes(s) + [] == SignatureBytes(s);
    EntryReads(k, 12 + |meta| + |key|, s, []);
    hide PubkeyLen, SignatureLen, K.MetaSize, K.KeyType, K.Holds, RecordBytes, K.EntryAt, K.EntryEnd, SignatureBytes;
    assert K.RecoveryKey(m, s.ecType, s.pubkey) <==>
           (m.slot(0, 0).Some? && K.Holds(m.slot(0, 0).value, 0, s.ecType, s.pubkey))
           || (m.slot(0, 1).Some? && K.Holds(m.slot(0, 1).value, 0, s.ecType, s.pubkey));
  }

  /** Nothing but such a record is vouched for. */
  lemma VouchedIsRecord(m: K.SecModule, k: seq<Byte>)
    requires K.VouchedFor(m, k)
    ensures exists dates, t, ec, meta, key, s ::
              && |dates| == 8 && |meta| < 65536 && PubkeyLen(ec) == |key| > 0 && WellSized(s)
              && k == RecordBytes(dates, t, ec, meta, key) + SignatureBytes(s)
  {
    var n := PubkeyLen(k[9]);
    var size := FromBE(k[10..12]);
    FromBEBound(k[10..12]);
    Words();
    BEOfFromBE(k[10..12]);
    hide PubkeyLen, SignatureLen, FromBE, BE, K.RecoveryKey, Pow256;
    var signed := 12 + n + size;
    var e := K.EntryAt(k, signed).value;
    var s := Signature(e.signer, e.ec, e.hashType, e.sign, e.key);
    var dates, meta, key := k[..8], k[12..12 + size], k[12 + size..signed];
    assert k[..signed] == RecordBytes(dates, k[8], k[9], meta, key);
    assert k[signed..] == SignatureBytes(s);
    assert k == RecordBytes(dates, k[8], k[9], meta, key) + SignatureBytes(s);
  }

  /** A key is trusted through the first of the two slots of its type that holds it: as it is if it is a recovery
      key, and otherwise if the record is vouched for. */
  lemma TrustedMeans(m: K.SecModule, t: int, ec: Byte, key: seq<Byte>)
    ensures var a, b := m.slot(t, 0), m.slot(t, 1);
            K.Trusted(m, t, ec, key) <==>
            && 0 <= t <= 3
            && if a.Some? && K.Holds(a.value, t, ec, key) then t == 0 || K.VouchedFor(m, a.value)
               else b.Some? && K.Holds(b.value, t, ec, key) && (t == 0 || K.VouchedFor(m, b.value))
  {
    hide K.Holds, K.VouchedFor;
    assert K.FirstHolder(m, t, ec, key, 1) == 1 || K.FirstHolder(m, t, ec, key, 1) == 2;
  }
}
