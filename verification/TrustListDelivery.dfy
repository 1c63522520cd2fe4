/** A trust list from the Python tool that signs it, through the Go tool that splits it, to the
    live storage of a device. */
module TrustListDelivery {
  import opened Bytes
  import F = Firmware
  import K = KeyChain
  import S = TrustListStore
  import Sha256
  import opened SignatureBlocks
  import opened TrustListFile
  import opened TrustListSplit

  /** The device has room for the list: in its storage, and in its buffers for one part. */
  predicate Fits(src: Source, sign: Signing, limit: nat)
    requires |src.signers| < 256
  {
    && |FileBytes(src, sign)| <= 40960 && 18 <= limit
    && (forall k <- src.keys :: KeyHasRoom(k, limit))
    && PartFits(ExpectedFooterSize(src.signers), limit)
  }

  predicate KeyHasRoom(k: PubKey, limit: nat) {
    k.keyType < 10 && PartFits(12 + |k.meta| + |k.key|, limit)
  }

  predicate PartFits(size: nat, limit: nat) {
    size <= limit && size <= 512
  }

  lemma KeySavable(k: PubKey, limit: nat)
    requires KeyFits(k)
    ensures S.Savable(PubKeyBytes(k), limit) <==> k.keyType < K.UNSUPPORTED && |PubKeyBytes(k)| <= limit
  {
    KeySizeIs(k);
    KeySlices(BE(k.start, 4), BE(k.expire, 4), k.keyType, k.ecType, BE(|k.meta|, 2), k.meta, k.key, []);
    assert PubKeyBytes(k) + [] == PubKeyBytes(k);
    hide BE, S.KeySize;
  }

  lemma KeysStorable(ks: seq<PubKey>, limit: nat)
    requires forall i :: 0 <= i < |ks| ==> KeyFits(ks[i])
    ensures (forall b <- KeysBytes(ks) :: S.Savable(b, limit) && |b| <= S.MAX_PART_SIZE)
            <==> forall k <- ks :: KeyHasRoom(k, limit)
  {
    var bs := KeysBytes(ks);
    hide S.Savable, KeyFits, PubKeyBytes;
    forall i | 0 <= i < |ks|
      ensures S.Savable(bs[i], limit) && |bs[i]| <= S.MAX_PART_SIZE <==> KeyHasRoom(ks[i], limit)
    {
      KeySavable(ks[i], limit);
    }
    hide KeyHasRoom;
    assert forall i :: 0 <= i < |ks| ==> bs[i] in bs && ks[i] in ks;
  }

  /** The parts of a list that is delivered can be stored if and only if the list fits. */
  lemma FitsDevice(src: Source, sign: Signing, limit: nat)
    requires Serialisable(src, sign)
    ensures S.Storable(Delivered(src, sign), limit) <==> Fits(src, sign, limit)
  {
    DeclaredSize(src, sign);
    FooterSize(src, sign);
    KeysStorable(src.keys, limit);
    hide *;
    StorableIs(src, sign, limit);
  }

  lemma StorableIs(src: Source, sign: Signing, limit: nat)
    requires |src.signers| < 256 && |Footer(src, sign)| == ExpectedFooterSize(src.signers)
    requires S.TlSize(Header(src)) == |FileBytes(src, sign)| && S.KeysCount(Header(src)) == |src.keys|
    requires (forall b <- KeysBytes(src.keys) :: S.Savable(b, limit) && |b| <= S.MAX_PART_SIZE)
             <==> forall k <- src.keys :: KeyHasRoom(k, limit)
    ensures S.Storable(Delivered(src, sign), limit) <==> Fits(src, sign, limit)
  {
    hide S.Savable, S.TlSize, S.KeysCount, Header, FileBytes, Footer, KeyHasRoom, ExpectedFooterSize, KeysBytes;
  }

  lemma FooterSize(src: Source, sign: Signing)
    requires Serialisable(src, sign)
    ensures |Footer(src, sign)| == ExpectedFooterSize(src.signers)
  {
    hide BodyBytes, DataToSign, F.SignaturesBytes, F.WellSized;
    SignaturesLength(sign(DataToSign(src)));
  }

  /** The list is written, split and sent. Without storage failures it becomes the live list if and only if it fits
      and is valid, and it is valid when keys that the device trusts have signed it. */
  method Deliver(src: Source, sign: Signing, store: S.Store) returns (ok: bool, ghost e: S.Event)
    requires Serialisable(src, sign) && store.Live()
    modifies store
    ensures store.Live() && store.faults >= old(store.faults)
    ensures S.EventMeans(store.secModule, old(store.Now()), store.Now(), e)
    ensures e != S.Kept ==> e.list == Delivered(src, sign)
    ensures ok ==> e.Taken? && store.ctx[S.DYNAMIC].ready && store.accepted == Delivered(src, sign)
    ensures store.faults == old(store.faults) ==>
              (ok <==> Fits(src, sign, store.limit) && S.Valid(store.secModule, Delivered(src, sign)))
    ensures && store.faults == old(store.faults) && Fits(src, sign, store.limit)
            && Proper(store.secModule, 1, 2, Sha256.Hash(DataToSign(src)), sign(DataToSign(src)))
            ==> ok
  {
    hide Header, BodyBytes, DataToSign, Footer, PubKeyBytes, Parse, SentHeader, SentChunks, SentFooter, ChunkBytes,
         KeyFits, S.Valid, S.InService, S.FooterFits, S.Storable, Proper, Sha256.Hash, K.Provisioned, S.SameFiles;
    var builder := new Builder(src, sign);
    var data := builder.GetBytes();
    var parts := NewTrustList(data);
    PythonFileParses(src, sign);
    PartSizes(src, sign);
    FitsDevice(src, sign, store.limit);
    FooterFitsFrom(src, sign);
    if Fits(src, sign, store.limit)
       && Proper(store.secModule, 1, 2, Sha256.Hash(DataToSign(src)), sign(DataToSign(src))) {
      DeliveredIsValid(store.secModule, src, sign);
    }
    var p := parts.value;
    ok, e := store.Send(SentHeader(p), SentChunks(p.chunks, true), SentFooter(p));
  }

  lemma FooterFitsFrom(src: Source, sign: Signing)
    requires Serialisable(src, sign)
    ensures S.FooterFits(Header(src), Footer(src, sign))
  {
    hide Header, BodyBytes, DataToSign, Footer, KeyFits, S.FooterEnd;
    PartSizes(src, sign);
  }
}
