/** The trust-list storages of modules/provision/trust_list: an upload goes to the temporary
    storage, and only a list that verifies replaces the live one. Any storage call may fail,
    and a write or a delete that fails may leave anything behind in the file it was for. */
module TrustListStore {
  import opened Bytes
  import opened Versions
  import opened Firmware
  import K = KeyChain
  import Sha256

  const STATIC := 0
  const DYNAMIC := 1
  const TMP := 2

  const STORAGE_SIZE := 10 * 4096
  const MAX_PART_SIZE := 512
  const TL_HEADER_SIZE := 18

  const ERR_NULLPTR_ARGUMENT := -1
  const ERR_INCORRECT_PARAMETER := -4
  const ERR_NOT_FOUND := -9
  const ERR_VERIFY := -30
  const ERR_FILE := -40
  const ERR_FILE_READ := -41
  const ERR_FILE_WRITE := -42
  const ERR_NOINIT := -84

  datatype Element = HeaderFile | KeyFile | FooterFile
  datatype Id = Id(storage: nat, element: Element, index: nat)
  type Files = map<Id, seq<Byte>>

  datatype Option<T> = None | Some(value: T)

  // ---------------------------------------------------------------- layouts

  function TlSize(h: seq<Byte>): nat requires |h| == TL_HEADER_SIZE { FromBE(h[0..4]) }

  function TlVersion(h: seq<Byte>): Version
    requires |h| == TL_HEADER_SIZE
  {
    Version(h[4], h[5], h[6], FromBE(h[7..11]), FromBE(h[11..15]))
  }

  function KeysCount(h: seq<Byte>): nat requires |h| == TL_HEADER_SIZE { FromBE(h[15..17]) }

  function SignaturesCount(h: seq<Byte>): nat requires |h| == TL_HEADER_SIZE { h[17] }

  /** Size of a dated key with its metadata; None for an unsupported curve. */
  function KeySize(k: seq<Byte>): (n: Option<nat>)
    requires |k| >= K.DATED_KEY_SIZE
    ensures n.Some? ==> n.value > K.DATED_KEY_SIZE
  {
    var keyLen := PubkeyLen(K.EcType(k));
    if keyLen <= 0 then None else Some(keyLen + K.DATED_KEY_SIZE + K.MetaSize(k))
  }

  datatype TrustList = TrustList(header: seq<Byte>, keys: seq<seq<Byte>>, footer: seq<Byte>)

  /** What the signatures are over: header, keys, and the type from the footer. */
  function SignedBytes(l: TrustList): seq<Byte>
    requires l.footer != []
  {
    l.header + Joined(l.keys) + l.footer[..1]
  }

  const RULES: seq<int> := [K.AUTH, K.TRUSTLIST]

  /** The list is accepted by the rules for trust lists. */
  ghost predicate Valid(m: K.SecModule, l: TrustList)
    requires K.Provisioned(m)
  {
    && |l.header| == TL_HEADER_SIZE && l.footer != [] && TlSize(l.header) <= STORAGE_SIZE
    && K.Accepts(m, RULES, Sha256.Hash(SignedBytes(l)), l.footer, SignaturesCount(l.header), 1)
  }

  /** Which lists are valid: every signature is by a trusted key, and two of them, at different places, are by
      authentication or trust-list keys (types 1 and 2) and, like all of these types, hold over the hash of
      header, keys and list type. With slots that can be read, all such lists are. */
  lemma ValidMeans(m: K.SecModule, l: TrustList)
    requires K.Provisioned(m) && |l.header| == TL_HEADER_SIZE && l.footer != []
    ensures var es := K.Entries(l.footer, l.header[17], 1);
            var hash := Sha256.Hash(l.header + Joined(l.keys) + l.footer[..1]);
            && (Valid(m, l) ==>
                  TlSize(l.header) <= 40960 && es.Some? && K.WellSigned(m, 1, 2, hash, es.value))
            && (K.Readable(m) && TlSize(l.header) <= 40960 && es.Some? && K.WellSigned(m, 1, 2, hash, es.value) ==>
                  Valid(m, l))
  {
    hide K.Provisioned, Sha256.Hash, K.Entries, K.WellSigned, K.Readable, K.Accepts;
    K.AcceptsMeans(m, 1, 2, Sha256.Hash(SignedBytes(l)), l.footer, l.header[17], 1);
  }

  // ---------------------------------------------------------------- what is stored

  function File(files: Files, id: Id): seq<Byte> {
    if id in files then files[id] else []
  }

  /** A read of n bytes from the start. */
  function Prefix(f: seq<Byte>, n: nat): (r: Option<seq<Byte>>)
    ensures r.Some? ==> |r.value| == n
  {
    if f == [] || |f| < n then None else Some(f[..n])
  }

  function StoredHeader(files: Files, t: nat): (h: Option<seq<Byte>>)
    ensures h.Some? ==> |h.value| == TL_HEADER_SIZE
  {
    Prefix(File(files, Id(t, HeaderFile, 0)), TL_HEADER_SIZE)
  }

  function StoredKey(files: Files, t: nat, i: nat): (k: Option<seq<Byte>>) {
    var f := File(files, Id(t, KeyFile, i));
    if |f| < K.DATED_KEY_SIZE then None
    else
      match KeySize(f)
      case None => None
      case Some(n) => if n > MAX_PART_SIZE then None else Prefix(f, n)
  }

  /** A saved key as it is loaded again: keys that are too long for the buffer are not. */
  function LoadedKey(k: seq<Byte>): Option<seq<Byte>> {
    if |k| <= MAX_PART_SIZE then Some(k) else None
  }

  /** Where the signatures of a footer end, as far as the file has them. */
  function FooterEnd(f: seq<Byte>, count: nat, pos: nat): (n: Option<nat>)
    ensures n.Some? ==> n.value >= pos
    decreases count
  {
    if count == 0 then Some(pos)
    else if |f| < pos + SIGNATURE_META_SIZE then None
    else
      var signLen, keyLen := SignatureLen(f[pos + 1]), PubkeyLen(f[pos + 1]);
      if signLen <= 0 || keyLen <= 0 then None
      else FooterEnd(f, count - 1, pos + SIGNATURE_META_SIZE + signLen + keyLen)
  }

  function StoredFooter(files: Files, t: nat, count: nat): (r: Option<seq<Byte>>)
    ensures r.Some? ==> r.value != []
  {
    var f := File(files, Id(t, FooterFile, 0));
    match FooterEnd(f, count, 1)
    case None => None
    case Some(n) => if n > MAX_PART_SIZE then None else Prefix(f, n)
  }

  /** The storage holds the list: each file begins with its part. */
  ghost predicate Holds(files: Files, t: nat, l: TrustList) {
    && StoredHeader(files, t) == Some(l.header)
    && |l.keys| == KeysCount(l.header)
    && (forall i :: 0 <= i < |l.keys| ==> StoredKey(files, t, i) == Some(l.keys[i]))
    && StoredFooter(files, t, SignaturesCount(l.header)) == Some(l.footer)
  }

  /** A storage holds at most one list: nothing of it is open to interpretation. */
  lemma HoldsOne(files: Files, t: nat, a: TrustList, b: TrustList)
    requires Holds(files, t, a) && Holds(files, t, b)
    ensures a == b
  {
    assert forall i :: 0 <= i < |a.keys| ==> a.keys[i] == b.keys[i];
    assert a.keys == b.keys;
  }

  ghost predicate SameFiles(files: Files, files': Files, t: nat) {
    forall id: Id :: id.storage == t ==> File(files, id) == File(files', id)
  }

  lemma {:induction false} HoldsFrame(files: Files, files': Files, t: nat, l: TrustList)
    requires SameFiles(files, files', t) && Holds(files, t, l)
    ensures Holds(files', t, l)
  {
    assert File(files, Id(t, HeaderFile, 0)) == File(files', Id(t, HeaderFile, 0));
    assert File(files, Id(t, FooterFile, 0)) == File(files', Id(t, FooterFile, 0));
    forall i | 0 <= i < |l.keys|
      ensures StoredKey(files', t, i) == Some(l.keys[i])
    {
      assert File(files, Id(t, KeyFile, i)) == File(files', Id(t, KeyFile, i));
      assert StoredKey(files, t, i) == Some(l.keys[i]);
    }
  }

  /** Data that was written at the start of a file reads back. */
  lemma KeyReadsBack(f: seq<Byte>, k: seq<Byte>, tail: seq<Byte>)
    requires |k| >= K.DATED_KEY_SIZE && f == k + tail
    ensures |f| >= K.DATED_KEY_SIZE && KeySize(f) == KeySize(k)
  {
    assert f[8] == k[8] && f[9] == k[9] && f[10..12] == k[10..12];
  }

  lemma {:induction false} FooterReadsBack(a: seq<Byte>, tail: seq<Byte>, count: nat, pos: nat)
    requires FooterEnd(a, count, pos).Some? && FooterEnd(a, count, pos).value <= |a|
    ensures FooterEnd(a + tail, count, pos) == FooterEnd(a, count, pos)
    decreases count
  {
    if count > 0 {
      assert (a + tail)[pos + 1] == a[pos + 1];
      FooterReadsBack(a, tail, count - 1, pos + SIGNATURE_META_SIZE + SignatureLen(a[pos + 1]) + PubkeyLen(a[pos + 1]));
    }
  }

  /** The footer part that a storage holds has the same end as the file it begins. */
  lemma {:induction false} FooterPart(f: seq<Byte>, count: nat, pos: nat)
    requires FooterEnd(f, count, pos).Some? && FooterEnd(f, count, pos).value <= |f|
    ensures FooterEnd(f[..FooterEnd(f, count, pos).value], count, pos) == FooterEnd(f, count, pos)
    decreases count
  {
    if count > 0 {
      var next := pos + SIGNATURE_META_SIZE + SignatureLen(f[pos + 1]) + PubkeyLen(f[pos + 1]);
      FooterPart(f, count - 1, next);
    }
  }

  /** The files of a list with n keys. */
  ghost function Parts(t: nat, n: nat): set<Id> {
    {Id(t, HeaderFile, 0), Id(t, FooterFile, 0)} + Keys(t, n)
  }

  ghost function Keys(t: nat, n: nat): set<Id> {
    set i: nat | i < n :: Id(t, KeyFile, i)
  }

  /** A file after data was saved at its start. */
  function Saved(files: Files, id: Id, data: seq<Byte>): Files {
    var f := File(files, id);
    files[id := data + if |f| > |data| then f[|data|..] else []]
  }

  /** What the temporary storage holds once the footer is uploaded. */
  function WithFooter(files: Files, footer: seq<Byte>): Files {
    Saved(files, Id(TMP, FooterFile, 0), footer)
  }

  /** A key that can be saved: complete, of a known type and a supported curve. */
  predicate Savable(k: seq<Byte>, limit: nat) {
    |k| >= K.DATED_KEY_SIZE && KeySize(k) == Some(|k|) && K.KeyType(k) < K.UNSUPPORTED && |k| <= limit
  }

  /** A header that can be saved. */
  predicate Startable(h: seq<Byte>, limit: nat) {
    |h| == TL_HEADER_SIZE <= limit && TlSize(h) <= STORAGE_SIZE
  }

  /** The list fits the storage and the buffers of the device. */
  predicate Storable(l: TrustList, limit: nat) {
    && Startable(l.header, limit) && |l.keys| == KeysCount(l.header)
    && (forall k <- l.keys :: Savable(k, limit) && |k| <= MAX_PART_SIZE)
    && |l.footer| <= limit && |l.footer| <= MAX_PART_SIZE
  }

  /** A valid list lies in the temporary storage. */
  ghost predicate Genuine(m: K.SecModule, uploaded: Files, l: TrustList)
    requires K.Provisioned(m)
  {
    Holds(uploaded, TMP, l) && Valid(m, l)
  }

  // ---------------------------------------------------------------- the three storages

  /** vs_tl_context_t; the header is cached as stored. */
  datatype Context = Context(ready: bool, keysCount: nat, keysAmount: nat, header: seq<Byte>)

  /** Only the file id may differ. */
  ghost predicate Touches(files: Files, files': Files, id: Id) {
    forall other :: other != id ==> File(files, other) == File(files', other)
  }

  ghost predicate TouchesStorage(files: Files, files': Files, t: nat) {
    forall s: nat :: s != t ==> SameFiles(files, files', s)
  }

  lemma TouchesIsLocal(files: Files, files': Files, id: Id)
    requires Touches(files, files', id)
    ensures TouchesStorage(files, files', id.storage)
  {
  }

  lemma TouchesNone(files: Files, t: nat)
    ensures TouchesStorage(files, files, t)
  {
  }

  lemma TouchesChain(a: Files, b: Files, c: Files, t: nat)
    requires TouchesStorage(a, b, t) && TouchesStorage(b, c, t)
    ensures TouchesStorage(a, c, t)
  {
    forall s: nat | s != t
      ensures SameFiles(a, c, s)
    {
      assert SameFiles(a, b, s) && SameFiles(b, c, s);
    }
  }

  /** If the live context is ready, its storage holds l, which is valid. */
  ghost predicate InService(m: K.SecModule, files: Files, c: Context, l: TrustList)
    requires K.Provisioned(m)
  {
    c.ready ==> Holds(files, DYNAMIC, l) && Valid(m, l) && c.header == l.header
  }

  /** What happens in another storage does not concern the live one. */
  lemma ServiceFrame(m: K.SecModule, files: Files, files': Files, t: nat, c: Context, l: TrustList)
    requires K.Provisioned(m) && TouchesStorage(files, files', t) && t != DYNAMIC
    ensures InService(m, files, c, l) <==> InService(m, files', c, l)
    ensures SameFiles(files, files', DYNAMIC)
  {
    hide Holds, Valid, K.Provisioned, SameFiles;
    StillHolds(files, files', t, DYNAMIC, l);
  }

  lemma SameChain(a: Files, b: Files, c: Files)
    ensures SameFiles(a, b, DYNAMIC) && SameFiles(b, c, DYNAMIC) ==> SameFiles(a, c, DYNAMIC)
    ensures SameFiles(a, a, DYNAMIC)
  {
    if SameFiles(a, b, DYNAMIC) && SameFiles(b, c, DYNAMIC) {
      forall id: Id | id.storage == DYNAMIC
        ensures File(a, id) == File(c, id)
      {
        assert File(a, id) == File(b, id) && File(b, id) == File(c, id);
      }
    }
  }

  // ---------------------------------------------------------------- what a part does to the live list

  /** What became of the live list: it was kept, it was lost while l should have replaced it, or l was taken. */
  datatype Event = Kept | Lost(list: TrustList) | Taken(list: TrustList)

  datatype Snapshot = Snapshot(files: Files, ctx: seq<Context>, faults: nat, accepted: TrustList)

  /** What an event says about the states before and after. Only a valid upload can cost the live list, and, as
      long as storage calls succeed, only one that does not fit. */
  ghost predicate Step(m: K.SecModule, limit: nat, uploaded: Files, a: Snapshot, b: Snapshot, e: Event)
    requires K.Provisioned(m) && |a.ctx| == |b.ctx| == 3
  {
    match e
    case Kept =>
      b.accepted == a.accepted && b.ctx[DYNAMIC] == a.ctx[DYNAMIC] && SameFiles(a.files, b.files, DYNAMIC)
    case Lost(l) =>
      && b.accepted == a.accepted && !b.ctx[DYNAMIC].ready
      && Genuine(m, uploaded, l) && (a.faults == b.faults ==> !Storable(l, limit))
    case Taken(l) =>
      && b.accepted == l && b.ctx[DYNAMIC].ready && b.ctx[DYNAMIC].header == l.header
      && Genuine(m, uploaded, l) && Holds(b.files, DYNAMIC, l)
  }

  /** The step for a footer: the keys announced must be there; then, as long as storage calls succeed, a valid
      upload is not ignored. */
  ghost predicate FooterStep(m: K.SecModule, limit: nat, data: seq<Byte>, a: Snapshot, b: Snapshot, e: Event)
    requires K.Provisioned(m) && |a.ctx| == |b.ctx| == 3
  {
    var uploaded, complete := WithFooter(a.files, data), a.ctx[TMP].keysAmount == a.ctx[TMP].keysCount;
    && Step(m, limit, uploaded, a, b, e)
    && (e != Kept ==> |data| <= limit && complete)
    && (a.faults == b.faults && |data| <= limit && complete ==>
          forall l :: Genuine(m, uploaded, l) ==> e != Kept && e.list == l)
  }

  /** The step for any part: header and keys leave the live list alone. */
  ghost predicate PartStep(m: K.SecModule, limit: nat, part: (Element, seq<Byte>), a: Snapshot, b: Snapshot, e: Event)
    requires K.Provisioned(m) && |a.ctx| == |b.ctx| == 3
  {
    if part.0.FooterFile? then FooterStep(m, limit, part.1, a, b, e) else e == Kept && Step(m, limit, a.files, a, b, e)
  }

  ghost predicate Trace(m: K.SecModule, limit: nat, parts: seq<(Element, seq<Byte>)>, states: seq<Snapshot>,
                        events: seq<Event>)
    requires K.Provisioned(m)
  {
    && |states| == |parts| + 1 && |events| == |parts|
    && (forall i :: 0 <= i < |states| ==> |states[i].ctx| == 3)
    && (forall i :: 0 <= i < |parts| ==>
          states[i].faults <= states[i + 1].faults
          && PartStep(m, limit, parts[i], states[i], states[i + 1], events[i]))
  }

  function LastTaken(events: seq<Event>, first: TrustList): TrustList {
    if events == [] then first
    else
      var e := events[|events| - 1];
      if e.Taken? then e.list else LastTaken(events[..|events| - 1], first)
  }

  predicate ReadyAfter(events: seq<Event>, ready: bool) {
    if events == [] then ready
    else
      var e := events[|events| - 1];
      if e == Kept then ReadyAfter(events[..|events| - 1], ready) else e.Taken?
  }

  lemma TraceMore(m: K.SecModule, limit: nat, parts: seq<(Element, seq<Byte>)>, states: seq<Snapshot>,
                  events: seq<Event>, part: (Element, seq<Byte>), b: Snapshot, e: Event)
    requires K.Provisioned(m) && Trace(m, limit, parts, states, events) && |b.ctx| == 3
    requires var a := states[|parts|]; a.faults <= b.faults && PartStep(m, limit, part, a, b, e)
    ensures Trace(m, limit, parts + [part], states + [b], events + [e])
  {
    hide PartStep, K.Provisioned;
  }

  /** What a run comes to, whatever fails in it: the live list is the one taken last, valid, and in service unless
      a valid upload was lost after it; if nothing was taken or lost, the live storage is untouched; and as long
      as storage calls succeed, only uploads that do not fit are lost. */
  lemma {:induction false} TraceMeans(m: K.SecModule, limit: nat, parts: seq<(Element, seq<Byte>)>,
                                      states: seq<Snapshot>, events: seq<Event>)
    requires K.Provisioned(m) && Trace(m, limit, parts, states, events)
    requires InService(m, states[0].files, states[0].ctx[DYNAMIC], states[0].accepted)
    ensures var a, b := states[0], states[|parts|];
            && InService(m, b.files, b.ctx[DYNAMIC], b.accepted)
            && b.accepted == LastTaken(events, a.accepted)
            && b.ctx[DYNAMIC].ready == ReadyAfter(events, a.ctx[DYNAMIC].ready)
            && ((forall e <- events :: e == Kept) ==>
                  b.ctx[DYNAMIC] == a.ctx[DYNAMIC] && SameFiles(a.files, b.files, DYNAMIC))
            && a.faults <= b.faults
            && (a.faults == b.faults ==> forall e <- events :: e.Lost? ==> !Storable(e.list, limit))
    decreases |parts|
  {
    hide InService, Storable, SameFiles, K.Provisioned, PartStep, LastTaken, ReadyAfter;
    var n := |parts|;
    SameChain(states[0].files, states[0].files, states[0].files);
    NoEvents(states[0].accepted, states[0].ctx[DYNAMIC].ready);
    if n > 0 {
      TraceMeans(m, limit, parts[..n - 1], states[..n], events[..n - 1]);
      var a, b, e := states[n - 1], states[n], events[n - 1];
      OneStep(m, limit, parts[n - 1], a, b, e);
      SameChain(states[0].files, a.files, b.files);
      OneMoreEvent(limit, events[..n - 1], e, states[0].accepted, states[0].ctx[DYNAMIC].ready);
      assert events == events[..n - 1] + [e];
    }
  }

  lemma NoEvents(first: TrustList, ready: bool)
    ensures LastTaken([], first) == first && ReadyAfter([], ready) == ready
  {
  }

  lemma OneMoreEvent(limit: nat, events: seq<Event>, e: Event, first: TrustList, ready: bool)
    ensures var more := events + [e];
            && LastTaken(more, first) == LastTaken([e], LastTaken(events, first))
            && ReadyAfter(more, ready) == ReadyAfter([e], ReadyAfter(events, ready))
            && ((forall x <- more :: x == Kept) ==> e == Kept && forall x <- events :: x == Kept)
            && ((forall x <- events :: x.Lost? ==> !Storable(x.list, limit)) && (e.Lost? ==> !Storable(e.list, limit))
                ==> forall x <- more :: x.Lost? ==> !Storable(x.list, limit))
  {
    hide Storable;
    var more := events + [e];
    assert more[|more| - 1] == e && more[..|more| - 1] == events;
    assert e in more && forall x <- events :: x in more;
  }

  /** What one step comes to. */
  lemma OneStep(m: K.SecModule, limit: nat, part: (Element, seq<Byte>), a: Snapshot, b: Snapshot, e: Event)
    requires K.Provisioned(m) && |a.ctx| == |b.ctx| == 3 && PartStep(m, limit, part, a, b, e)
    requires InService(m, a.files, a.ctx[DYNAMIC], a.accepted)
    ensures InService(m, b.files, b.ctx[DYNAMIC], b.accepted)
    ensures b.accepted == LastTaken([e], a.accepted) && b.ctx[DYNAMIC].ready == ReadyAfter([e], a.ctx[DYNAMIC].ready)
    ensures e == Kept ==> b.ctx[DYNAMIC] == a.ctx[DYNAMIC] && SameFiles(a.files, b.files, DYNAMIC)
    ensures a.faults == b.faults && e.Lost? ==> !Storable(e.list, limit)
  {
    hide Holds, Valid, SameFiles, K.Provisioned, Storable, WithFooter;
    if e == Kept && a.ctx[DYNAMIC].ready {
      HoldsFrame(a.files, b.files, DYNAMIC, a.accepted);
    }
  }

  /** What happens to the other storages afterwards does not change a step. */
  lemma FooterStepOn(m: K.SecModule, limit: nat, data: seq<Byte>, a: Snapshot, b: Snapshot, c: Snapshot, e: Event)
    requires K.Provisioned(m) && |a.ctx| == |b.ctx| == |c.ctx| == 3 && FooterStep(m, limit, data, a, b, e)
    requires c.accepted == b.accepted && c.ctx[DYNAMIC] == b.ctx[DYNAMIC] && a.faults <= b.faults <= c.faults
    requires SameFiles(b.files, c.files, DYNAMIC)
    ensures FooterStep(m, limit, data, a, c, e)
  {
    hide Holds, Valid, SameFiles, K.Provisioned, Storable, WithFooter;
    SameChain(a.files, b.files, c.files);
    if e.Taken? {
      HoldsFrame(b.files, c.files, DYNAMIC, e.list);
    }
  }

  /** What an event says about the live list. */
  ghost predicate EventMeans(m: K.SecModule, a: Snapshot, b: Snapshot, e: Event)
    requires K.Provisioned(m) && |a.ctx| == |b.ctx| == 3
  {
    match e
    case Kept => b.accepted == a.accepted && b.ctx[DYNAMIC] == a.ctx[DYNAMIC] && SameFiles(a.files, b.files, DYNAMIC)
    case Lost(l) => b.accepted == a.accepted && !b.ctx[DYNAMIC].ready && Valid(m, l)
    case Taken(l) => b.accepted == l && b.ctx[DYNAMIC].ready && Valid(m, l)
  }

  /** A list that should become the live one: it fits and is valid. */
  ghost predicate Acceptable(m: K.SecModule, limit: nat, l: TrustList)
    requires K.Provisioned(m)
  {
    Storable(l, limit) && Valid(m, l)
  }

  /** A list of this type and version may follow the live one. */
  predicate Succeeds(tlType: Byte, version: Version, live: TrustList) {
    && live.footer != [] && tlType == live.footer[0]
    && |live.header| == TL_HEADER_SIZE && Newer(version, TlVersion(live.header))
  }

  /** ... which is one of the same type and a higher version. */
  lemma SucceedsMeans(tlType: Byte, version: Version, live: TrustList)
    requires |live.header| == 18 && live.footer != []
    ensures Succeeds(tlType, version, live) <==>
            && tlType == live.footer[0]
            && Higher(version, Version(live.header[4], live.header[5], live.header[6],
                                       FromBE(live.header[7..11]), FromBE(live.header[11..15])))
  {
    CompareIsLexicographic(version, TlVersion(live.header));
    hide Compare, Higher, FromBE;
  }

  /** The footer ends where the device sees its end. */
  predicate FooterFits(header: seq<Byte>, footer: seq<Byte>)
    requires |header| == TL_HEADER_SIZE
  {
    FooterEnd(footer, SignaturesCount(header), 1) == Some(|footer|)
  }

  /** Header and keys of an upload are in the temporary storage. */
  ghost predicate KeysSaved(files: Files, c: Context, header: seq<Byte>, keys: seq<seq<Byte>>) {
    && StoredHeader(files, TMP) == Some(header) && c.keysAmount == KeysCount(header)
    && c.keysCount == |keys| <= c.keysAmount
    && forall j :: 0 <= j < |keys| ==> StoredKey(files, TMP, j) == LoadedKey(keys[j])
  }

  class Store {
    const secModule: K.SecModule
    const limit: nat
    var files: Files
    var ctx: seq<Context>
    /** How many storage calls have failed for no reason of their own. */
    ghost var faults: nat
    /** The list that was last accepted as the live one. */
    ghost var accepted: TrustList

    ghost predicate Shape()
      reads this
    {
      K.Provisioned(secModule) && |ctx| == 3 && forall t :: 0 <= t < 3 ==> |ctx[t].header| == TL_HEADER_SIZE
    }

    /** The live storage, when it is in service, holds exactly the list accepted last, and that
        list is valid. */
    ghost predicate Live()
      reads this
    {
      Shape() && InService(secModule, files, ctx[DYNAMIC], accepted)
    }

    ghost function Now(): Snapshot
      reads this
    {
      Snapshot(files, ctx, faults, accepted)
    }

    // -------------------------------------------------------------- storage calls

    method Read(id: Id, size: nat) returns (ok: bool, data: seq<Byte>)
      modifies this`faults
      ensures faults >= old(faults)
      ensures ok ==> Prefix(File(files, id), size) == Some(data)
      ensures !ok && faults == old(faults) ==> Prefix(File(files, id), size) == None
    {
      var fails: bool := *;
      if fails {
        faults := faults + 1;
        return false, [];
      }
      var f := File(files, id);
      if |f| <= 0 || |f| < size {
        return false, [];
      }
      return true, f[..size];
    }

    method Write(id: Id, data: seq<Byte>) returns (ok: bool)
      modifies this`files, this`faults
      ensures Touches(old(files), files, id) && faults >= old(faults)
      ensures ok ==> |data| <= limit && |File(files, id)| >= |data| && File(files, id)[..|data|] == data
      ensures ok ==> files == Saved(old(files), id, data)
      ensures !ok && faults == old(faults) ==> |data| > limit && files == old(files)
    {
      if |data| > limit {
        return false;
      }
      var fails: bool := *;
      if fails {
        var left: seq<Byte> := *;
        files := files[id := left];
        faults := faults + 1;
        return false;
      }
      var f := File(files, id);
      files := files[id := data + if |f| > |data| then f[|data|..] else []];
      return true;
    }

    method Delete(id: Id) returns (ok: bool)
      modifies this`files, this`faults
      ensures Touches(old(files), files, id) && faults >= old(faults)
      ensures ok ==> files == old(files) - {id}
      ensures !ok && faults == old(faults) ==> id !in old(files)
      ensures forall other :: other != id && other !in old(files) ==> other !in files
    {
      var fails: bool := *;
      if fails {
        var left: seq<Byte> := *;
        files := files[id := left];
        faults := faults + 1;
        return false;
      }
      ok := id in files;
      files := files - {id};
    }

    // -------------------------------------------------------------- header, keys, footer

    method HeaderSave(t: nat, header: seq<Byte>) returns (ok: bool)
      requires Shape() && t < 3 && |header| == TL_HEADER_SIZE
      modifies this`files, this`faults, this`ctx
      ensures Shape() && Touches(old(files), files, Id(t, HeaderFile, 0)) && faults >= old(faults)
      ensures TlSize(header) > STORAGE_SIZE ==> !ok && files == old(files) && ctx == old(ctx)
      ensures ok ==> TlSize(header) <= STORAGE_SIZE && StoredHeader(files, t) == Some(header)
                     && ctx == old(ctx)[t := Context(false, 0, KeysCount(header), header)]
      ensures !ok && TlSize(header) <= STORAGE_SIZE ==>
              ctx == old(ctx)[t := Context(false, 0, KeysCount(header), old(ctx)[t].header)]
      ensures if ok then Startable(header, limit) else faults == old(faults) ==> !Startable(header, limit)
    {
      if TlSize(header) > STORAGE_SIZE {
        return false;
      }
      ctx := ctx[t := ctx[t].(ready := false, keysCount := 0, keysAmount := KeysCount(header))];
      ok := Write(Id(t, HeaderFile, 0), header);
      if ok {
        ctx := ctx[t := ctx[t].(header := header)];
      }
    }

    method HeaderLoad(t: nat) returns (ok: bool, header: seq<Byte>)
      requires Shape() && t < 3
      modifies this`faults, this`ctx
      ensures Shape() && faults >= old(faults)
      ensures ok ==> old(ctx)[t].ready && StoredHeader(files, t) == Some(header)
                     && ctx == old(ctx)[t := old(ctx)[t].(header := header)]
      ensures !ok ==> ctx == old(ctx)
      ensures !ok && faults == old(faults) && old(ctx)[t].ready ==> StoredHeader(files, t) == None
    {
      if !ctx[t].ready {
        return false, [];
      }
      ok, header := Read(Id(t, HeaderFile, 0), TL_HEADER_SIZE);
      if ok {
        ctx := ctx[t := ctx[t].(header := header)];
      }
    }

    method FooterSave(t: nat, footer: seq<Byte>) returns (ok: bool)
      requires Shape() && t < 3
      modifies this`files, this`faults
      ensures Touches(old(files), files, Id(t, FooterFile, 0)) && faults >= old(faults)
      ensures ok ==> files == Saved(old(files), Id(t, FooterFile, 0), footer) && |footer| <= limit
      ensures !ok && faults == old(faults) ==> |footer| > limit || ctx[t].keysAmount != ctx[t].keysCount
      ensures ok ==> ctx[t].keysAmount == ctx[t].keysCount
                     && |File(files, Id(t, FooterFile, 0))| >= |footer|
                     && File(files, Id(t, FooterFile, 0))[..|footer|] == footer
    {
      if ctx[t].keysAmount != ctx[t].keysCount {
        return false;
      }
      if |footer| > limit {
        return false;
      }
      ok := Write(Id(t, FooterFile, 0), footer);
    }

    method FooterLoad(t: nat) returns (ok: bool, footer: seq<Byte>)
      requires Shape() && t < 3
      modifies this`faults
      ensures faults >= old(faults)
      ensures ok ==> ctx[t].ready && StoredFooter(files, t, SignaturesCount(ctx[t].header)) == Some(footer)
      ensures !ok && faults == old(faults) && ctx[t].ready ==>
              StoredFooter(files, t, SignaturesCount(ctx[t].header)) == None
    {
      if !ctx[t].ready {
        return false, [];
      }
      var id := Id(t, FooterFile, 0);
      var size, count := 1, SignaturesCount(ctx[t].header);
      ghost var f := File(files, id);
      var i := 0;
      while i < count
        invariant 0 <= i <= count && size > 0 && faults >= old(faults)
        invariant FooterEnd(f, count - i, size) == FooterEnd(f, count, 1)
      {
        size := size + SIGNATURE_META_SIZE;
        var buf;
        ok, buf := Read(id, size);
        if !ok {
          return false, [];
        }
        assert buf == f[..size];
        var signLen := SignatureLen(buf[size - 2]);
        var keyLen := PubkeyLen(buf[size - 2]);
        if !(signLen > 0 && keyLen > 0) {
          return false, [];
        }
        size := size + keyLen + signLen;
        i := i + 1;
      }
      if MAX_PART_SIZE < size {
        return false, [];
      }
      ok, footer := Read(id, size);
    }

    method KeySave(t: nat, key: seq<Byte>) returns (ok: bool)
      requires Shape() && t < 3 && |key| >= K.DATED_KEY_SIZE
      modifies this`files, this`faults, this`ctx
      ensures Shape() && faults >= old(faults)
      ensures Touches(old(files), files, Id(t, KeyFile, old(ctx)[t].keysCount))
      ensures ok ==> KeySize(key) == Some(|key|) && old(ctx)[t].keysCount < old(ctx)[t].keysAmount
                     && ctx == old(ctx)[t := old(ctx)[t].(keysCount := old(ctx)[t].keysCount + 1)]
                     && StoredKey(files, t, old(ctx)[t].keysCount) == LoadedKey(key)
      ensures if ok then Savable(key, limit)
              else faults == old(faults) ==> !Savable(key, limit) || old(ctx)[t].keysCount >= old(ctx)[t].keysAmount
      ensures !ok ==> forall s :: 0 <= s < 3 && s != t ==> ctx[s] == old(ctx)[s]
      ensures ctx[t].ready == old(ctx)[t].ready && ctx[t].header == old(ctx)[t].header
    {
      var keyLen := PubkeyLen(K.EcType(key));
      if keyLen <= 0 {
        return false;
      }
      if K.KeyType(key) >= K.UNSUPPORTED {
        return false;
      }
      if |key| > limit {
        return false;
      }
      keyLen := keyLen + K.DATED_KEY_SIZE + K.MetaSize(key);
      if keyLen != |key| {
        return false;
      }
      if ctx[t].keysCount >= ctx[t].keysAmount {
        ctx := ctx[t := ctx[t].(keysCount := ctx[t].keysAmount)];
        return false;
      }
      var id := Id(t, KeyFile, ctx[t].keysCount);
      ok := Write(id, key);
      if !ok {
        return;
      }
      assert File(files, id) == key + File(files, id)[|key|..];
      KeyReadsBack(File(files, id), key, File(files, id)[|key|..]);
      ctx := ctx[t := ctx[t].(keysCount := ctx[t].keysCount + 1)];
    }

    method KeyLoad(t: nat, i: nat) returns (ok: bool, key: seq<Byte>)
      requires Shape() && t < 3
      modifies this`faults
      ensures faults >= old(faults)
      ensures ok ==> ctx[t].ready && StoredKey(files, t, i) == Some(key)
      ensures !ok && faults == old(faults) && ctx[t].ready ==> StoredKey(files, t, i) == None
    {
      if !ctx[t].ready {
        return false, [];
      }
      var id := Id(t, KeyFile, i);
      var element;
      ok, element := Read(id, K.DATED_KEY_SIZE);
      if !ok {
        return false, [];
      }
      ghost var f := File(files, id);
      assert f == element + f[K.DATED_KEY_SIZE..];
      KeyReadsBack(f, element, f[K.DATED_KEY_SIZE..]);
      var keyLen := PubkeyLen(K.EcType(element));
      if keyLen <= 0 {
        return false, [];
      }
      keyLen := keyLen + K.DATED_KEY_SIZE + K.MetaSize(element);
      if keyLen > MAX_PART_SIZE {
        return false, [];
      }
      ok, key := Read(id, keyLen);
    }

    // -------------------------------------------------------------- invalidate, verify, copy

    method Invalidate(t: nat)
      requires Shape() && t < 3
      modifies this`files, this`faults, this`ctx
      ensures Shape() && faults >= old(faults) && TouchesStorage(old(files), files, t)
      ensures forall s :: 0 <= s < 3 && s != t ==> ctx[s] == old(ctx)[s]
      ensures ctx[t].keysCount == ctx[t].keysAmount == 0
      ensures !old(ctx)[t].ready ==> !ctx[t].ready && files == old(files)
      ensures old(ctx)[t].ready && !ctx[t].ready ==> Id(t, HeaderFile, 0) !in files
      ensures old(ctx)[t].ready && faults == old(faults) ==>
                match old(StoredHeader(files, t))
                case None => ctx[t].ready && files == old(files)
                case Some(h) => !ctx[t].ready && (Parts(t, KeysCount(h)) <= old(files).Keys ==>
                                                    files == old(files) - Parts(t, KeysCount(h)))
    {
      hide TouchesStorage, Touches, StoredHeader;
      ctx := ctx[t := ctx[t].(keysCount := 0, keysAmount := 0)];
      TouchesNone(files, t);
      var ok, header;
      if ctx[t].ready {
        ok, header := HeaderLoad(t);
      } else {
        return;
      }
      if !ok {
        return;
      }
      HeaderThere(files, t);
      ok := DeletePart(t, HeaderFile, 0, old(files));
      if !ok {
        return;
      }
      ctx := ctx[t := ctx[t].(ready := false)];
      ok := DeletePart(t, FooterFile, 0, old(files));
      if !ok {
        return;
      }
      DeleteKeys(t, KeysCount(header), old(files));
      assert old(files) - {Id(t, HeaderFile, 0)} - {Id(t, FooterFile, 0)} - Keys(t, KeysCount(header))
          == old(files) - Parts(t, KeysCount(header));
    }

    method DeleteKeys(t: nat, count: nat, ghost since: Files)
      requires TouchesStorage(since, files, t)
      modifies this`files, this`faults
      ensures TouchesStorage(since, files, t) && faults >= old(faults)
      ensures forall id: Id :: id.element != KeyFile && id !in old(files) ==> id !in files
      ensures faults == old(faults) && Keys(t, count) <= old(files).Keys ==> files == old(files) - Keys(t, count)
    {
      hide TouchesStorage;
      var i := 0;
      assert old(files) - Keys(t, 0) == old(files);
      while i < count
        invariant 0 <= i <= count && faults >= old(faults) && TouchesStorage(since, files, t)
        invariant forall id: Id :: id.element != KeyFile && id !in old(files) ==> id !in files
        invariant faults == old(faults) ==> files == old(files) - Keys(t, i)
      {
        var ok := DeletePart(t, KeyFile, i, since);
        if !ok {
          return;
        }
        assert old(files) - Keys(t, i) - {Id(t, KeyFile, i)} == old(files) - Keys(t, i + 1);
        i := i + 1;
      }
    }

    /** One deletion among several in a storage. */
    method DeletePart(t: nat, element: Element, index: nat, ghost since: Files) returns (ok: bool)
      requires TouchesStorage(since, files, t)
      modifies this`files, this`faults
      ensures TouchesStorage(since, files, t) && faults >= old(faults)
      ensures ok ==> files == old(files) - {Id(t, element, index)}
      ensures !ok && faults == old(faults) ==> Id(t, element, index) !in old(files)
      ensures forall id :: id != Id(t, element, index) && id !in old(files) ==> id !in files
    {
      hide TouchesStorage, Touches;
      ghost var before := files;
      ok := Delete(Id(t, element, index));
      TouchesIsLocal(before, files, Id(t, element, index));
      TouchesChain(since, before, files, t);
    }

    /** Loads and hashes the keys of a storage. */
    method HashKeys(t: nat, count: nat, hash: Sha256.Context) returns (ok: bool, ghost keys: seq<seq<Byte>>)
      requires Shape() && t < 3 && hash.Valid()
      modifies this`faults, hash`total0, hash`total1, hash`fed, hash.state, hash.buffer
      ensures Shape() && faults >= old(faults) && hash.Valid()
      ensures ok ==> |keys| == count && hash.fed == old(hash.fed) + Joined(keys)
                     && forall i :: 0 <= i < count ==> StoredKey(files, t, i) == Some(keys[i])
      ensures !ok && faults == old(faults) && ctx[t].ready ==>
              exists i :: 0 <= i < count && StoredKey(files, t, i) == None
    {
      hide Sha256.Context.Valid, StoredKey;
      keys := [];
      var i := 0;
      assert hash.fed + Joined([]) == hash.fed;
      while i < count
        invariant 0 <= i <= count && Shape() && hash.Valid() && faults >= old(faults)
        invariant hash.state == old(hash.state) && hash.buffer == old(hash.buffer)
        invariant |keys| == i && hash.fed == old(hash.fed) + Joined(keys)
        invariant forall j :: 0 <= j < i ==> StoredKey(files, t, j) == Some(keys[j])
      {
        var key;
        ok, key := KeyLoad(t, i);
        if !ok {
          return;
        }
        StoredKeySize(files, t, i);
        hash.Update(key);
        JoinedMore(keys, key);
        keys := keys + [key];
        i := i + 1;
      }
      ok := true;
    }

    /** _verify_tl: loads header, keys and footer, hashes them, and checks the signatures. */
    method Verify(t: nat) returns (ok: bool, ghost l: TrustList)
      requires Shape() && t < 3
      modifies this`faults, this`ctx
      ensures Shape() && faults >= old(faults)
      ensures forall s :: 0 <= s < 3 && s != t ==> ctx[s] == old(ctx)[s]
      ensures ctx[t].keysCount == old(ctx)[t].keysCount && ctx[t].keysAmount == old(ctx)[t].keysAmount
      ensures ok ==> ctx[t].ready && Holds(files, t, l) && Valid(secModule, l) && ctx[t].header == l.header
      ensures !ok && faults == old(faults) ==> forall l :: Holds(files, t, l) ==> !Valid(secModule, l)
    {
      hide K.Accepts, Sha256.Hash, Holds;
      ctx := ctx[t := ctx[t].(ready := true)];
      var header, footer, digest;
      ok, header, footer, digest, l := HashList(t);
      if !ok {
        ctx := ctx[t := ctx[t].(ready := false)];
        return false, l;
      }
      OnlyThis(files, t, l);
      ok := K.CheckSignatures(secModule, RULES, digest, footer, SignaturesCount(header), 1);
    }

    /** The loading and hashing part of the verification. */
    method HashList(t: nat) returns (ok: bool, header: seq<Byte>, footer: seq<Byte>, digest: seq<Byte>,
          ghost l: TrustList)
      requires Shape() && t < 3 && ctx[t].ready
      modifies this`faults, this`ctx
      ensures Shape() && faults >= old(faults)
      ensures ctx == old(ctx) || (|header| == TL_HEADER_SIZE && ctx == old(ctx)[t := old(ctx)[t].(header := header)])
      ensures ok ==> l.header == header == ctx[t].header && l.footer == footer != [] && Holds(files, t, l)
                     && |header| == TL_HEADER_SIZE && TlSize(header) <= STORAGE_SIZE
                     && digest == Sha256.Hash(SignedBytes(l))
      ensures !ok && faults == old(faults) ==> forall l :: Holds(files, t, l) ==> !Valid(secModule, l)
    {
      hide Sha256.Context.Valid, StoredKey, StoredHeader, StoredFooter, Holds, Valid, Sha256.Hash, K.Provisioned;
      l, footer, digest := TrustList([], [], []), [], [];
      ok, header := HeaderLoad(t);
      if !ok || TlSize(header) > STORAGE_SIZE {
        HeaderRefused(secModule, files, t);
        return false, header, footer, digest, l;
      }
      var hash := new Sha256.Context();
      hash.Update(header);
      assert [] + header == header;
      ghost var keys;
      ok, keys := HashKeys(t, KeysCount(header), hash);
      if !ok {
        PartMissing(files, t, header);
        return;
      }
      ok, footer := FooterLoad(t);
      if !ok {
        PartMissing(files, t, header);
        return;
      }
      HoldsFrom(files, t, TrustList(header, keys, footer));
      hash.Update(footer[..1]);
      l := TrustList(header, keys, footer);
      digest := Digest(hash);
    }

    method Digest(hash: Sha256.Context) returns (digest: seq<Byte>)
      requires hash.Valid()
      modifies hash`total0, hash`total1, hash.state, hash.buffer
      ensures digest == Sha256.Hash(old(hash.fed))
    {
      hide Sha256.Context.Valid, Sha256.Hash;
      var out := new Byte[32](_ => 0);
      hash.Final(out);
      digest := out[..];
      assert Sha256.Hash(old(hash.fed)) + [] == Sha256.Hash(old(hash.fed));
    }

    /** Copies the keys, one file after the other. */
    method CopyKeys(dst: nat, src: nat, count: nat, ghost l: TrustList) returns (ok: bool)
      requires Shape() && dst < 3 && src < 3 && dst != src && Holds(files, src, l) && count == |l.keys|
      requires ctx[dst].keysCount == 0 && ctx[dst].keysAmount == count
      modifies this`files, this`faults, this`ctx
      ensures Shape() && faults >= old(faults) && TouchesStorage(old(files), files, dst)
      ensures forall s :: 0 <= s < 3 && s != dst ==> ctx[s] == old(ctx)[s]
      ensures ctx[dst].header == old(ctx)[dst].header && ctx[dst].ready == old(ctx)[dst].ready
      ensures StoredHeader(files, dst) == old(StoredHeader(files, dst))
      ensures ok ==> ctx[dst].keysCount == ctx[dst].keysAmount
                     && forall i :: 0 <= i < count ==> StoredKey(files, dst, i) == Some(l.keys[i])
      ensures faults == old(faults) && ctx[src].ready && (forall k <- l.keys :: Savable(k, limit)) ==> ok
    {
      hide StoredKey, StoredHeader, FooterEnd, TouchesStorage, Touches, Holds, Savable;
      TouchesNone(files, dst);
      var i := 0;
      while i < count
        invariant 0 <= i <= count && Shape() && faults >= old(faults) && TouchesStorage(old(files), files, dst)
        invariant Holds(files, src, l)
        invariant forall s :: 0 <= s < 3 && s != dst ==> ctx[s] == old(ctx)[s]
        invariant ctx[dst] == old(ctx)[dst].(keysCount := i)
        invariant StoredHeader(files, dst) == old(StoredHeader(files, dst))
        invariant forall j :: 0 <= j < i ==> StoredKey(files, dst, j) == Some(l.keys[j])
      {
        var key;
        ok, key := KeyLoad(src, i);
        HeldKey(files, src, l, i);
        if !ok {
          return;
        }
        assert key in l.keys;
        StoredKeySize(files, src, i);
        ghost var before := files;
        ok := KeySave(dst, key);
        TouchesIsLocal(before, files, Id(dst, KeyFile, i));
        TouchesChain(old(files), before, files, dst);
        StillHolds(before, files, dst, src, l);
        OtherKeys(before, files, dst, i);
        if !ok {
          return;
        }
        i := i + 1;
      }
      ok := true;
    }

    /** _copy_tl_file: the list l moves from one storage to another. */
    method Copy(dst: nat, src: nat, ghost l: TrustList) returns (ok: bool)
      requires Shape() && dst < 3 && src < 3 && dst != src && (ctx[src].ready ==> Holds(files, src, l))
      modifies this`files, this`faults, this`ctx
      ensures Shape() && faults >= old(faults) && TouchesStorage(old(files), files, dst)
      ensures forall s :: 0 <= s < 3 && s != dst && s != src ==> ctx[s] == old(ctx)[s]
      ensures !old(ctx)[src].ready ==> !ok && ctx == old(ctx) && files == old(files)
      ensures ok ==> ctx[dst].ready && ctx[dst].header == l.header && Holds(files, dst, l)
      ensures !ok && old(ctx)[src].ready ==> !ctx[dst].ready
      ensures faults == old(faults) && old(ctx)[src].ready && Storable(l, limit) ==> ok
    {
      hide StoredKey, StoredHeader, StoredFooter, FooterEnd, TouchesStorage, Touches, Holds, K.Provisioned, Savable,
           Startable;
      TouchesNone(files, dst);
      if !ctx[src].ready {
        return false;
      }
      HeldHeader(files, src, l);
      var header;
      ok, header := HeaderLoad(src);
      if ok {
        ok := HeaderSave(dst, header);
        TouchesIsLocal(old(files), files, Id(dst, HeaderFile, 0));
        StillHolds(old(files), files, dst, src, l);
      }
      if !ok {
        ctx := ctx[dst := ctx[dst].(ready := false)];
        return;
      }
      ghost var before := files;
      ok := CopyKeys(dst, src, KeysCount(header), l);
      TouchesChain(old(files), before, files, dst);
      StillHolds(before, files, dst, src, l);
      if ok {
        ok := CopyFooter(dst, src, l);
        TouchesChain(old(files), before, files, dst);
      }
      if !ok {
        ctx := ctx[dst := ctx[dst].(ready := false)];
        return;
      }
      ctx := ctx[dst := ctx[dst].(ready := true, keysAmount := ctx[src].keysAmount, keysCount := ctx[src].keysCount)];
    }

    /** The last step of the copy: with the footer in place the list is complete. */
    method CopyFooter(dst: nat, src: nat, ghost l: TrustList) returns (ok: bool)
      requires Shape() && dst < 3 && src < 3 && dst != src && Holds(files, src, l) && ctx[src].header == l.header
      requires StoredHeader(files, dst) == Some(l.header)
      requires forall i :: 0 <= i < |l.keys| ==> StoredKey(files, dst, i) == Some(l.keys[i])
      modifies this`files, this`faults
      ensures Shape() && faults >= old(faults)
      ensures forall since :: TouchesStorage(since, old(files), dst) ==> TouchesStorage(since, files, dst)
      ensures ok ==> Holds(files, dst, l)
      ensures !ok && faults == old(faults) && ctx[src].ready ==>
                |l.footer| > limit || ctx[dst].keysAmount != ctx[dst].keysCount
    {
      hide StoredKey, StoredHeader, TouchesStorage, Touches, Holds, FooterEnd, StoredFooter, K.Provisioned;
      HeldHeader(files, src, l);
      var footer;
      ok, footer := FooterLoad(src);
      if ok {
        ok := FooterSave(dst, footer);
        TouchesIsLocal(old(files), files, Id(dst, FooterFile, 0));
        forall since | TouchesStorage(since, old(files), dst)
          ensures TouchesStorage(since, files, dst)
        {
          TouchesChain(since, old(files), files, dst);
        }
        OtherThanFooter(old(files), files, dst);
        if ok {
          FooterMoved(old(files), src, files, dst, SignaturesCount(l.header), footer);
          HoldsFrom(files, dst, l);
        }
      }
    }

    // -------------------------------------------------------------- replacing a list

    /** vs_tl_apply_tmp_to. The outcome: nothing happened to t, or t is out of service, or t
        holds the valid list l that the temporary storage holds. */
    method Apply(t: nat) returns (ok: bool, tried: bool, ghost l: TrustList)
      requires Shape() && t < TMP
      modifies this`files, this`faults, this`ctx
      ensures Shape() && faults >= old(faults) && TouchesStorage(old(files), files, t)
      ensures forall s :: 0 <= s < TMP && s != t ==> ctx[s] == old(ctx)[s]
      ensures !tried ==> !ok && files == old(files) && ctx[t] == old(ctx)[t]
      ensures !tried && faults == old(faults) ==> forall l :: !Genuine(secModule, files, l)
      ensures tried ==> Genuine(secModule, old(files), l)
      ensures tried && !ok ==> !ctx[t].ready
      ensures tried && faults == old(faults) && Storable(l, limit) ==> ok
      ensures ok ==> tried && ctx[t].ready && ctx[t].header == l.header && Holds(files, t, l)
    {
      hide Holds, Valid, TouchesStorage, K.Provisioned, Storable;
      TouchesNone(files, t);
      ok, l := Verify(TMP);
      tried := ok;
      if !ok {
        return;
      }
      Invalidate(t);
      StillHolds(old(files), files, t, TMP, l);
      ghost var before := files;
      ok := Copy(t, TMP, l);
      TouchesChain(old(files), before, files, t);
    }

    /** vs_tl_update_info_server: reads the live header. */
    method UpdateInfo() returns (ok: bool, header: seq<Byte>)
      requires Live()
      modifies this`faults, this`ctx
      ensures Live() && faults >= old(faults) && ctx == old(ctx)
      ensures ok ==> ctx[DYNAMIC].ready && header == accepted.header && |header| == TL_HEADER_SIZE
      ensures !ok && faults == old(faults) ==> !ctx[DYNAMIC].ready
    {
      hide Holds, Valid, K.Provisioned, StoredHeader;
      ok, header := HeaderLoad(DYNAMIC);
      if ctx[DYNAMIC].ready {
        HeldHeader(files, DYNAMIC, accepted);
      }
    }

    /** After the live list was replaced: the backup, when it does not verify, is replaced too. */
    method Backup() returns (ok: bool)
      requires Live()
      modifies this`files, this`faults, this`ctx
      ensures Live() && faults >= old(faults) && TouchesStorage(old(files), files, STATIC)
      ensures ctx[DYNAMIC] == old(ctx)[DYNAMIC]
      ensures faults == old(faults) && Genuine(secModule, old(files), accepted) && Storable(accepted, limit) ==> ok
    {
      hide Holds, Valid, K.Provisioned, TouchesStorage, InService, Storable;
      TouchesNone(files, STATIC);
      ghost var l;
      ok, l := Verify(STATIC);
      if !ok {
        OnlyThis(files, TMP, accepted);
        var tried;
        ok, tried, l := Apply(STATIC);
        ServiceFrame(secModule, old(files), files, STATIC, ctx[DYNAMIC], accepted);
      }
    }

    /** The first steps for a footer: save it, and apply the upload to the live storage. */
    method ReplaceLive(data: seq<Byte>) returns (ok: bool, ghost e: Event)
      requires Live()
      modifies this
      ensures Live() && faults >= old(faults) && ok == e.Taken?
      ensures FooterStep(secModule, limit, data, old(Now()), Now(), e)
      ensures e.Taken? ==> accepted == e.list && ctx[DYNAMIC].ready && Genuine(secModule, files, e.list)
    {
      hide WithFooter, Holds, Valid, K.Provisioned, TouchesStorage, Touches, SameFiles, Storable;
      e := Kept;
      ok := FooterSave(TMP, data);
      TouchesIsLocal(old(files), files, Id(TMP, FooterFile, 0));
      ServiceFrame(secModule, old(files), files, TMP, ctx[DYNAMIC], accepted);
      if ok {
        var tried;
        ghost var l;
        ghost var before := files;
        assert before == WithFooter(old(files), data) by { UploadedFooter(old(files), data); }
        ok, tried, l := Apply(DYNAMIC);
        if tried {
          OnlyThis(before, TMP, l);
          e := if ok then Taken(l) else Lost(l);
        }
        if ok {
          accepted := l;
          StillHolds(before, files, DYNAMIC, TMP, l);
        }
      }
    }

    /** The footer of an upload: on successful verification the live list is replaced. */
    method SaveFooterPart(data: seq<Byte>) returns (ok: bool, ghost e: Event)
      requires Live()
      modifies this
      ensures Live() && faults >= old(faults)
      ensures FooterStep(secModule, limit, data, old(Now()), Now(), e)
      ensures ok ==> e.Taken?
      ensures faults == old(faults) && e.Taken? && Storable(e.list, limit) ==> ok
    {
      hide Genuine, K.Provisioned, TouchesStorage, SameFiles, Storable, FooterStep, InService;
      ok, e := ReplaceLive(data);
      ghost var b := Now();
      SameChain(files, files, files);
      if ok {
        ok := Backup();
        ServiceFrame(secModule, b.files, files, STATIC, ctx[DYNAMIC], accepted);
      }
      ghost var before := files;
      Invalidate(TMP);
      ServiceFrame(secModule, before, files, TMP, ctx[DYNAMIC], accepted);
      SameChain(b.files, before, files);
      FooterStepOn(secModule, limit, data, old(Now()), b, Now(), e);
      if ok {
        var header;
        ok, header := UpdateInfo();
        FooterStepOn(secModule, limit, data, old(Now()), b, Now(), e);
      }
    }

    /** vs_tl_save_part, on well-formed arguments. */
    method SavePart(element: Element, data: seq<Byte>) returns (ok: bool, ghost e: Event)
      requires Live() && (element.KeyFile? ==> |data| >= K.DATED_KEY_SIZE)
      modifies this
      ensures Live() && faults >= old(faults)
      ensures PartStep(secModule, limit, (element, data), old(Now()), Now(), e)
      ensures element.FooterFile? && ok ==> e.Taken?
      ensures element.FooterFile? && faults == old(faults) && e.Taken? && Storable(e.list, limit) ==> ok
      ensures element.HeaderFile? && ok ==> Startable(data, limit) && StoredHeader(files, TMP) == Some(data)
      ensures element.HeaderFile? && ok ==> ctx[TMP].keysCount == 0 && ctx[TMP].keysAmount == KeysCount(data)
      ensures element.HeaderFile? && !ok && faults == old(faults) ==> !Startable(data, limit)
      ensures element.KeyFile? ==> StoredHeader(files, TMP) == old(StoredHeader(files, TMP))
      ensures element.KeyFile? ==> forall j: nat :: j != old(ctx)[TMP].keysCount ==>
                StoredKey(files, TMP, j) == old(StoredKey(files, TMP, j))
      ensures element.KeyFile? && ok ==>
                && ctx[TMP].keysCount == old(ctx)[TMP].keysCount + 1 && ctx[TMP].keysAmount == old(ctx)[TMP].keysAmount
                && ctx[TMP].keysCount <= ctx[TMP].keysAmount && Savable(data, limit)
                && StoredKey(files, TMP, old(ctx)[TMP].keysCount) == LoadedKey(data)
      ensures element.KeyFile? && !ok && faults == old(faults) ==>
                !Savable(data, limit) || old(ctx)[TMP].keysCount >= old(ctx)[TMP].keysAmount
    {
      hide StoredKey, WithFooter, Holds, Valid, K.Provisioned, StoredHeader, TouchesStorage, Touches, SameFiles,
           InService, FooterStep, Savable, Storable, LoadedKey;
      e := Kept;
      ok := false;
      SameChain(files, files, files);
      match element {
        case HeaderFile =>
          if |data| == TL_HEADER_SIZE {
            ok := HeaderSave(TMP, data);
            TouchesIsLocal(old(files), files, Id(TMP, HeaderFile, 0));
            ServiceFrame(secModule, old(files), files, TMP, ctx[DYNAMIC], accepted);
          }
        case KeyFile =>
          ghost var index := ctx[TMP].keysCount;
          ok := KeySave(TMP, data);
          TouchesIsLocal(old(files), files, Id(TMP, KeyFile, index));
          OtherKeys(old(files), files, TMP, index);
          ServiceFrame(secModule, old(files), files, TMP, ctx[DYNAMIC], accepted);
        case FooterFile =>
          ok, e := SaveFooterPart(data);
      }
    }

    // -------------------------------------------------------------- initialisation

    constructor (secModule: K.SecModule, limit: nat, files: Files)
      requires K.Provisioned(secModule)
      ensures Shape() && this.secModule == secModule && this.limit == limit && this.files == files && faults == 0
      ensures forall t :: 0 <= t < 3 ==> ctx[t] == Context(false, 0, 0, Fill(0, TL_HEADER_SIZE))
    {
      this.secModule, this.limit, this.files, faults := secModule, limit, files, 0;
      var zero := Context(false, 0, 0, Fill(0, TL_HEADER_SIZE));
      ctx := [zero, zero, zero];
      accepted := TrustList([], [], []);
    }

    /** vs_tl_storage_init_internal: the live storage if it verifies, else the backup, copied. */
    method Init() returns (code: int)
      requires Shape()
      modifies this
      ensures Shape() && faults >= old(faults)
      ensures code == OK ==> Live() && ctx[DYNAMIC].ready
      ensures code == OK ==> Holds(old(files), DYNAMIC, accepted) || Holds(old(files), STATIC, accepted)
      ensures faults == old(faults) ==>
                forall l :: Holds(old(files), DYNAMIC, l) && Valid(secModule, l) ==>
                  code == OK && accepted == l && files == old(files)
      ensures faults == old(faults) && (forall l :: Holds(old(files), DYNAMIC, l) ==> !Valid(secModule, l)) ==>
                forall l :: Holds(old(files), STATIC, l) && Valid(secModule, l) && Storable(l, limit) ==>
                  code == OK && accepted == l
    {
      hide Holds, Valid, K.Provisioned, TouchesStorage, Storable;
      var ok;
      ghost var l;
      ok, l := Verify(DYNAMIC);
      if ok {
        OnlyThis(files, DYNAMIC, l);
        accepted := l;
        return OK;
      }
      ok, l := Verify(STATIC);
      if ok {
        OnlyThis(files, STATIC, l);
        ok := Copy(DYNAMIC, STATIC, l);
        if ok {
          OnlyThis(files, DYNAMIC, l);
          ok, l := Verify(DYNAMIC);
          accepted := l;
          return if ok then OK else ERR_VERIFY;
        }
        return ERR_FILE_WRITE;
      }
      return ERR_NOINIT;
    }

    // -------------------------------------------------------------- runs

    /** Any run of part uploads after a successful initialisation, with storage calls failing at any point. The
        states and events show, upload by upload, what became of the live list; TraceMeans says what follows. */
    method Run(parts: seq<(Element, seq<Byte>)>) returns (ghost states: seq<Snapshot>, ghost events: seq<Event>)
      requires Live() && forall i :: 0 <= i < |parts| && parts[i].0.KeyFile? ==> |parts[i].1| >= K.DATED_KEY_SIZE
      modifies this
      ensures Live() && Trace(secModule, limit, parts, states, events)
      ensures states[0] == old(Now()) && states[|parts|] == Now()
      ensures accepted == LastTaken(events, old(accepted))
      ensures ctx[DYNAMIC].ready == ReadyAfter(events, old(ctx)[DYNAMIC].ready)
      ensures (forall e <- events :: e == Kept) ==>
                ctx[DYNAMIC] == old(ctx)[DYNAMIC] && SameFiles(old(files), files, DYNAMIC)
      ensures faults == old(faults) ==> forall e <- events :: e.Lost? ==> !Storable(e.list, limit)
    {
      hide InService, K.Provisioned, PartStep, SameFiles, Storable, LastTaken, ReadyAfter;
      states, events := [Now()], [];
      var i := 0;
      while i < |parts|
        invariant 0 <= i <= |parts| && Live() && Trace(secModule, limit, parts[..i], states, events)
        invariant states[0] == old(Now()) && states[i] == Now()
      {
        var ok;
        ghost var e;
        ok, e := SavePart(parts[i].0, parts[i].1);
        assert parts[i] == (parts[i].0, parts[i].1);
        TraceMore(secModule, limit, parts[..i], states, events, parts[i], Now(), e);
        assert parts[..i] + [parts[i]] == parts[..i + 1];
        states, events := states + [Now()], events + [e];
        i := i + 1;
      }
      assert parts[..i] == parts;
      TraceMeans(secModule, limit, parts, states, events);
    }

    /** vs_cloud_is_new_tl_version_available, with the type of the live footer. */
    method IsNewVersion(tlType: Byte, version: Version) returns (ok: bool)
      requires Live()
      modifies this`faults, this`ctx
      ensures Live() && faults >= old(faults) && ctx == old(ctx)
      ensures ok ==> ctx[DYNAMIC].ready && Succeeds(tlType, version, accepted)
      ensures !ok && faults == old(faults) ==> !ctx[DYNAMIC].ready || !Succeeds(tlType, version, accepted)
    {
      hide StoredFooter, StoredHeader, Holds, Valid, K.Provisioned, TlVersion, Compare;
      var header, footer;
      ok, header := UpdateInfo();
      if !ok {
        return;
      }
      HeldHeader(files, DYNAMIC, accepted);
      ok, footer := FooterLoad(DYNAMIC);
      if !ok {
        return;
      }
      ok := tlType == footer[0] && Compare(version, TlVersion(header)) == OK;
    }

    // -------------------------------------------------------------- whole uploads

    /** Header and keys of an upload. */
    method SendKeys(header: seq<Byte>, keys: seq<seq<Byte>>) returns (ok: bool)
      requires Live() && forall k <- keys :: |k| >= K.DATED_KEY_SIZE
      modifies this
      ensures Live() && faults >= old(faults) && accepted == old(accepted)
      ensures ctx[DYNAMIC] == old(ctx)[DYNAMIC] && SameFiles(old(files), files, DYNAMIC)
      ensures ok ==> Startable(header, limit) && KeysSaved(files, ctx[TMP], header, keys)
      ensures ok ==> forall k <- keys :: Savable(k, limit)
      ensures && faults == old(faults) && Startable(header, limit) && |keys| <= KeysCount(header)
              && (forall k <- keys :: Savable(k, limit))
              ==> ok
    {
      hide InService, K.Provisioned, StoredHeader, StoredKey, SameFiles, Savable, LoadedKey;
      ghost var e;
      SameChain(files, files, files);
      ok, e := SavePart(HeaderFile, header);
      if !ok {
        return;
      }
      var i := 0;
      while i < |keys|
        invariant 0 <= i <= |keys| && Live() && faults >= old(faults) && accepted == old(accepted)
        invariant ctx[DYNAMIC] == old(ctx)[DYNAMIC] && SameFiles(old(files), files, DYNAMIC)
        invariant KeysSaved(files, ctx[TMP], header, keys[..i]) && forall k <- keys[..i] :: Savable(k, limit)
      {
        ghost var before := files;
        ok, e := SavePart(KeyFile, keys[i]);
        SameChain(old(files), before, files);
        if !ok {
          assert keys[i] in keys;
          return;
        }
        assert keys[..i + 1] == keys[..i] + [keys[i]];
        i := i + 1;
      }
      assert keys[..i] == keys;
      ok := true;
    }

    /** The last part of an upload: what is taken, if anything, is the list made up of the parts. */
    method SendFooter(header: seq<Byte>, keys: seq<seq<Byte>>, footer: seq<Byte>) returns (ok: bool, ghost e: Event)
      requires Live() && Startable(header, limit) && KeysSaved(files, ctx[TMP], header, keys)
      requires forall k <- keys :: Savable(k, limit)
      modifies this
      ensures Live() && faults >= old(faults) && (ok ==> e.Taken?)
      ensures EventMeans(secModule, old(Now()), Now(), e)
      ensures e != Kept ==> e.list.header == header
      ensures FooterFits(header, footer) && e != Kept ==> e.list == TrustList(header, keys, footer)
      ensures FooterFits(header, footer) && faults == old(faults) ==>
                (ok <==> Acceptable(secModule, limit, TrustList(header, keys, footer)))
    {
      hide InService, K.Provisioned, StoredHeader, StoredKey, SameFiles, Savable, WithFooter, Holds, Valid, FooterFits,
           KeysSaved;
      ghost var l := TrustList(header, keys, footer);
      ghost var before := files;
      ok, e := SavePart(FooterFile, footer);
      UploadHeader(before, old(ctx)[TMP], header, keys, footer);
      if FooterFits(header, footer) {
        UploadIs(before, old(ctx)[TMP], header, keys, footer, limit);
        assert Acceptable(secModule, limit, l) ==> Genuine(secModule, WithFooter(before, footer), l);
      }
    }

    /** An upload part by part, as the factory tool and the file update send it. */
    method Send(header: seq<Byte>, keys: seq<seq<Byte>>, footer: seq<Byte>) returns (ok: bool, ghost e: Event)
      requires Live() && forall k <- keys :: |k| >= K.DATED_KEY_SIZE
      modifies this
      ensures Live() && faults >= old(faults) && (ok ==> e.Taken?)
      ensures EventMeans(secModule, old(Now()), Now(), e)
      ensures |header| == TL_HEADER_SIZE && FooterFits(header, footer) && e != Kept ==>
                e.list == TrustList(header, keys, footer)
      ensures |header| == TL_HEADER_SIZE && FooterFits(header, footer) && faults == old(faults) ==>
                (ok <==> Acceptable(secModule, limit, TrustList(header, keys, footer)))
    {
      hide InService, K.Provisioned, SameFiles, KeysSaved, Valid, FooterFits;
      e := Kept;
      ok := SendKeys(header, keys);
      if !ok {
        return;
      }
      ghost var before := files;
      ok, e := SendFooter(header, keys, footer);
      SameChain(old(files), before, files);
    }

    /** One fetch of a list from the cloud, part by part: header, keys, and, if the version is
        newer than that of the live list, the footer. */
    method Fetch(header: seq<Byte>, keys: seq<seq<Byte>>, footer: seq<Byte>) returns (ok: bool, ghost e: Event)
      requires Live() && |header| == TL_HEADER_SIZE && footer != []
      requires forall k <- keys :: |k| >= K.DATED_KEY_SIZE
      modifies this
      ensures Live() && faults >= old(faults) && (ok ==> e.Taken?)
      ensures EventMeans(secModule, old(Now()), Now(), e)
      ensures e.Taken? ==> e.list.header == header && old(ctx)[DYNAMIC].ready
                           && Succeeds(footer[0], TlVersion(header), old(accepted))
      ensures FooterFits(header, footer) && e != Kept ==> e.list == TrustList(header, keys, footer)
      ensures FooterFits(header, footer) && faults == old(faults) ==>
                (ok <==> && Acceptable(secModule, limit, TrustList(header, keys, footer))
                         && (KeysCount(header) + 2) * MAX_PART_SIZE <= STORAGE_SIZE
                         && old(ctx)[DYNAMIC].ready && Succeeds(footer[0], TlVersion(header), old(accepted)))
    {
      hide InService, K.Provisioned, TlVersion, SameFiles, KeysSaved, Valid, FooterFits, Succeeds;
      e := Kept;
      SameChain(files, files, files);
      if TlSize(header) > STORAGE_SIZE || (KeysCount(header) + 2) * MAX_PART_SIZE > STORAGE_SIZE {
        return false, e;
      }
      ok := SendKeys(header, keys);
      if !ok {
        return;
      }
      ok := IsNewVersion(footer[0], TlVersion(header));
      if !ok {
        return;
      }
      ghost var before := files;
      ok, e := SendFooter(header, keys, footer);
      SameChain(old(files), before, files);
    }

    /** Over any run of fetches the version of the live list only grows: it is the same as at
        the start while nothing was accepted, and newer with every accepted list. */
    method Fetches(lists: seq<TrustList>) returns (ghost versions: seq<Version>)
      requires Live() && |accepted.header| == TL_HEADER_SIZE
      requires forall j :: 0 <= j < |lists| ==>
        && |lists[j].header| == TL_HEADER_SIZE && lists[j].footer != []
        && forall k <- lists[j].keys :: |k| >= K.DATED_KEY_SIZE
      modifies this
      ensures Live() && |accepted.header| == TL_HEADER_SIZE
      ensures |versions| > 0 && versions[0] == TlVersion(old(accepted).header)
      ensures versions[|versions| - 1] == TlVersion(accepted.header)
      ensures forall i, j :: 0 <= i < j < |versions| ==> Newer(versions[j], versions[i])
    {
      hide InService, K.Provisioned, TlVersion, Compare, Newer;
      versions := [TlVersion(accepted.header)];
      var i := 0;
      while i < |lists|
        invariant 0 <= i <= |lists| && Live() && |accepted.header| == TL_HEADER_SIZE
        invariant |versions| > 0 && versions[0] == TlVersion(old(accepted).header)
        invariant versions[|versions| - 1] == TlVersion(accepted.header)
        invariant forall i, j :: 0 <= i < j < |versions| ==> Newer(versions[j], versions[i])
      {
        var ok;
        ghost var e;
        ok, e := Fetch(lists[i].header, lists[i].keys, lists[i].footer);
        if e.Taken? {
          NewestGrows(versions, TlVersion(accepted.header));
          versions := versions + [TlVersion(accepted.header)];
        }
        i := i + 1;
      }
    }
  }

  /** What the temporary storage holds of an upload. */
  lemma UploadedParts(files: Files, c: Context, header: seq<Byte>, keys: seq<seq<Byte>>, footer: seq<Byte>)
    requires KeysSaved(files, c, header, keys)
    ensures var files' := WithFooter(files, footer);
            && StoredHeader(files', TMP) == Some(header) && |header| == TL_HEADER_SIZE
            && (forall j :: 0 <= j < |keys| ==> StoredKey(files', TMP, j) == LoadedKey(keys[j]))
            && (FooterFits(header, footer) ==>
                  StoredFooter(files', TMP, SignaturesCount(header))
                  == if |footer| <= MAX_PART_SIZE then Some(footer) else None)
  {
    var files' := WithFooter(files, footer);
    OtherThanFooter(files, files', TMP);
    var f := File(files', Id(TMP, FooterFile, 0));
    assert f == footer + f[|footer|..];
    hide StoredHeader, StoredKey, LoadedKey;
    if FooterFits(header, footer) {
      FooterReadsBack(footer, f[|footer|..], SignaturesCount(header), 1);
      hide FooterEnd;
      assert f[..|footer|] == footer;
    }
  }

  /** The header of whatever list is made up of an upload. */
  lemma UploadHeader(files: Files, c: Context, header: seq<Byte>, keys: seq<seq<Byte>>, footer: seq<Byte>)
    requires KeysSaved(files, c, header, keys)
    ensures forall l :: Holds(WithFooter(files, footer), TMP, l) ==> l.header == header
  {
    UploadedParts(files, c, header, keys, footer);
    hide StoredHeader, StoredKey, StoredFooter, WithFooter;
  }

  /** The list made up of uploaded parts: if all keys are there, the temporary storage holds it, and no other,
      exactly if it fits the device. */
  lemma UploadIs(files: Files, c: Context, header: seq<Byte>, keys: seq<seq<Byte>>, footer: seq<Byte>, limit: nat)
    requires Startable(header, limit) && FooterFits(header, footer) && KeysSaved(files, c, header, keys)
    requires forall k <- keys :: Savable(k, limit)
    ensures var l := TrustList(header, keys, footer);
            && (Storable(l, limit) ==> c.keysAmount == c.keysCount && |footer| <= limit)
            && (c.keysAmount == c.keysCount ==>
                  (forall l' :: Holds(WithFooter(files, footer), TMP, l') ==> l' == l)
                  && (|footer| <= limit ==> (Holds(WithFooter(files, footer), TMP, l) <==> Storable(l, limit))))
  {
    UploadedParts(files, c, header, keys, footer);
    var files', l := WithFooter(files, footer), TrustList(header, keys, footer);
    hide StoredHeader, StoredKey, StoredFooter, WithFooter, Savable, FooterFits;
    if c.keysAmount == c.keysCount {
      forall l' | Holds(files', TMP, l')
        ensures l' == l && forall k <- keys :: |k| <= MAX_PART_SIZE
      {
        forall j | 0 <= j < |keys|
          ensures l'.keys[j] == keys[j] && |keys[j]| <= MAX_PART_SIZE
        {
          assert StoredKey(files', TMP, j) == Some(l'.keys[j]);
        }
      }
      if Storable(l, limit) {
        forall j | 0 <= j < |keys|
          ensures StoredKey(files', TMP, j) == Some(keys[j])
        {
          assert keys[j] in keys;
        }
      }
    }
  }

  /** A version newer than the last of a growing series is newer than all of it. */
  lemma NewestGrows(vs: seq<Version>, v: Version)
    requires |vs| > 0 && Newer(v, vs[|vs| - 1])
    requires forall i, j :: 0 <= i < j < |vs| ==> Newer(vs[j], vs[i])
    ensures forall i :: 0 <= i < |vs| ==> Newer(v, vs[i])
  {
    forall i | 0 <= i < |vs|
      ensures Newer(v, vs[i])
    {
      CompareIsStrictOrder(v, vs[|vs| - 1], vs[i]);
    }
  }

  /** Without a header of acceptable size there is no valid list. */
  lemma HeaderRefused(m: K.SecModule, files: Files, t: nat)
    requires K.Provisioned(m)
    ensures StoredHeader(files, t) == None || TlSize(StoredHeader(files, t).value) > STORAGE_SIZE ==>
      forall l :: Holds(files, t, l) ==> !Valid(m, l)
  {
    hide StoredKey, StoredHeader, StoredFooter, K.Provisioned, K.Accepts, Sha256.Hash;
  }

  /** With a part missing there is no list. */
  lemma PartMissing(files: Files, t: nat, header: seq<Byte>)
    requires StoredHeader(files, t) == Some(header)
    ensures (exists i :: 0 <= i < KeysCount(header) && StoredKey(files, t, i) == None) ==>
            forall l :: !Holds(files, t, l)
    ensures StoredFooter(files, t, SignaturesCount(header)) == None ==> forall l :: !Holds(files, t, l)
  {
    hide StoredKey, StoredHeader, StoredFooter;
  }

  lemma UploadedFooter(files: Files, data: seq<Byte>)
    ensures WithFooter(files, data) == Saved(files, Id(TMP, FooterFile, 0), data)
  {
  }

  lemma HeaderThere(files: Files, t: nat)
    ensures StoredHeader(files, t).Some? ==> Id(t, HeaderFile, 0) in files
  {
  }

  lemma HeldHeader(files: Files, t: nat, l: TrustList)
    requires Holds(files, t, l)
    ensures StoredHeader(files, t) == Some(l.header) && |l.header| == TL_HEADER_SIZE && |l.keys| == KeysCount(l.header)
    ensures StoredFooter(files, t, SignaturesCount(l.header)) == Some(l.footer)
  {
    hide StoredKey, StoredFooter;
  }

  lemma HoldsFrom(files: Files, t: nat, l: TrustList)
    requires StoredHeader(files, t) == Some(l.header) && |l.keys| == KeysCount(l.header)
    requires forall i :: 0 <= i < |l.keys| ==> StoredKey(files, t, i) == Some(l.keys[i])
    requires StoredFooter(files, t, SignaturesCount(l.header)) == Some(l.footer)
    ensures Holds(files, t, l)
  {
    hide StoredKey, StoredFooter, StoredHeader;
  }

  lemma OtherThanFooter(files: Files, files': Files, t: nat)
    requires Touches(files, files', Id(t, FooterFile, 0))
    ensures StoredHeader(files', t) == StoredHeader(files, t)
    ensures forall j: nat :: StoredKey(files', t, j) == StoredKey(files, t, j)
  {
  }

  /** A footer that was read from one storage and written at the start of the footer file of
      another is the footer of the other. */
  lemma FooterMoved(files: Files, src: nat, files': Files, dst: nat, count: nat, footer: seq<Byte>)
    requires StoredFooter(files, src, count) == Some(footer)
    requires var g := File(files', Id(dst, FooterFile, 0));
             |g| >= |footer| && g[..|footer|] == footer
    ensures StoredFooter(files', dst, count) == Some(footer)
  {
    var f, g := File(files, Id(src, FooterFile, 0)), File(files', Id(dst, FooterFile, 0));
    var n := FooterEnd(f, count, 1).value;
    FooterPart(f, count, 1);
    assert g == footer + g[|footer|..];
    FooterReadsBack(footer, g[|footer|..], count, 1);
    hide FooterEnd;
  }

  lemma HeldKey(files: Files, t: nat, l: TrustList, i: nat)
    requires Holds(files, t, l) && i < |l.keys|
    ensures StoredKey(files, t, i) == Some(l.keys[i])
  {
    hide StoredKey, StoredHeader, StoredFooter;
  }

  /** What happens in one storage leaves the list in another alone. */
  lemma StillHolds(files: Files, files': Files, touched: nat, t: nat, l: TrustList)
    requires TouchesStorage(files, files', touched) && t != touched
    ensures Holds(files, t, l) <==> Holds(files', t, l)
  {
    hide Holds;
    assert SameFiles(files, files', t) && SameFiles(files', files, t);
    if Holds(files, t, l) {
      HoldsFrame(files, files', t, l);
    }
    if Holds(files', t, l) {
      HoldsFrame(files', files, t, l);
    }
  }

  lemma StoredKeySize(files: Files, t: nat, i: nat)
    ensures var k := StoredKey(files, t, i);
            k.Some? ==> K.DATED_KEY_SIZE < |k.value| <= MAX_PART_SIZE < Sha256.TWO32
  {
  }

  /** A storage that holds l and nothing else to choose from. */
  lemma OnlyThis(files: Files, t: nat, l: TrustList)
    ensures Holds(files, t, l) ==> forall l' :: Holds(files, t, l') ==> l' == l
  {
    if Holds(files, t, l) {
      forall l' | Holds(files, t, l')
        ensures l' == l
      {
        HoldsOne(files, t, l', l);
      }
    }
  }

  /** Writing one key file leaves header and other keys alone. */
  lemma OtherKeys(files: Files, files': Files, t: nat, i: nat)
    requires Touches(files, files', Id(t, KeyFile, i))
    ensures StoredHeader(files', t) == StoredHeader(files, t)
    ensures forall j: nat :: j != i ==> StoredKey(files', t, j) == StoredKey(files, t, j)
  {
  }
}
