/** Which signer keys a device trusts: the search and verification of provisioned keys in
    modules/provision/src/provision.c, and the signature loop that trust lists and firmware share. */
module KeyChain {
  import opened Bytes
  import opened Firmware

  const OK := 0
  const ERR_INCORRECT_ARGUMENT := -3
  const ERR_INCORRECT_PARAMETER := -4
  const ERR_NOT_FOUND := -9
  const ERR_CRYPTO := -32
  const ERR_SLOT := -33

  const RECOVERY := 0
  const AUTH := 1
  const TRUSTLIST := 2
  const FIRMWARE := 3
  const UNSUPPORTED := 10
  const SHA256 := 0

  const KEYS_QTY := 2
  const DATED_KEY_SIZE := 12

  datatype Option<T> = None | Some(value: T)

  /** The security module: provisioned records by key type and index, the hash of a record (None for an
      unsupported type), and verification of a signature under (curve, key, hash type, hash, signature). */
  datatype SecModule = SecModule(
    slot: (int, nat) -> Option<seq<Byte>>,
    hash: (Byte, seq<Byte>) -> Option<seq<Byte>>,
    ecdsa: (Byte, seq<Byte>, Byte, seq<Byte>, seq<Byte>) -> bool)

  // ---------------------------------------------------------------- provisioned records

  function KeyType(k: seq<Byte>): Byte requires |k| >= DATED_KEY_SIZE { k[8] }
  function EcType(k: seq<Byte>): Byte requires |k| >= DATED_KEY_SIZE { k[9] }

  /** Size of the metadata, from network byte order. */
  function MetaSize(k: seq<Byte>): nat requires |k| >= DATED_KEY_SIZE { FromBE(k[10..12]) }

  /** A complete record: header, no metadata, and the whole key. */
  predicate Complete(k: seq<Byte>) {
    && |k| >= DATED_KEY_SIZE && k[10] == 0 && k[11] == 0
    && (PubkeyLen(EcType(k)) > 0 ==> |k| >= DATED_KEY_SIZE + PubkeyLen(EcType(k)))
  }

  /** The slots hold complete records of the type they are for. */
  ghost predicate Provisioned(m: SecModule) {
    forall t, i :: m.slot(t, i).Some? ==> Complete(m.slot(t, i).value)
  }

  /** The key of a complete record. */
  function RawKey(k: seq<Byte>): seq<Byte>
    requires Complete(k) && PubkeyLen(EcType(k)) > 0
  {
    k[DATED_KEY_SIZE..DATED_KEY_SIZE + PubkeyLen(EcType(k))]
  }

  predicate Holds(k: seq<Byte>, t: int, ec: Byte, key: seq<Byte>) {
    Complete(k) && PubkeyLen(EcType(k)) > 0 && KeyType(k) == t && EcType(k) == ec && RawKey(k) == key
  }

  // ---------------------------------------------------------------- signed records

  /** vs_sign_t with its signature and key. */
  datatype Entry = Entry(signer: Byte, ec: Byte, hashType: Byte, sign: seq<Byte>, key: seq<Byte>)

  /** The signature that starts at pos, when its curve is supported and it lies inside. */
  function EntryAt(b: seq<Byte>, pos: nat): (e: Option<Entry>)
    ensures e.Some? ==> EntryEnd(b, pos) <= |b|
  {
    if pos + 3 > |b| then None
    else
      var signLen, keyLen := SignatureLen(b[pos + 1]), PubkeyLen(b[pos + 1]);
      if signLen <= 0 || keyLen <= 0 || pos + 3 + signLen + keyLen > |b| then None
      else Some(Entry(b[pos], b[pos + 1], b[pos + 2], b[pos + 3..pos + 3 + signLen],
                      b[pos + 3 + signLen..pos + 3 + signLen + keyLen]))
  }

  function EntryEnd(b: seq<Byte>, pos: nat): nat {
    if pos + 3 > |b| || SignatureLen(b[pos + 1]) <= 0 || PubkeyLen(b[pos + 1]) <= 0 then pos
    else pos + 3 + SignatureLen(b[pos + 1]) + PubkeyLen(b[pos + 1])
  }

  // ---------------------------------------------------------------- search and verify

  /** vs_provision_search_hl_pubkey from slot i on. */
  function Search(m: SecModule, t: int, ec: Byte, key: seq<Byte>, i: nat): (code: int)
    requires Provisioned(m)
    decreases if t == RECOVERY then 1 else 3, KEYS_QTY - i
  {
    if i >= KEYS_QTY then ERR_NOT_FOUND
    else if !(RECOVERY <= t <= FIRMWARE) then ERR_INCORRECT_ARGUMENT
    else
      match m.slot(t, i)
      case None => ERR_SLOT
      case Some(k) =>
        if PubkeyLen(EcType(k)) < 0 then ERR_INCORRECT_PARAMETER
        else if Holds(k, t, ec, key) then VerifyKey(m, k)
        else Search(m, t, ec, key, i + 1)
  }

  /** vs_provision_verify_hl_key. The first size check answers with a boolean, whose value for
      "too small" is that of success. */
  function VerifyKey(m: SecModule, k: seq<Byte>): (code: int)
    requires Provisioned(m)
    decreases if |k| > DATED_KEY_SIZE && KeyType(k) != RECOVERY then 2 else 0, 0
  {
    if |k| <= DATED_KEY_SIZE then OK
    else if KeyType(k) == RECOVERY then OK
    else if PubkeyLen(EcType(k)) <= 0 then ERR_CRYPTO
    else
      var signed := DATED_KEY_SIZE + PubkeyLen(EcType(k)) + MetaSize(k);
      if |k| <= signed + 3 || k[signed] != RECOVERY then ERR_CRYPTO
      else
        match EntryAt(k, signed)
        case None => ERR_CRYPTO
        case Some(e) =>
          if |k| != EntryEnd(k, signed) then ERR_CRYPTO
          else
            match m.hash(e.hashType, k[..signed])
            case None => ERR_CRYPTO
            case Some(h) =>
              var found := Search(m, RECOVERY, e.ec, e.key, 0);
              if found != OK then found
              else if m.ecdsa(e.ec, e.key, e.hashType, h, e.sign) then OK else ERR_CRYPTO
  }

  // ---------------------------------------------------------------- what a verdict means

  /** A recovery slot holds the key. */
  ghost predicate RecoveryKey(m: SecModule, ec: Byte, key: seq<Byte>) {
    exists i :: 0 <= i < KEYS_QTY && m.slot(RECOVERY, i).Some? && Holds(m.slot(RECOVERY, i).value, RECOVERY, ec, key)
  }

  /** The record carries a signature over itself by a key that a recovery slot holds. */
  ghost predicate VouchedFor(m: SecModule, k: seq<Byte>) {
    && |k| >= DATED_KEY_SIZE && PubkeyLen(EcType(k)) > 0
    && var signed := DATED_KEY_SIZE + PubkeyLen(EcType(k)) + MetaSize(k);
       && EntryAt(k, signed).Some? && |k| == EntryEnd(k, signed)
       && var e := EntryAt(k, signed).value;
          && e.signer == RECOVERY && RecoveryKey(m, e.ec, e.key)
          && m.hash(e.hashType, k[..signed]).Some?
          && m.ecdsa(e.ec, e.key, e.hashType, m.hash(e.hashType, k[..signed]).value, e.sign)
  }

  /** The first slot of the type that holds the key. */
  ghost function FirstHolder(m: SecModule, t: int, ec: Byte, key: seq<Byte>, i: nat): (j: nat)
    ensures j < KEYS_QTY ==> i <= j && m.slot(t, j).Some? && Holds(m.slot(t, j).value, t, ec, key)
    decreases KEYS_QTY - i
  {
    if i >= KEYS_QTY then KEYS_QTY
    else if m.slot(t, i).Some? && Holds(m.slot(t, i).value, t, ec, key) then i
    else FirstHolder(m, t, ec, key, i + 1)
  }

  /** Some slot of the type holds the key; unless it is a recovery key, the first such record
      is vouched for by one. */
  ghost predicate Trusted(m: SecModule, t: int, ec: Byte, key: seq<Byte>) {
    && RECOVERY <= t <= FIRMWARE
    && var j := FirstHolder(m, t, ec, key, 0);
       j < KEYS_QTY && (t == RECOVERY || VouchedFor(m, m.slot(t, j).value))
  }

  /** All slots can be read and hold keys of supported curves. */
  ghost predicate Readable(m: SecModule) {
    forall t, i :: RECOVERY <= t <= FIRMWARE && 0 <= i < KEYS_QTY ==>
      m.slot(t, i).Some? && Complete(m.slot(t, i).value) && PubkeyLen(EcType(m.slot(t, i).value)) > 0
  }

  /** The search from slot i on finds the first holder and asks for its verification. */
  lemma {:induction false} SearchFirst(m: SecModule, t: int, ec: Byte, key: seq<Byte>, i: nat)
    requires Provisioned(m) && i <= KEYS_QTY
    ensures var j := FirstHolder(m, t, ec, key, i);
            && (Search(m, t, ec, key, i) == OK ==>
                  RECOVERY <= t <= FIRMWARE && j < KEYS_QTY && VerifyKey(m, m.slot(t, j).value) == OK)
            && (Readable(m) && RECOVERY <= t <= FIRMWARE && j < KEYS_QTY ==>
                  Search(m, t, ec, key, i) == VerifyKey(m, m.slot(t, j).value))
    decreases KEYS_QTY - i
  {
    hide VerifyKey, Holds;
    if i < KEYS_QTY && RECOVERY <= t <= FIRMWARE && m.slot(t, i).Some? {
      SearchFirst(m, t, ec, key, i + 1);
      NotHeld(m.slot(t, i).value, t, ec, key);
    }
  }

  lemma NotHeld(k: seq<Byte>, t: int, ec: Byte, key: seq<Byte>)
    ensures Holds(k, t, ec, key) ==> Complete(k) && PubkeyLen(EcType(k)) > 0 && KeyType(k) == t && |k| > DATED_KEY_SIZE
  {
  }

  /** Recovery keys vouch for themselves. */
  lemma RecoverySearch(m: SecModule, ec: Byte, key: seq<Byte>)
    requires Provisioned(m)
    ensures Search(m, RECOVERY, ec, key, 0) == OK ==> RecoveryKey(m, ec, key)
    ensures Readable(m) && RecoveryKey(m, ec, key) ==> Search(m, RECOVERY, ec, key, 0) == OK
  {
    SearchFirst(m, RECOVERY, ec, key, 0);
    RecoveryHolder(m, ec, key);
    var j := FirstHolder(m, RECOVERY, ec, key, 0);
    if j < KEYS_QTY {
      NotHeld(m.slot(RECOVERY, j).value, RECOVERY, ec, key);
    }
    hide Search, FirstHolder, Holds, RecoveryKey, Readable;
  }

  lemma RecoveryHolder(m: SecModule, ec: Byte, key: seq<Byte>)
    ensures RecoveryKey(m, ec, key) <==> FirstHolder(m, RECOVERY, ec, key, 0) < KEYS_QTY
  {
    hide Holds;
    assert FirstHolder(m, RECOVERY, ec, key, 1) == 1 || FirstHolder(m, RECOVERY, ec, key, 1) == KEYS_QTY;
  }

  /** A record that calls itself a recovery key, or is too short to hold a key, is accepted as it is. */
  predicate Unchecked(k: seq<Byte>) {
    |k| <= 12 || k[8] == 0
  }

  /** What the verification of a record answers: it accepts only records that are not checked or that a recovery
      key vouches for, and, when all slots can be read, exactly those. */
  lemma VerifyMeans(m: SecModule, k: seq<Byte>)
    requires Provisioned(m)
    ensures VerifyKey(m, k) == OK ==> Unchecked(k) || VouchedFor(m, k)
    ensures Readable(m) ==> (VerifyKey(m, k) == OK <==> Unchecked(k) || VouchedFor(m, k))
  {
    if !Unchecked(k) {
      RecordMeans(m, k);
    }
    hide VouchedFor, Readable, Search;
  }

  /** For example: an empty record, and 13 bytes that call themselves a recovery key, are accepted by every device,
      though nothing vouches for them. */
  lemma UncheckedExamples(m: SecModule)
    requires Provisioned(m)
    ensures VerifyKey(m, []) == OK && !VouchedFor(m, [])
    ensures VerifyKey(m, Fill(0, 13)) == OK && !VouchedFor(m, Fill(0, 13))
  {
    hide RecoveryKey, Search;
  }

  /** A record that is not a recovery key verifies when a recovery key vouches for it; and, when
      all slots can be read, only an unvouched record is refused. */
  lemma RecordMeans(m: SecModule, k: seq<Byte>)
    requires Provisioned(m) && |k| > DATED_KEY_SIZE && KeyType(k) != RECOVERY
    ensures VerifyKey(m, k) == OK ==> VouchedFor(m, k)
    ensures Readable(m) && VouchedFor(m, k) ==> VerifyKey(m, k) == OK
  {
    var signed := DATED_KEY_SIZE + PubkeyLen(EcType(k)) + MetaSize(k);
    if PubkeyLen(EcType(k)) > 0 && EntryAt(k, signed).Some? {
      var e := EntryAt(k, signed).value;
      RecoverySearch(m, e.ec, e.key);
    }
    hide Search, RecoveryKey, Readable;
  }

  /** What the search answers: it accepts only trusted keys, and, when all slots can be read,
      every trusted key. */
  lemma SearchMeans(m: SecModule, t: int, ec: Byte, key: seq<Byte>)
    requires Provisioned(m)
    ensures Search(m, t, ec, key, 0) == OK ==> Trusted(m, t, ec, key)
    ensures Readable(m) && Trusted(m, t, ec, key) ==> Search(m, t, ec, key, 0) == OK
  {
    SearchFirst(m, t, ec, key, 0);
    var j := FirstHolder(m, t, ec, key, 0);
    if RECOVERY <= t <= FIRMWARE && j < KEYS_QTY {
      var k := m.slot(t, j).value;
      NotHeld(k, t, ec, key);
      if t != RECOVERY {
        RecordMeans(m, k);
      }
    }
    hide Search, FirstHolder, Holds, VouchedFor, Readable;
  }

  // ---------------------------------------------------------------- search and verify as programs

  method SearchHlPubkey(m: SecModule, t: int, ec: Byte, key: seq<Byte>) returns (code: int)
    requires Provisioned(m)
    ensures code == Search(m, t, ec, key, 0)
    decreases if t == RECOVERY then 1 else 3
  {
    var i := 0;
    while i < KEYS_QTY
      invariant 0 <= i <= KEYS_QTY && Search(m, t, ec, key, i) == Search(m, t, ec, key, 0)
    {
      if !(RECOVERY <= t <= FIRMWARE) {
        return ERR_INCORRECT_ARGUMENT;
      }
      var loaded := m.slot(t, i);
      if loaded.None? {
        return ERR_SLOT;
      }
      var k := loaded.value;
      var size := PubkeyLen(EcType(k));
      if size < 0 {
        return ERR_INCORRECT_PARAMETER;
      }
      if KeyType(k) == t && EcType(k) == ec && size == |key| && key == k[DATED_KEY_SIZE..DATED_KEY_SIZE + size] {
        code := VerifyHlKey(m, k);
        return;
      }
      i := i + 1;
    }
    return ERR_NOT_FOUND;
  }

  method VerifyHlKey(m: SecModule, k: seq<Byte>) returns (code: int)
    requires Provisioned(m)
    ensures code == VerifyKey(m, k)
    decreases if |k| > DATED_KEY_SIZE && KeyType(k) != RECOVERY then 2 else 0
  {
    hide Search;
    if |k| <= DATED_KEY_SIZE {
      return OK;
    }
    if KeyType(k) == RECOVERY {
      return OK;
    }
    var keyLen := PubkeyLen(EcType(k));
    if keyLen <= 0 {
      return ERR_CRYPTO;
    }
    var signed := DATED_KEY_SIZE + keyLen + MetaSize(k);
    if |k| <= signed + 3 || k[signed] != RECOVERY {
      return ERR_CRYPTO;
    }
    var signLen := SignatureLen(k[signed + 1]);
    keyLen := PubkeyLen(k[signed + 1]);
    if signLen <= 0 || keyLen <= 0 || |k| != signed + 3 + signLen + keyLen {
      return ERR_CRYPTO;
    }
    var h := m.hash(k[signed + 2], k[..signed]);
    if h.None? {
      return ERR_CRYPTO;
    }
    var sign, pubkey := k[signed + 3..signed + 3 + signLen], k[signed + 3 + signLen..signed + 3 + signLen + keyLen];
    code := SearchHlPubkey(m, RECOVERY, k[signed + 1], pubkey);
    if code != OK {
      return;
    }
    return if m.ecdsa(k[signed + 1], pubkey, k[signed + 2], h.value, sign) then OK else ERR_CRYPTO;
  }

  // ---------------------------------------------------------------- the signature loop

  /** One signature in the loop: SHA-256, a key that is found, and, for the signer types that
      count, a signature that holds. */
  predicate Passes(m: SecModule, rules: seq<int>, hash: seq<Byte>, e: Entry)
    requires Provisioned(m)
  {
    && e.hashType == SHA256 && Search(m, e.signer, e.ec, e.key, 0) == OK
    && (e.signer as int in rules ==> m.ecdsa(e.ec, e.key, e.hashType, hash, e.sign))
  }

  /** The loop over count signatures from pos on: how many of them were of the listed types. */
  function Check(m: SecModule, rules: seq<int>, hash: seq<Byte>, b: seq<Byte>, count: nat, pos: nat): (n: Option<nat>)
    requires Provisioned(m)
    decreases count
  {
    if count == 0 then Some(0)
    else
      match EntryAt(b, pos)
      case None => None
      case Some(e) =>
        if !Passes(m, rules, hash, e) then None
        else
          match Check(m, rules, hash, b, count - 1, EntryEnd(b, pos))
          case None => None
          case Some(n) => Some(n + if e.signer as int in rules then 1 else 0)
  }

  /** The signatures that lie from pos on. */
  function Entries(b: seq<Byte>, count: nat, pos: nat): (es: Option<seq<Entry>>)
    ensures es.Some? ==> |es.value| == count
    decreases count
  {
    if count == 0 then Some([])
    else
      match EntryAt(b, pos)
      case None => None
      case Some(e) =>
        match Entries(b, count - 1, EntryEnd(b, pos))
        case None => None
        case Some(es) => Some([e] + es)
  }

  /** How many signatures are of the listed types. */
  function Listed(rules: seq<int>, es: seq<Entry>): nat {
    if es == [] then 0 else (if es[0].signer as int in rules then 1 else 0) + Listed(rules, es[1..])
  }

  predicate AllPass(m: SecModule, rules: seq<int>, hash: seq<Byte>, es: seq<Entry>)
    requires Provisioned(m)
  {
    forall i :: 0 <= i < |es| ==> Passes(m, rules, hash, es[i])
  }

  lemma OneMore(m: SecModule, rules: seq<int>, hash: seq<Byte>, e: Entry, rest: seq<Entry>)
    requires Provisioned(m)
    ensures AllPass(m, rules, hash, [e] + rest) <==> Passes(m, rules, hash, e) && AllPass(m, rules, hash, rest)
    ensures Listed(rules, [e] + rest) == Listed(rules, rest) + if e.signer as int in rules then 1 else 0
  {
    hide Passes, Provisioned;
    var es := [e] + rest;
    assert es[0] == e && es[1..] == rest;
    assert forall i :: 0 <= i < |rest| ==> es[i + 1] == rest[i];
  }

  /** The loop succeeds exactly when all signatures parse and pass, and counts the listed ones. */
  lemma {:induction false} CheckIsAll(m: SecModule, rules: seq<int>, hash: seq<Byte>, b: seq<Byte>, count: nat,
        pos: nat)
    requires Provisioned(m)
    ensures var es := Entries(b, count, pos);
            Check(m, rules, hash, b, count, pos)
            == if es.Some? && AllPass(m, rules, hash, es.value) then Some(Listed(rules, es.value)) else None
    decreases count
  {
    hide Passes, AllPass, Listed, EntryAt, EntryEnd, Provisioned;
    if count == 0 {
      NonePass(m, rules, hash);
    } else if EntryAt(b, pos).Some? {
      CheckIsAll(m, rules, hash, b, count - 1, EntryEnd(b, pos));
      var rest := Entries(b, count - 1, EntryEnd(b, pos));
      if rest.Some? {
        OneMore(m, rules, hash, EntryAt(b, pos).value, rest.value);
      }
    }
  }

  lemma NonePass(m: SecModule, rules: seq<int>, hash: seq<Byte>)
    requires Provisioned(m)
    ensures AllPass(m, rules, hash, []) && Listed(rules, []) == 0
  {
  }

  /** Among the entries there are two of listed types, at different places. */
  lemma {:induction false} TwoListed(rules: seq<int>, es: seq<Entry>)
    ensures Listed(rules, es) >= 1 ==> exists i :: 0 <= i < |es| && es[i].signer as int in rules
    ensures Listed(rules, es) >= 2 ==>
      exists i, j :: 0 <= i < j < |es| && es[i].signer as int in rules && es[j].signer as int in rules
  {
    if es != [] {
      TwoListed(rules, es[1..]);
      if Listed(rules, es) >= 2 {
        if es[0].signer as int in rules {
          var j :| 0 <= j < |es[1..]| && es[1..][j].signer as int in rules;
          assert es[j + 1] == es[1..][j];
        } else {
          var i, j :| 0 <= i < j < |es[1..]| && es[1..][i].signer as int in rules && es[1..][j].signer as int in rules;
          assert es[i + 1] == es[1..][i] && es[j + 1] == es[1..][j];
        }
      } else if Listed(rules, es) == 1 && es[0].signer as int !in rules {
        var j :| 0 <= j < |es[1..]| && es[1..][j].signer as int in rules;
        assert es[j + 1] == es[1..][j];
      }
    }
  }

  const SIGNATURES_QTY := 2

  /** The whole verdict: enough signatures, all of which pass, enough of them of listed types. */
  predicate Accepts(m: SecModule, rules: seq<int>, hash: seq<Byte>, b: seq<Byte>, count: nat, pos: nat)
    requires Provisioned(m)
  {
    count >= SIGNATURES_QTY
    && var n := Check(m, rules, hash, b, count, pos);
       n.Some? && n.value >= SIGNATURES_QTY
  }

  /** Every signature is with SHA-256 and by a trusted key; those of the signer types a and b hold over the hash,
      and there are two of these at different places. */
  ghost predicate WellSigned(m: SecModule, a: int, b: int, hash: seq<Byte>, es: seq<Entry>) {
    && (forall i :: 0 <= i < |es| ==>
          && es[i].hashType == 0 && Trusted(m, es[i].signer, es[i].ec, es[i].key)
          && (es[i].signer as int == a || es[i].signer as int == b ==>
                m.ecdsa(es[i].ec, es[i].key, 0, hash, es[i].sign)))
    && exists i, j :: 0 <= i < j < |es| && (es[i].signer as int == a || es[i].signer as int == b)
                      && (es[j].signer as int == a || es[j].signer as int == b)
  }

  /** What the verdict means: it accepts only well-signed data, and, when all slots can be read, all of it. */
  lemma AcceptsMeans(m: SecModule, a: int, b: int, hash: seq<Byte>, data: seq<Byte>, count: nat, pos: nat)
    requires Provisioned(m)
    ensures var es := Entries(data, count, pos);
            && (Accepts(m, [a, b], hash, data, count, pos) ==> es.Some? && WellSigned(m, a, b, hash, es.value))
            && (Readable(m) && es.Some? && WellSigned(m, a, b, hash, es.value) ==>
                  Accepts(m, [a, b], hash, data, count, pos))
  {
    hide Search, Check, EntryAt, EntryEnd, Listed, Entries, WellSigned, Passes, AllPass, Readable;
    CheckIsAll(m, [a, b], hash, data, count, pos);
    var es := Entries(data, count, pos);
    if es.Some? {
      TwoListed([a, b], es.value);
      ManyListed([a, b], es.value);
      PassesMeans(m, a, b, hash, es.value);
    }
  }

  /** Two entries of listed types are counted as such. */
  lemma {:induction false} ManyListed(rules: seq<int>, es: seq<Entry>)
    ensures (exists i :: 0 <= i < |es| && es[i].signer as int in rules) ==> Listed(rules, es) >= 1
    ensures (exists i, j :: 0 <= i < j < |es| && es[i].signer as int in rules && es[j].signer as int in rules) ==>
            Listed(rules, es) >= 2
  {
    if es != [] {
      ManyListed(rules, es[1..]);
      forall i | 0 < i < |es| && es[i].signer as int in rules
        ensures exists k :: 0 <= k < |es[1..]| && es[1..][k].signer as int in rules
      {
        assert es[1..][i - 1] == es[i];
      }
      forall i, j | 0 < i < j < |es| && es[i].signer as int in rules && es[j].signer as int in rules
        ensures exists k, l :: 0 <= k < l < |es[1..]| && es[1..][k].signer as int in rules
                               && es[1..][l].signer as int in rules
      {
        assert es[1..][i - 1] == es[i] && es[1..][j - 1] == es[j];
      }
    }
  }

  lemma PassesMeans(m: SecModule, a: int, b: int, hash: seq<Byte>, es: seq<Entry>)
    requires Provisioned(m)
    ensures var two := exists i, j :: 0 <= i < j < |es| && es[i].signer as int in [a, b]
                                      && es[j].signer as int in [a, b];
            && (AllPass(m, [a, b], hash, es) && two ==> WellSigned(m, a, b, hash, es))
            && (WellSigned(m, a, b, hash, es) ==> two && (Readable(m) ==> AllPass(m, [a, b], hash, es)))
  {
    hide Search, Trusted, Readable, Provisioned;
    forall i | 0 <= i < |es|
      ensures Search(m, es[i].signer, es[i].ec, es[i].key, 0) == OK ==> Trusted(m, es[i].signer, es[i].ec, es[i].key)
      ensures Readable(m) && Trusted(m, es[i].signer, es[i].ec, es[i].key) ==>
              Search(m, es[i].signer, es[i].ec, es[i].key, 0) == OK
    {
      SearchMeans(m, es[i].signer, es[i].ec, es[i].key);
    }
  }

  /** The verification loop, after the hash is known. */
  method CheckSignatures(m: SecModule, rules: seq<int>, hash: seq<Byte>, b: seq<Byte>, count: nat,
        pos: nat) returns (ok: bool)
    requires Provisioned(m)
    ensures ok == Accepts(m, rules, hash, b, count, pos)
  {
    hide Search, EntryEnd, Provisioned;
    if count < SIGNATURES_QTY {
      return false;
    }
    var i, at, signRules := 0, pos, 0;
    while i < count
      invariant 0 <= i <= count
      invariant var whole, rest := Check(m, rules, hash, b, count, pos), Check(m, rules, hash, b, count - i, at);
                if rest.None? then whole.None? else whole == Some(rest.value + signRules)
    {
      var next := EntryAt(b, at);
      if next.None? {
        return false;
      }
      var e := next.value;
      if e.hashType != SHA256 {
        return false;
      }
      var found := SearchHlPubkey(m, e.signer, e.ec, e.key);
      if found != OK {
        return false;
      }
      if e.signer as int in rules {
        if !m.ecdsa(e.ec, e.key, e.hashType, hash, e.sign) {
          return false;
        }
        signRules := signRules + 1;
      }
      at := EntryEnd(b, at);
      i := i + 1;
    }
    return signRules >= SIGNATURES_QTY;
  }
}
