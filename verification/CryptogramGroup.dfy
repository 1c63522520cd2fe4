/** Messages for several recipients, which the writer does not produce but the reader looks through: everyone
    finds the block that is addressed to them, wherever it stands. */
module CryptogramGroup {
  import opened Bytes
  import opened Der
  import opened Cryptogram
  import opened CryptogramReading

  /** One recipient's block: of the parts, the recipient, the wrapped key and what belongs to it. */
  datatype Addressee = Addressee(parts: Parts, ids: Ids)

  predicate WellFormed(rs: seq<Addressee>) {
    forall k :: 0 <= k < |rs| ==> Sized(rs[k].parts) && Shaped(rs[k].ids)
  }

  function Element(a: Addressee): (b: seq<Byte>)
    requires Sized(a.parts) && Shaped(a.ids)
  {
    Tlv(SEQUENCE, RecipientOf(a.parts, a.ids))
  }

  function Elements(rs: seq<Addressee>): (b: seq<Byte>)
    requires WellFormed(rs)
  {
    if rs == [] then [] else Element(rs[0]) + Elements(rs[1..])
  }

  /** Version, recipients, data. */
  function GroupEnveloped(rs: seq<Addressee>, p: Parts, cipher: seq<Byte>): (b: seq<Byte>)
    requires WellFormed(rs) && Sized(p) && |cipher| == 9
  {
    Version(2) + Tlv(SET, Elements(rs)) + DataBlockOf(p, cipher)
  }

  /** The message, with the IV and the encrypted data of p. */
  function GroupMessage(rs: seq<Addressee>, p: Parts, cipher: seq<Byte>): (b: seq<Byte>)
    requires WellFormed(rs) && Sized(p) && |cipher| == 9
  {
    Tlv(SEQUENCE, Version(0) + Tlv(SEQUENCE, Tlv(OID, ENVELOPED_ID)
                                             + Tlv(ZERO_TAG, Tlv(SEQUENCE, GroupEnveloped(rs, p, cipher)))))
    + p.payload
  }

  /** Neither id begins with the other. */
  ghost predicate Differ(a: seq<Byte>, b: seq<Byte>) {
    exists k :: 0 <= k < |a| && k < |b| && a[k] != b[k]
  }

  lemma DifferAhead(a: seq<Byte>, b: seq<Byte>, rest: seq<Byte>)
    requires Differ(a, b)
    ensures !Begins(a + rest, b)
  {
    var k :| 0 <= k < |a| && k < |b| && a[k] != b[k];
    assert (a + rest)[k] == a[k];
  }

  // ---------------------------------------------------------------- the search

  /** An element for someone else is passed by. */
  lemma PassedBy(a: Addressee, id: seq<Byte>, tail: seq<Byte>)
    requires Sized(a.parts) && Shaped(a.ids) && id != [] && Differ(a.parts.recipient, id)
    ensures FindRecipient(Element(a) + tail, id) == FindRecipient(tail, id)
  {
    var p, i := a.parts, a.ids;
    var u := EcTypeOf(i.curve) + (Tlv(OCTET_STRING, Tlv(SEQUENCE, SecretOf(p, i))) + tail);
    ElementReads(p, i, tail);
    ReadsTlv(OCTET_STRING, p.recipient, u);
    DifferAhead(p.recipient, id, u);
    Skipped(RecipientOf(p, i), tail);
    hide Tlv, RecipientOf, SecretOf, EcTypeOf, Into, Over, StepInto, Skip, Begins;
  }

  /** What is in front of the reader once it has found its block. */
  function Behind(a: Addressee, tail: seq<Byte>): (b: seq<Byte>)
    requires Sized(a.parts) && Shaped(a.ids)
  {
    EcTypeOf(a.ids.curve) + (Tlv(OCTET_STRING, Tlv(SEQUENCE, SecretOf(a.parts, a.ids))) + tail)
  }

  lemma FirstElement(rs: seq<Addressee>, tail: seq<Byte>)
    requires WellFormed(rs) && rs != []
    ensures Elements(rs) + tail == Element(rs[0]) + (Elements(rs[1..]) + tail)
  {
    hide Element;
  }

  lemma FirstFound(a: Addressee, id: seq<Byte>, tail: seq<Byte>)
    requires Sized(a.parts) && Shaped(a.ids) && (id == [] || id == a.parts.recipient)
    ensures FindRecipient(Element(a) + tail, id) == At(Behind(a, tail))
  {
    hide FindRecipient, RecipientOf, SecretOf, EcTypeOf, Sized, Shaped, Tlv;
    RecipientFound(a.parts, a.ids, id, tail);
  }

  lemma ElementIs(a: Addressee)
    requires Sized(a.parts) && Shaped(a.ids)
    ensures Element(a) == Tlv(SEQUENCE, RecipientOf(a.parts, a.ids)) && |Element(a)| > 0
  {
    hide Tlv, RecipientOf;
  }

  lemma {:induction false} GroupMissed(rs: seq<Addressee>, id: seq<Byte>, tail: seq<Byte>)
    requires WellFormed(rs) && id != []
    requires forall j :: 0 <= j < |rs| ==> Differ(rs[j].parts.recipient, id)
    ensures FindRecipient(Elements(rs) + tail, id) == FindRecipient(tail, id)
    decreases |rs|
  {
    if rs == [] {
      assert [] + tail == tail;
    } else {
      FirstElement(rs, tail);
      assert WellFormed(rs[1..]);
      hide FindRecipient, Element, Elements, Differ, Sized, Shaped;
      PassedBy(rs[0], id, Elements(rs[1..]) + tail);
      GroupMissed(rs[1..], id, tail);
    }
  }

  lemma JoinFormed(xs: seq<Addressee>, ys: seq<Addressee>)
    requires WellFormed(xs) && WellFormed(ys)
    ensures WellFormed(xs + ys)
  {
    hide Sized, Shaped;
  }

  lemma Unfolded(rs: seq<Addressee>)
    requires WellFormed(rs) && rs != []
    ensures Sized(rs[0].parts) && Shaped(rs[0].ids) && WellFormed(rs[1..])
    ensures Elements(rs) == Element(rs[0]) + Elements(rs[1..])
  {
    hide Element;
  }

  lemma {:induction false} ElementsJoin(xs: seq<Addressee>, ys: seq<Addressee>)
    requires WellFormed(xs) && WellFormed(ys)
    ensures WellFormed(xs + ys) && Elements(xs + ys) == Elements(xs) + Elements(ys)
    decreases |xs|
  {
    hide *;
    JoinFormed(xs, ys);
    NoElements();
    if xs == [] {
      assert xs + ys == ys;
    } else {
      Unfolded(xs);
      Unfolded(xs + ys);
      assert (xs + ys)[1..] == xs[1..] + ys;
      ElementsJoin(xs[1..], ys);
      Regroup(Element(xs[0]), Elements(xs[1..]), Elements(ys));
    }
  }

  /** Everyone in the set: those in front, a, and those behind. */
  function Among(before: seq<Addressee>, a: Addressee, after: seq<Addressee>): seq<Addressee> {
    before + ([a] + after)
  }

  lemma AmongElements(before: seq<Addressee>, a: Addressee, after: seq<Addressee>, tail: seq<Byte>)
    requires WellFormed(before) && Sized(a.parts) && Shaped(a.ids) && WellFormed(after)
    ensures WellFormed(Among(before, a, after))
    ensures Elements(Among(before, a, after)) + tail == Elements(before) + (Element(a) + (Elements(after) + tail))
  {
    assert WellFormed([a]);
    assert Among(before, a, after) == before + ([a] + after);
    hide *;
    OneElement(a);
    ElementsJoin([a], after);
    ElementsJoin(before, [a] + after);
    Regroup(Element(a), Elements(after), tail);
    Regroup(Elements(before), Element(a) + Elements(after), tail);
  }

  lemma OneElement(a: Addressee)
    requires WellFormed([a]) && Sized(a.parts) && Shaped(a.ids)
    ensures Elements([a]) == Element(a)
  {
    hide Element;
    assert Elements([a][1..]) == [];
  }

  lemma NoElements()
    ensures WellFormed([]) && Elements([]) == []
  {
  }

  /** The elements in front of a block for id. */
  lemma BlockFound(before: seq<Addressee>, a: Addressee, id: seq<Byte>, tail: seq<Byte>)
    requires WellFormed(before) && Sized(a.parts) && Shaped(a.ids)
    requires if id == [] then before == [] else a.parts.recipient == id
    requires forall j :: 0 <= j < |before| ==> Differ(before[j].parts.recipient, id)
    ensures FindRecipient(Elements(before) + (Element(a) + tail), id) == At(Behind(a, tail))
  {
    FirstFound(a, id, tail);
    if id == [] {
      assert Elements(before) + (Element(a) + tail) == Element(a) + tail;
    } else {
      hide *;
      GroupMissed(before, id, Element(a) + tail);
    }
  }

  // ---------------------------------------------------------------- the way to the set

  lemma GroupSet(rs: seq<Addressee>, p: Parts, c: seq<Byte>)
    requires WellFormed(rs) && Sized(p) && |c| == 9 && |Elements(rs)| < 0xFF00
    ensures ToSet(GroupMessage(rs, p, c)) == Some(Tlv(SET, Elements(rs)) + (DataBlockOf(p, c) + p.payload))
  {
    var set_, data, tail := Tlv(SET, Elements(rs)), DataBlockOf(p, c), p.payload;
    var oid, zero := Tlv(OID, ENVELOPED_ID), Tlv(ZERO_TAG, Tlv(SEQUENCE, GroupEnveloped(rs, p, c)));
    VersionIs(0);
    VersionIs(2);
    GroupLengths(rs, p, c);
    assert GroupEnveloped(rs, p, c) == Version(2) + set_ + data;
    assert GroupMessage(rs, p, c) == Tlv(SEQUENCE, Version(0) + Tlv(SEQUENCE, oid + zero)) + tail;
    hide Version, RecipientOf, DataBlockOf, Into, Over, Tlv, Elements, GroupEnveloped, GroupMessage;
    IntoTlv(SEQUENCE, Version(0), Tlv(SEQUENCE, oid + zero), tail);
    OverTlv(INTEGER, [0], Tlv(SEQUENCE, oid + zero) + tail);
    IntoTlv(SEQUENCE, oid, zero, tail);
    OverTlv(OID, ENVELOPED_ID, zero + tail);
    GroupUnwrap(GroupEnveloped(rs, p, c), tail);
    Splits3(Version(2), set_, data, tail);
    OverTlv(INTEGER, [2], set_ + (data + tail));
  }

  lemma GroupLengths(rs: seq<Addressee>, p: Parts, c: seq<Byte>)
    requires WellFormed(rs) && Sized(p) && |c| == 9 && |Elements(rs)| < 0xFF00
    ensures var x := Tlv(OID, ENVELOPED_ID) + Tlv(ZERO_TAG, Tlv(SEQUENCE, GroupEnveloped(rs, p, c)));
            && 0 < |GroupEnveloped(rs, p, c)| < 0xFF40 && 0 < |x| < 0xFF80
            && 0 < |Version(0) + Tlv(SEQUENCE, x)| < 0x1_0000
  {
    hide Elements, Version;
    assert |GroupEnveloped(rs, p, c)| <= |Elements(rs)| + 47;
    hide GroupEnveloped;
  }

  lemma GroupUnwrap(x: seq<Byte>, tail: seq<Byte>)
    requires 0 < |x| < 0xFF80
    ensures Into(Into(Some(Tlv(ZERO_TAG, Tlv(SEQUENCE, x)) + tail), ZERO_TAG), SEQUENCE) == Some(x + tail)
  {
    ReadsTlv(ZERO_TAG, Tlv(SEQUENCE, x), tail);
    ReadsTlv(SEQUENCE, x, tail);
    hide Tlv;
  }

  lemma GroupSize(rs: seq<Addressee>, p: Parts, c: seq<Byte>)
    requires WellFormed(rs) && Sized(p) && |c| == 9 && |Elements(rs)| < 0xFF00
    ensures var m := GroupMessage(rs, p, c);
            GetSize(m) < |m| && m[GetSize(m)..] == p.payload
  {
    var x := Tlv(OID, ENVELOPED_ID) + Tlv(ZERO_TAG, Tlv(SEQUENCE, GroupEnveloped(rs, p, c)));
    GroupLengths(rs, p, c);
    hide GroupEnveloped, Tlv, Version;
    ReadsTlv(SEQUENCE, Version(0) + Tlv(SEQUENCE, x), p.payload);
  }

  // ---------------------------------------------------------------- what a group message is read as

  /** What the reader answers to the addressee. */
  function GroupReading(a: Addressee, p: Parts, c: seq<Byte>): Outcome
    requires Sized(a.parts)
  {
    match RecipientResult(a.parts, a.ids)
    case Failed(out) => out
    case Got(fields) => if c == AES256_GCM_ID then Parsed(fields, p.ivData, p.payload) else Refused
  }

  /** The reader from the set on. */
  lemma ParseSteps(data: seq<Byte>, first: seq<Byte>, after: seq<Byte>, id: seq<Byte>)
    requires Into(ToSet(data), SET) == Some(first) && Over(ToSet(data), SET) == Some(after)
    requires GetSize(data) < |data|
    ensures Parse(data, id)
            == match FindRecipient(first, id)
               case Stop(out) => out
               case At(s) =>
                 match ParseRecipient(s)
                 case Failed(out) => out
                 case Got(fields) =>
                   match Octets(Identified(Into(Over(Into(Some(after), SEQUENCE), OID), SEQUENCE), AES256_GCM_ID), 12)
                   case None => Refused
                   case Some((ivData, _)) => Parsed(fields, ivData, data[GetSize(data)..])
  {
    hide Into, Over, Identified, Octets, FindRecipient, ParseRecipient, GetSize, ToSet;
  }

  /** Each recipient reads its own block, whatever the identifiers in it, and the data; no id at all reads the
      first block. */
  lemma GroupParse(before: seq<Addressee>, a: Addressee, after: seq<Addressee>, p: Parts, c: seq<Byte>, id: seq<Byte>)
    requires WellFormed(before) && Sized(a.parts) && Shaped(a.ids) && WellFormed(after)
    requires WellFormed(Among(before, a, after)) && |Elements(Among(before, a, after))| < 0xFF00
    requires Sized(p) && |c| == 9
    requires if id == [] then before == [] else a.parts.recipient == id
    requires forall j :: 0 <= j < |before| ==> Differ(before[j].parts.recipient, id)
    ensures Parse(GroupMessage(Among(before, a, after), p, c), id) == GroupReading(a, p, c)
  {
    var rs, tail := Among(before, a, after), DataBlockOf(p, c) + p.payload;
    assert rs != [];
    hide *;
    GroupInto(rs, p, c);
    GroupSize(rs, p, c);
    DataReads(p, c);
    ParseSteps(GroupMessage(rs, p, c), Elements(rs) + tail, tail, id);
    AmongElements(before, a, after, tail);
    BlockFound(before, a, id, Elements(after) + tail);
    BehindReads(a, Elements(after) + tail);
    ReadingIs(a, p, c);
  }

  /** Whoever is not addressed is refused. */
  lemma GroupRefuses(rs: seq<Addressee>, p: Parts, c: seq<Byte>, id: seq<Byte>)
    requires WellFormed(rs) && Sized(p) && |c| == 9 && |Elements(rs)| < 0xFF00 && rs != [] && id != []
    requires forall j :: 0 <= j < |rs| ==> Differ(rs[j].parts.recipient, id)
    ensures Parse(GroupMessage(rs, p, c), id) == Refused
  {
    var tail := DataBlockOf(p, c) + p.payload;
    hide *;
    GroupInto(rs, p, c);
    GroupSize(rs, p, c);
    DataRefused(p, c, id);
    ParseSteps(GroupMessage(rs, p, c), Elements(rs) + tail, tail, id);
    GroupMissed(rs, id, tail);
  }

  lemma ReadingIs(a: Addressee, p: Parts, c: seq<Byte>)
    requires Sized(a.parts)
    ensures GroupReading(a, p, c)
            == match RecipientResult(a.parts, a.ids)
               case Failed(out) => out
               case Got(fields) => if c == AES256_GCM_ID then Parsed(fields, p.ivData, p.payload) else Refused
  {
    hide RecipientResult;
  }

  lemma GroupInto(rs: seq<Addressee>, p: Parts, c: seq<Byte>)
    requires WellFormed(rs) && Sized(p) && |c| == 9 && |Elements(rs)| < 0xFF00 && rs != []
    ensures var set_, tail := ToSet(GroupMessage(rs, p, c)), DataBlockOf(p, c) + p.payload;
            Into(set_, SET) == Some(Elements(rs) + tail) && Over(set_, SET) == Some(tail)
  {
    var tail := DataBlockOf(p, c) + p.payload;
    GroupSet(rs, p, c);
    SomeElement(rs);
    hide Tlv, Into, Over, Elements, DataBlockOf, GroupMessage, ToSet, Sized, WellFormed;
    assert Elements(rs) + [] == Elements(rs) && [] + tail == tail;
    IntoTlv(SET, Elements(rs), [], tail);
    OverTlv(SET, Elements(rs), tail);
  }

  lemma BehindReads(a: Addressee, tail: seq<Byte>)
    requires Sized(a.parts) && Shaped(a.ids)
    ensures ParseRecipient(Behind(a, tail)) == RecipientResult(a.parts, a.ids)
  {
    RecipientReads(a.parts, a.ids, tail);
    hide ParseRecipient, RecipientResult, Tlv, EcTypeOf, SecretOf;
  }

  lemma SomeElement(rs: seq<Addressee>)
    requires WellFormed(rs) && rs != []
    ensures Elements(rs) != []
  {
    ElementIs(rs[0]);
    hide Element;
  }

  lemma DataRefused(p: Parts, c: seq<Byte>, id: seq<Byte>)
    requires Sized(p) && |c| == 9
    ensures id != [] ==> FindRecipient(DataBlockOf(p, c) + p.payload, id) == Stop(Refused)
  {
    NoInteger(p, STANDARD.(dataCipher := c));
    hide Into, Over, DataBlockOf;
  }

  /** With one recipient these are the messages of the writer's form. */
  lemma SingleRecipient(p: Parts, i: Ids)
    requires Sized(p) && Shaped(i)
    ensures WellFormed([Addressee(p, i)])
    ensures GroupMessage([Addressee(p, i)], p, i.dataCipher) == MessageOf(p, i)
  {
    OneElement(Addressee(p, i));
    ElementIs(Addressee(p, i));
    hide Tlv, Element, Elements, RecipientOf, DataBlockOf, Version;
  }
}
