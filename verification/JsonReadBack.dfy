/** Reading a document back from the tokens its printed text produces.

    A printed value "stands" at a token index and a text position. By induction over the document, a
    value that stands there is a valid node whose document is that value: for an object, the j-th key
    is found behind the tokens of the members before it, and a counting walk over the children visits
    exactly the keys. */
module JsonReadBack {
  import opened Jsmn
  import opened TokenForest
  import opened JsonTree
  import opened JsonPrint
  import opened JsonRoundTrip
  import opened JsonSpelling
  import JsonParser

  /** The tokens ts stand in the array from index v on. */
  predicate Sits(toks: seq<Token>, v: nat, ts: seq<Token>) {
    v + |ts| <= |toks| && toks[v..v + |ts|] == ts
  }

  lemma SitsSplit(toks: seq<Token>, v: nat, a: seq<Token>, b: seq<Token>)
    requires Sits(toks, v, a + b)
    ensures Sits(toks, v, a) && Sits(toks, v + |a|, b)
  {
    assert toks[v..v + |a + b|][..|a|] == a;
    assert toks[v..v + |a + b|][|a|..] == b;
  }

  lemma SitsAt(toks: seq<Token>, v: nat, ts: seq<Token>)
    requires Sits(toks, v, ts)
    ensures v + |ts| <= |toks|
    ensures forall i :: v <= i < v + |ts| ==> toks[i] == ts[i - v]
  {
    forall i | v <= i < v + |ts|
      ensures toks[i] == ts[i - v]
    {
      assert toks[v..v + |ts|][i - v] == toks[i];
    }
  }

  /** Token index of the j-th key. */
  ghost function KeyAt(ms: seq<Member>, p: nat, o: nat, j: nat): nat
    requires j <= |ms|
  {
    KeyIndex(ms[..j], p, o)
  }

  /** Text position of the j-th member. */
  ghost function TextAt(ms: seq<Member>, p: nat, j: nat): nat
    requires j <= |ms|
  {
    p + |PrintMembers(ms[..j])| + |Comma(ms[..j])|
  }

  /** Dropping the last member moves none of the others. */
  lemma FrontKeeps(ms: seq<Member>, p: nat, o: nat, j: nat)
    requires j < |ms|
    ensures var front := ms[..|ms| - 1];
            KeyAt(front, p, o, j) == KeyAt(ms, p, o, j) && TextAt(front, p, j) == TextAt(ms, p, j)
  {
    assert ms[..|ms| - 1][..j] == ms[..j];
    hide KeyIndex, PrintMembers, Comma;
  }

  lemma LastAt(ms: seq<Member>, p: nat, o: nat)
    requires ms != []
    ensures var front := ms[..|ms| - 1];
            && KeyAt(ms, p, o, |front|) == KeyIndex(front, p, o) == o + 1 + |MemberToks(front, p, o)|
            && TextAt(ms, p, |front|) == p + |PrintMembers(front)| + |Comma(front)|
    ensures KeyAt(ms, p, o, |ms|) == o + 1 + |MemberToks(ms, p, o)|
  {
    assert ms[..|ms|] == ms;
    hide MemberToks, PrintMembers, Comma;
  }

  /** The j-th member is printed, and tokenized, behind those before it. */
  ghost predicate MemberSits(js: string, toks: seq<Token>, ms: seq<Member>, p: nat, o: nat, j: nat)
    requires j < |ms|
  {
    var k, q := KeyAt(ms, p, o, j), TextAt(ms, p, j);
    && Sits(toks, k, KeyToks(ms[j], q, k, o))
    && KeyAt(ms, p, o, j + 1) == k + |KeyToks(ms[j], q, k, o)|
    && Holds(js, q, PrintMember(ms[j]))
    && q + |PrintMember(ms[j])| <= p + |PrintMembers(ms)|
  }

  lemma LastSits(js: string, toks: seq<Token>, ms: seq<Member>, p: nat, o: nat)
    requires ms != [] && Holds(js, p, PrintMembers(ms)) && Sits(toks, o + 1, MemberToks(ms, p, o))
    ensures MemberSits(js, toks, ms, p, o, |ms| - 1)
    ensures var front := ms[..|ms| - 1];
            && Holds(js, p, PrintMembers(front)) && Sits(toks, o + 1, MemberToks(front, p, o))
            && |PrintMembers(front)| <= |PrintMembers(ms)|
  {
    var n := |ms| - 1;
    var front := ms[..n];
    LastPrinted(ms);
    ToksOfMembers(ms, p, o);
    LastAt(ms, p, o);
    hide PrintMembers, MemberToks, PrintMember, KeyToks, Sits, Holds, KeyAt, TextAt, KeyIndex, Comma;
    SitsSplit(toks, o + 1, MemberToks(front, p, o), KeyToks(ms[n], TextAt(ms, p, n), KeyIndex(front, p, o), o));
    HoldsSplit(js, p, PrintMembers(front) + Comma(front), PrintMember(ms[n]));
    HoldsSplit(js, p, PrintMembers(front), Comma(front));
  }

  lemma FrontSits(js: string, toks: seq<Token>, ms: seq<Member>, p: nat, o: nat, j: nat)
    requires j < |ms| - 1 && MemberSits(js, toks, ms[..|ms| - 1], p, o, j)
    requires |PrintMembers(ms[..|ms| - 1])| <= |PrintMembers(ms)|
    ensures MemberSits(js, toks, ms, p, o, j)
  {
    FrontKeeps(ms, p, o, j);
    FrontKeeps(ms, p, o, j + 1);
    hide Sits, Holds, KeyAt, TextAt, KeyToks, PrintMember, PrintMembers;
  }

  lemma {:induction false} MemberPrefix(js: string, toks: seq<Token>, ms: seq<Member>, p: nat, o: nat, j: nat)
    requires j < |ms| && Holds(js, p, PrintMembers(ms)) && Sits(toks, o + 1, MemberToks(ms, p, o))
    ensures MemberSits(js, toks, ms, p, o, j)
    decreases |ms|
  {
    hide *;
    LastSits(js, toks, ms, p, o);
    if j < |ms| - 1 {
      MemberPrefix(js, toks, ms[..|ms| - 1], p, o, j);
      FrontSits(js, toks, ms, p, o, j);
    }
  }

  lemma MemberPlace(js: string, toks: seq<Token>, ms: seq<Member>, p: nat, o: nat, j: nat)
    requires j < |ms| && Holds(js, p, PrintMembers(ms)) && Sits(toks, o + 1, MemberToks(ms, p, o))
    ensures Sits(toks, KeyAt(ms, p, o, j), KeyToks(ms[j], TextAt(ms, p, j), KeyAt(ms, p, o, j), o))
    ensures KeyAt(ms, p, o, j + 1) == KeyAt(ms, p, o, j) + |KeyToks(ms[j], TextAt(ms, p, j), KeyAt(ms, p, o, j), o)|
    ensures Holds(js, TextAt(ms, p, j), PrintMember(ms[j]))
    ensures TextAt(ms, p, j) + |PrintMember(ms[j])| <= p + |PrintMembers(ms)|
  {
    MemberPrefix(js, toks, ms, p, o, j);
    hide Sits, Holds, KeyAt, TextAt, KeyToks, PrintMember, PrintMembers;
  }

  // ---------------------------------------------------------------- shape of the expected tokens

  /** Behind the first token every parent link stays inside. */
  lemma {:induction false} ValueParents(d: Json, p: nat, v: nat, k: int)
    requires Printable(d)
    ensures |Toks(d, p, v, k)| > 0 && Toks(d, p, v, k)[0].parent == k
    ensures forall i :: 0 < i < |Toks(d, p, v, k)| ==> Toks(d, p, v, k)[i].parent >= v
    decreases d, 0
  {
    if d.Obj? {
      MemberParents(d.members, p + 1, v);
      ToksOfObject(d.members, p, v, k);
      hide Toks, MemberToks;
    } else if d.Arr? {
      ElemParents(d.elems, p + 1, v);
      ToksOfArray(d.elems, p, v, k);
      hide Toks, ElemToks;
    }
  }

  lemma {:induction false} ElemParents(es: seq<Json>, p: nat, o: nat)
    requires Printable(Arr(es))
    ensures forall i :: 0 <= i < |ElemToks(es, p, o)| ==> ElemToks(es, p, o)[i].parent >= o
    decreases es, 1
  {
    hide *;
    NoToks(p, o);
    if es != [] {
      var front, e := es[..|es| - 1], es[|es| - 1];
      LastElem(es);
      ElemParents(front, p, o);
      ValueParents(e, p + |PrintElems(front)| + |Separator(front)|, o + 1 + |ElemToks(front, p, o)|, o);
      ToksOfElems(es, p, o);
    }
  }

  lemma {:induction false} MemberParents(ms: seq<Member>, p: nat, o: nat)
    requires Printable(Obj(ms))
    ensures forall i :: 0 <= i < |MemberToks(ms, p, o)| ==> MemberToks(ms, p, o)[i].parent >= o
    decreases ms, 1
  {
    hide *;
    NoToks(p, o);
    if ms != [] {
      var front, m := ms[..|ms| - 1], ms[|ms| - 1];
      var q, k := p + |PrintMembers(front)| + |Comma(front)|, KeyIndex(front, p, o);
      LastMember(ms);
      MemberParents(front, p, o);
      KeyIsBehind(front, p, o);
      KeyParents(m, q, k, o);
      ToksOfMembers(ms, p, o);
      ParentsJoin(MemberToks(front, p, o), KeyToks(m, q, k, o), o);
    }
  }

  lemma NoToks(p: nat, o: nat)
    ensures MemberToks([], p, o) == [] && ElemToks([], p, o) == []
  {
  }

  lemma {:induction false} KeyParents(m: Member, q: nat, k: nat, o: nat)
    requires Printable(m.value) && k > o
    ensures forall i :: 0 <= i < |KeyToks(m, q, k, o)| ==> KeyToks(m, q, k, o)[i].parent >= o
    decreases m, 0
  {
    hide *;
    ValueParents(m.value, q + |m.name| + 3, k + 1, k);
    KeyToksParts(m, q, k, o);
  }

  lemma ParentsJoin(a: seq<Token>, b: seq<Token>, o: int)
    requires (forall i :: 0 <= i < |a| ==> a[i].parent >= o) && forall i :: 0 <= i < |b| ==> b[i].parent >= o
    ensures forall i :: 0 <= i < |a + b| ==> (a + b)[i].parent >= o
  {
  }

  lemma KeyIsBehind(ms: seq<Member>, p: nat, o: nat)
    ensures KeyIndex(ms, p, o) > o
  {
  }

  lemma EndUnique(toks: seq<Token>, i: nat, e: nat)
    requires i < e <= |toks| && forall k :: i < k < e ==> toks[k].parent >= i
    requires e == |toks| || toks[e].parent < i
    ensures End(toks, i) == e
  {
    assert End(toks, i) == |toks| || toks[End(toks, i)].parent < i;
  }

  /** A printed value stands at token v and text position p, and nothing of it follows. */
  ghost predicate Stands(js: string, toks: seq<Token>, d: Json, p: nat, v: nat, k: int) {
    && Parsed(js, toks) && Printable(d) && k < v
    && Holds(js, p, Print(d)) && Sits(toks, v, Toks(d, p, v, k))
    && var e := v + |Toks(d, p, v, k)|;
       e == |toks| || toks[e].parent < v
  }

  /** What is read at v is d. */
  ghost predicate Reads(js: string, toks: seq<Token>, d: Json, v: nat) {
    Parsed(js, toks) && v < |toks| && ValidValue(toks, v) && ValueAt(js, toks, v) == d
  }

  lemma ValueExtent(js: string, toks: seq<Token>, d: Json, p: nat, v: nat, k: int)
    requires Stands(js, toks, d, p, v, k)
    ensures v < |toks| && toks[v] == Toks(d, p, v, k)[0] && toks[v].parent == k
            && End(toks, v) == v + |Toks(d, p, v, k)|
  {
    hide *;
    StandsParts(js, toks, d, p, v, k);
    var ts := Toks(d, p, v, k);
    ValueParents(d, p, v, k);
    SitsAt(toks, v, ts);
    forall i | v < i < v + |ts|
      ensures toks[i].parent >= v
    {
      assert toks[i] == ts[i - v];
    }
    EndUnique(toks, v, v + |ts|);
  }

  lemma {:induction false} ReadValue(js: string, toks: seq<Token>, d: Json, p: nat, v: nat, k: int)
    requires Stands(js, toks, d, p, v, k)
    ensures Reads(js, toks, d, v)
    decreases d, 0
  {
    ValueExtent(js, toks, d, p, v, k);
    match d {
      case Str(s) =>
        QuoteParts(js, p, s);
      case Prim(w) =>
      case Obj(ms) =>
        ReadObject(js, toks, ms, p, v, k);
      case Arr(es) =>
        ReadArray(js, toks, es, p, v, k);
    }
  }

  /** The j-th member of a printed object is a valid child that reads back. */
  ghost predicate MemberReads(js: string, toks: seq<Token>, ms: seq<Member>, p: nat, o: nat, j: nat)
    requires j < |ms| && o < |toks|
  {
    var k := KeyAt(ms, p, o, j);
    && o < k && k + 1 < |toks| && toks[k].parent == o && toks[k].typ.String? && toks[k].size == 1
    && toks[k].end <= p + |PrintMembers(ms)|
    && Parsed(js, toks) && Text(js, toks[k]) == ms[j].name
    && Reads(js, toks, ms[j].value, k + 1)
    && End(toks, k + 1) == KeyAt(ms, p, o, j + 1)
    && forall i :: k < i < KeyAt(ms, p, o, j + 1) ==> toks[i].parent >= k
  }

  /** The members ms stand behind token o, and nothing of the object follows them. */
  ghost predicate BodyStands(js: string, toks: seq<Token>, ms: seq<Member>, p: nat, o: nat) {
    && Parsed(js, toks) && Printable(Obj(ms))
    && Holds(js, p, PrintMembers(ms)) && Sits(toks, o + 1, MemberToks(ms, p, o))
    && var e := KeyAt(ms, p, o, |ms|);
       e == |toks| || (e < |toks| && toks[e].parent < o)
  }

  lemma BodyParts(js: string, toks: seq<Token>, ms: seq<Member>, p: nat, o: nat)
    requires BodyStands(js, toks, ms, p, o)
    ensures Parsed(js, toks) && Printable(Obj(ms))
    ensures Holds(js, p, PrintMembers(ms)) && Sits(toks, o + 1, MemberToks(ms, p, o))
  {
  }

  lemma MemberSafe(ms: seq<Member>, j: nat)
    requires Printable(Obj(ms)) && j < |ms|
    ensures Printable(ms[j].value) && StringSafe(ms[j].name)
  {
  }

  lemma KeyToksParts(m: Member, q: nat, k: nat, o: nat)
    ensures KeyToks(m, q, k, o)
            == [Token(String, q + 1, q + 1 + |m.name|, 1, o)] + Toks(m.value, q + |m.name| + 3, k + 1, k)
  {
    hide Toks;
  }

  lemma ValueStands(js: string, toks: seq<Token>, d: Json, p: nat, v: nat, k: int)
    requires Parsed(js, toks) && Printable(d) && k < v && Holds(js, p, Print(d))
    requires Sits(toks, v, Toks(d, p, v, k))
    requires var e := v + |Toks(d, p, v, k)|;
             e == |toks| || (e < |toks| && toks[e].parent < v)
    ensures Stands(js, toks, d, p, v, k)
  {
    hide Parsed, Printable, Holds, Print, Toks;
  }

  /** The j-th key, and its value standing behind it. */
  lemma MemberStands(js: string, toks: seq<Token>, ms: seq<Member>, p: nat, o: nat, j: nat)
    requires BodyStands(js, toks, ms, p, o) && j < |ms|
    ensures var m, k, q := ms[j], KeyAt(ms, p, o, j), TextAt(ms, p, j);
            && o < k < |toks| && toks[k] == Token(String, q + 1, q + 1 + |m.name|, 1, o)
            && Stands(js, toks, m.value, q + |m.name| + 3, k + 1, k)
            && KeyAt(ms, p, o, j + 1) == k + 1 + |Toks(m.value, q + |m.name| + 3, k + 1, k)|
            && Holds(js, q, Quote(m.name)) && q + |m.name| + 2 <= p + |PrintMembers(ms)|
  {
    hide *;
    var m, k, q := ms[j], KeyAt(ms, p, o, j), TextAt(ms, p, j);
    BodyParts(js, toks, ms, p, o);
    MemberSafe(ms, j);
    MemberPlace(js, toks, ms, p, o, j);
    NextKey(js, toks, ms, p, o, j);
    NextKey(js, toks, ms, p, o, j + 1);
    SplitMember(js, q, m);
    KeyToksParts(m, q, k, o);
    var key := [Token(String, q + 1, q + 1 + |m.name|, 1, o)];
    var vt := Toks(m.value, q + |m.name| + 3, k + 1, k);
    SitsSplit(toks, k, key, vt);
    SitsAt(toks, k, key);
    ValueStands(js, toks, m.value, q + |m.name| + 3, k + 1, k);
  }

  lemma NextKey(js: string, toks: seq<Token>, ms: seq<Member>, p: nat, o: nat, j: nat)
    requires BodyStands(js, toks, ms, p, o) && j <= |ms|
    ensures var e := KeyAt(ms, p, o, j);
            o < e && (e == |toks| || (e < |toks| && toks[e].parent <= o))
  {
    if j < |ms| {
      var e := KeyAt(ms, p, o, j);
      MemberPlace(js, toks, ms, p, o, j);
      SitsAt(toks, e, KeyToks(ms[j], TextAt(ms, p, j), e, o));
    }
  }

  /** What is written between the quotes of a key. */
  lemma KeyText(js: string, toks: seq<Token>, q: nat, name: string, k: nat)
    requires Parsed(js, toks) && k < |toks| && Holds(js, q, Quote(name))
    requires toks[k].start == q + 1 && toks[k].end == q + 1 + |name|
    ensures Text(js, toks[k]) == name
  {
    QuoteParts(js, q, name);
    hide Forest, Quote;
  }

  lemma InsideValue(toks: seq<Token>, v: nat)
    requires v < |toks|
    ensures forall i :: v < i < End(toks, v) ==> toks[i].parent >= v
  {
  }

  lemma {:induction false} ReadMember(js: string, toks: seq<Token>, ms: seq<Member>, p: nat, o: nat, j: nat)
    requires BodyStands(js, toks, ms, p, o) && j < |ms|
    ensures MemberReads(js, toks, ms, p, o, j)
    decreases ms, 2
  {
    hide *;
    var m, k, q := ms[j], KeyAt(ms, p, o, j), TextAt(ms, p, j);
    BodyParts(js, toks, ms, p, o);
    MemberStands(js, toks, ms, p, o, j);
    KeyText(js, toks, q, m.name, k);
    ReadValue(js, toks, m.value, q + |m.name| + 3, k + 1, k);
    ValueExtent(js, toks, m.value, q + |m.name| + 3, k + 1, k);
    InsideValue(toks, k + 1);
    MemberReadsFrom(js, toks, ms, p, o, j);
  }

  lemma MemberReadsFrom(js: string, toks: seq<Token>, ms: seq<Member>, p: nat, o: nat, j: nat)
    requires j < |ms| && o < |toks| && Parsed(js, toks)
    requires o < KeyAt(ms, p, o, j) && KeyAt(ms, p, o, j) + 1 < |toks|
    requires var k := KeyAt(ms, p, o, j);
             && toks[k].parent == o && toks[k].typ.String? && toks[k].size == 1 && toks[k + 1].parent == k
             && toks[k].end <= p + |PrintMembers(ms)| && 0 <= toks[k].start <= toks[k].end <= |js|
             && Text(js, toks[k]) == ms[j].name && Reads(js, toks, ms[j].value, k + 1)
             && End(toks, k + 1) == KeyAt(ms, p, o, j + 1)
             && forall i :: k + 1 < i < End(toks, k + 1) ==> toks[i].parent >= k + 1
    ensures MemberReads(js, toks, ms, p, o, j)
  {
    hide KeyAt, Text, Parsed, PrintMembers, End, Reads;
  }

  /** All members of the object at token o read back. */
  ghost predicate MembersRead(js: string, toks: seq<Token>, ms: seq<Member>, p: nat, o: nat) {
    && Parsed(js, toks) && o < |toks| && toks[o].typ.Object? && toks[o].size == |ms|
    && toks[o].end >= p + |PrintMembers(ms)|
    && (forall j :: 0 <= j < |ms| ==> MemberReads(js, toks, ms, p, o, j))
    && End(toks, o) == KeyAt(ms, p, o, |ms|)
  }

  lemma {:induction false} ChildrenValid(js: string, toks: seq<Token>, ms: seq<Member>, p: nat, o: nat, j: nat)
    requires MembersRead(js, toks, ms, p, o) && j <= |ms|
    ensures KeyAt(ms, p, o, j) <= End(toks, o)
    ensures forall c :: o < c < KeyAt(ms, p, o, j) && toks[c].parent == o ==> ValidChild(toks, o, c)
    decreases j
  {
    if j == 0 {
      FirstKeyAt(ms, p, o);
    } else {
      ChildrenValid(js, toks, ms, p, o, j - 1);
      assert MemberReads(js, toks, ms, p, o, j - 1);
      var k := KeyAt(ms, p, o, j - 1);
      hide KeyAt, PrintMembers, Forest, ValueAt, End;
      assert ValidChild(toks, o, k);
      if j < |ms| {
        assert MemberReads(js, toks, ms, p, o, j);
        ChildInside(toks, o, KeyAt(ms, p, o, j));
      }
    }
  }

  lemma ObjectValid(js: string, toks: seq<Token>, ms: seq<Member>, p: nat, o: nat)
    requires MembersRead(js, toks, ms, p, o)
    ensures ValidNode(toks, o, Object)
  {
    ChildrenValid(js, toks, ms, p, o, |ms|);
    hide KeyAt, PrintMembers, ValidChild, MemberReads;
    forall c | o < c < |toks| && toks[c].parent == o
      ensures ValidChild(toks, o, c)
    {
      ChildInside(toks, o, c);
    }
  }

  lemma {:induction false} WalksAlong(js: string, toks: seq<Token>, ms: seq<Member>, p: nat, o: nat, j: nat)
    requires MembersRead(js, toks, ms, p, o) && j <= |ms|
    ensures Walked(toks, o, KeyAt(ms, p, o, j), |ms| - j)
    decreases j
  {
    if j == 0 {
      FirstKeyAt(ms, p, o);
      WalkStarts(toks, o);
    } else {
      WalksAlong(js, toks, ms, p, o, j - 1);
      assert MemberReads(js, toks, ms, p, o, j - 1);
      hide Walked, KeyAt, PrintMembers, Forest, ValueAt, End;
      WalkAdvances(toks, o, KeyAt(ms, p, o, j - 1), |ms| - j + 1);
      OnlyChild(toks, KeyAt(ms, p, o, j - 1));
    }
  }

  lemma MemberAhead(js: string, toks: seq<Token>, ms: seq<Member>, p: nat, o: nat, j: nat)
    requires MembersRead(js, toks, ms, p, o) && ValidNode(toks, o, Object) && j < |ms|
    requires Walked(toks, o, KeyAt(ms, p, o, j), |ms| - j) && Walked(toks, o, KeyAt(ms, p, o, j + 1), |ms| - j - 1)
    ensures MembersAhead(js, toks, o, KeyAt(ms, p, o, j), |ms| - j)
            == [ms[j]] + MembersAhead(js, toks, o, KeyAt(ms, p, o, j + 1), |ms| - j - 1)
  {
    assert MemberReads(js, toks, ms, p, o, j);
    hide Walked, KeyAt, PrintMembers, Forest, ValueAt, End, ValidNode, ValidValue, WellShaped, Text;
  }

  lemma {:induction false} MembersReadBack(js: string, toks: seq<Token>, ms: seq<Member>, p: nat, o: nat, j: nat)
    requires MembersRead(js, toks, ms, p, o) && ValidNode(toks, o, Object) && j <= |ms|
    requires Parsed(js, toks) && Walked(toks, o, KeyAt(ms, p, o, j), |ms| - j)
    ensures MembersAhead(js, toks, o, KeyAt(ms, p, o, j), |ms| - j) == ms[j..]
    decreases |ms| - j
  {
    hide *;
    if j < |ms| {
      WalksAlong(js, toks, ms, p, o, j + 1);
      MemberAhead(js, toks, ms, p, o, j);
      MembersReadBack(js, toks, ms, p, o, j + 1);
      assert ms[j..] == [ms[j]] + ms[j + 1..];
    }
  }

  lemma {:induction false} ReadObject(js: string, toks: seq<Token>, ms: seq<Member>, p: nat, v: nat, k: int)
    requires Stands(js, toks, Obj(ms), p, v, k)
    ensures Reads(js, toks, Obj(ms), v)
    decreases ms, 3
  {
    ObjectStands(js, toks, ms, p, v, k);
    var q := p + 1;
    forall j | 0 <= j < |ms|
      ensures MemberReads(js, toks, ms, q, v, j)
    {
      ReadMember(js, toks, ms, q, v, j);
    }
    hide KeyAt, PrintMembers, Forest, End, MemberReads, Holds, Sits, Toks, Print, Printable;
    assert MembersRead(js, toks, ms, q, v);
    ObjectValid(js, toks, ms, q, v);
    WalksAlong(js, toks, ms, q, v, 0);
    MembersReadBack(js, toks, ms, q, v, 0);
    FirstKeyAt(ms, q, v);
  }

  lemma FirstKeyAt(ms: seq<Member>, p: nat, o: nat)
    ensures KeyAt(ms, p, o, 0) == o + 1 && ms[0..] == ms
  {
    assert MemberToks(ms[..0], p, o) == [];
  }

  lemma StandsParts(js: string, toks: seq<Token>, d: Json, p: nat, v: nat, k: int)
    requires Stands(js, toks, d, p, v, k)
    ensures Parsed(js, toks) && Printable(d) && Holds(js, p, Print(d)) && Sits(toks, v, Toks(d, p, v, k))
    ensures v + |Toks(d, p, v, k)| <= |toks|
    ensures var e := v + |Toks(d, p, v, k)|;
            e == |toks| || toks[e].parent < v
  {
    hide Parsed, Printable, Holds, Print, Toks;
  }

  lemma BodyFrom(js: string, toks: seq<Token>, ms: seq<Member>, p: nat, o: nat)
    requires Parsed(js, toks) && Printable(Obj(ms))
    requires Holds(js, p, PrintMembers(ms)) && Sits(toks, o + 1, MemberToks(ms, p, o))
    requires var e := o + 1 + |MemberToks(ms, p, o)|;
             e == |toks| || (e < |toks| && toks[e].parent < o)
    ensures KeyAt(ms, p, o, |ms|) == o + 1 + |MemberToks(ms, p, o)|
    ensures BodyStands(js, toks, ms, p, o)
  {
    hide Parsed, Printable, Holds, PrintMembers, Sits, MemberToks, StringSafe, Toks, KeyToks, Print;
    assert ms[..|ms|] == ms;
  }

  lemma ObjectStands(js: string, toks: seq<Token>, ms: seq<Member>, p: nat, v: nat, k: int)
    requires Stands(js, toks, Obj(ms), p, v, k)
    ensures v < |toks| && toks[v].typ.Object? && toks[v].size == |ms| && toks[v].end >= p + 1 + |PrintMembers(ms)|
    ensures BodyStands(js, toks, ms, p + 1, v) && Parsed(js, toks)
    ensures End(toks, v) == KeyAt(ms, p + 1, v, |ms|)
  {
    hide *;
    StandsParts(js, toks, Obj(ms), p, v, k);
    ValueExtent(js, toks, Obj(ms), p, v, k);
    ToksOfObject(ms, p, v, k);
    SplitObject(js, p, ms);
    SitsSplit(toks, v, [Token(Object, p, p + |Print(Obj(ms))|, |ms|, k)], MemberToks(ms, p + 1, v));
    BodyFrom(js, toks, ms, p + 1, v);
  }

  // ---------------------------------------------------------------- arrays

  /** Token index of the j-th element. */
  ghost function ElemAt(es: seq<Json>, p: nat, o: nat, j: nat): nat
    requires j <= |es|
  {
    o + 1 + |ElemToks(es[..j], p, o)|
  }

  /** Text position of the j-th element. */
  ghost function ElemTextAt(es: seq<Json>, p: nat, j: nat): nat
    requires j <= |es|
  {
    p + |PrintElems(es[..j])| + |Separator(es[..j])|
  }

  /** The j-th element is printed, and tokenized, behind those before it. */
  ghost predicate ElemSits(js: string, toks: seq<Token>, es: seq<Json>, p: nat, o: nat, j: nat)
    requires j < |es|
  {
    var v, q := ElemAt(es, p, o, j), ElemTextAt(es, p, j);
    && Sits(toks, v, Toks(es[j], q, v, o)) && ElemAt(es, p, o, j + 1) == v + |Toks(es[j], q, v, o)|
    && Holds(js, q, Print(es[j])) && q + |Print(es[j])| <= p + |PrintElems(es)|
  }

  lemma LastElemSits(js: string, toks: seq<Token>, es: seq<Json>, p: nat, o: nat)
    requires es != [] && Holds(js, p, PrintElems(es)) && Sits(toks, o + 1, ElemToks(es, p, o))
    ensures ElemSits(js, toks, es, p, o, |es| - 1)
    ensures var front := es[..|es| - 1];
            && Holds(js, p, PrintElems(front)) && Sits(toks, o + 1, ElemToks(front, p, o))
            && |PrintElems(front)| <= |PrintElems(es)|
  {
    hide PrintElems, ElemToks, Print, Toks, Sits, Holds, Separator, Printable;
    var n := |es| - 1;
    var front := es[..n];
    LastElem(es);
    ToksOfElems(es, p, o);
    assert es[..n + 1] == es;
    SitsSplit(toks, o + 1, ElemToks(front, p, o), Toks(es[n], ElemTextAt(es, p, n), ElemAt(es, p, o, n), o));
    HoldsSplit(js, p, PrintElems(front) + Separator(front), Print(es[n]));
    HoldsSplit(js, p, PrintElems(front), Separator(front));
  }

  lemma FrontElemSits(js: string, toks: seq<Token>, es: seq<Json>, p: nat, o: nat, j: nat)
    requires j < |es| - 1 && ElemSits(js, toks, es[..|es| - 1], p, o, j)
    requires |PrintElems(es[..|es| - 1])| <= |PrintElems(es)|
    ensures ElemSits(js, toks, es, p, o, j)
  {
    var front := es[..|es| - 1];
    assert front[..j] == es[..j] && front[..j + 1] == es[..j + 1];
    hide Sits, Holds, Toks, Print, PrintElems, ElemToks, Separator;
  }

  lemma {:induction false} ElemPrefix(js: string, toks: seq<Token>, es: seq<Json>, p: nat, o: nat, j: nat)
    requires j < |es| && Holds(js, p, PrintElems(es)) && Sits(toks, o + 1, ElemToks(es, p, o))
    ensures ElemSits(js, toks, es, p, o, j)
    decreases |es|
  {
    hide *;
    LastElemSits(js, toks, es, p, o);
    if j < |es| - 1 {
      ElemPrefix(js, toks, es[..|es| - 1], p, o, j);
      FrontElemSits(js, toks, es, p, o, j);
    }
  }

  /** The elements es stand behind token o, and nothing of the array follows them. */
  ghost predicate ElemsStand(js: string, toks: seq<Token>, es: seq<Json>, p: nat, o: nat) {
    && Parsed(js, toks) && Printable(Arr(es))
    && Holds(js, p, PrintElems(es)) && Sits(toks, o + 1, ElemToks(es, p, o))
    && var e := ElemAt(es, p, o, |es|);
       e == |toks| || (e < |toks| && toks[e].parent < o)
  }

  lemma ElemSafe(es: seq<Json>, j: nat)
    requires Printable(Arr(es)) && j < |es|
    ensures Printable(es[j])
  {
  }

  lemma ElemPlace(js: string, toks: seq<Token>, es: seq<Json>, p: nat, o: nat, j: nat)
    requires ElemsStand(js, toks, es, p, o) && j < |es|
    ensures Parsed(js, toks) && Printable(es[j]) && ElemSits(js, toks, es, p, o, j)
    ensures o < ElemAt(es, p, o, j) < |toks| && toks[ElemAt(es, p, o, j)].parent == o
  {
    ElemSafe(es, j);
    ElemPrefix(js, toks, es, p, o, j);
    var v, q := ElemAt(es, p, o, j), ElemTextAt(es, p, j);
    ValueParents(es[j], q, v, o);
    SitsAt(toks, v, Toks(es[j], q, v, o));
    hide Parsed, Printable, Holds, Toks, Print, PrintElems, ElemTextAt;
  }

  lemma NextElem(js: string, toks: seq<Token>, es: seq<Json>, p: nat, o: nat, j: nat)
    requires ElemsStand(js, toks, es, p, o) && j <= |es|
    ensures var e := ElemAt(es, p, o, j);
            o < e && (e == |toks| || (e < |toks| && toks[e].parent <= o))
  {
    if j < |es| {
      ElemPlace(js, toks, es, p, o, j);
    }
    hide Parsed, Printable, Holds, Sits, ElemSits, ElemToks;
  }

  /** The first token of a value ends with its text. */
  lemma FirstEnds(d: Json, p: nat, base: nat, parent: int)
    ensures Toks(d, p, base, parent)[0].end <= p + |Print(d)|
  {
    hide MemberToks, ElemToks, PrintMembers, PrintElems;
  }

  /** The j-th element of a printed array is a valid child that reads back. */
  ghost predicate ElemReads(js: string, toks: seq<Token>, es: seq<Json>, p: nat, o: nat, j: nat)
    requires j < |es| && o < |toks|
  {
    var v := ElemAt(es, p, o, j);
    && o < v < |toks| && toks[v].parent == o && toks[v].end <= p + |PrintElems(es)|
    && Reads(js, toks, es[j], v) && End(toks, v) == ElemAt(es, p, o, j + 1)
  }

  lemma {:induction false} ReadElem(js: string, toks: seq<Token>, es: seq<Json>, p: nat, o: nat, j: nat)
    requires ElemsStand(js, toks, es, p, o) && j < |es|
    ensures o < |toks| && ElemReads(js, toks, es, p, o, j)
    decreases es, 2
  {
    hide *;
    var v, q := ElemAt(es, p, o, j), ElemTextAt(es, p, j);
    ElemPlace(js, toks, es, p, o, j);
    NextElem(js, toks, es, p, o, j + 1);
    ElemParts(js, toks, es, p, o, j);
    ValueStands(js, toks, es[j], q, v, o);
    ValueExtent(js, toks, es[j], q, v, o);
    FirstEnds(es[j], q, v, o);
    ReadValue(js, toks, es[j], q, v, o);
    ElemReadsFrom(js, toks, es, p, o, j);
  }

  lemma ElemParts(js: string, toks: seq<Token>, es: seq<Json>, p: nat, o: nat, j: nat)
    requires j < |es| && ElemSits(js, toks, es, p, o, j)
    ensures var v, q := ElemAt(es, p, o, j), ElemTextAt(es, p, j);
            && Sits(toks, v, Toks(es[j], q, v, o)) && ElemAt(es, p, o, j + 1) == v + |Toks(es[j], q, v, o)|
            && Holds(js, q, Print(es[j])) && q + |Print(es[j])| <= p + |PrintElems(es)|
  {
    hide Sits, Holds, Toks, Print, PrintElems, ElemAt, ElemTextAt;
  }

  lemma ElemReadsFrom(js: string, toks: seq<Token>, es: seq<Json>, p: nat, o: nat, j: nat)
    requires j < |es|
    requires var v := ElemAt(es, p, o, j);
             && o < v < |toks| && toks[v].parent == o && toks[v].end <= p + |PrintElems(es)|
             && Reads(js, toks, es[j], v) && End(toks, v) == ElemAt(es, p, o, j + 1)
    ensures ElemReads(js, toks, es, p, o, j)
  {
    hide ElemAt, PrintElems, End, Reads;
  }

  /** All elements of the array at token o read back. */
  ghost predicate ElemsRead(js: string, toks: seq<Token>, es: seq<Json>, p: nat, o: nat) {
    && Parsed(js, toks) && o < |toks| && toks[o].typ.Array? && toks[o].size == |es|
    && toks[o].end >= p + |PrintElems(es)|
    && (forall j :: 0 <= j < |es| ==> ElemReads(js, toks, es, p, o, j))
    && End(toks, o) == ElemAt(es, p, o, |es|)
  }

  lemma FirstElemAt(es: seq<Json>, p: nat, o: nat)
    ensures ElemAt(es, p, o, 0) == o + 1 && es[0..] == es
  {
    assert ElemToks(es[..0], p, o) == [];
  }

  lemma {:induction false} ElemsValid(js: string, toks: seq<Token>, es: seq<Json>, p: nat, o: nat, j: nat)
    requires ElemsRead(js, toks, es, p, o) && j <= |es|
    ensures ElemAt(es, p, o, j) <= End(toks, o)
    ensures forall c :: o < c < ElemAt(es, p, o, j) && toks[c].parent == o ==> ValidChild(toks, o, c)
    decreases j
  {
    if j == 0 {
      FirstElemAt(es, p, o);
    } else {
      ElemsValid(js, toks, es, p, o, j - 1);
      assert ElemReads(js, toks, es, p, o, j - 1);
      var v := ElemAt(es, p, o, j - 1);
      InsideValue(toks, v);
      hide ElemAt, PrintElems, Forest, ValueAt, End;
      assert ValidChild(toks, o, v);
      ChildInside(toks, o, v);
    }
  }

  lemma ArrayValid(js: string, toks: seq<Token>, es: seq<Json>, p: nat, o: nat)
    requires ElemsRead(js, toks, es, p, o)
    ensures ValidNode(toks, o, Array)
  {
    ElemsValid(js, toks, es, p, o, |es|);
    hide ElemAt, PrintElems, ValidChild, ElemReads;
    forall c | o < c < |toks| && toks[c].parent == o
      ensures ValidChild(toks, o, c)
    {
      ChildInside(toks, o, c);
    }
  }

  lemma {:induction false} WalksElems(js: string, toks: seq<Token>, es: seq<Json>, p: nat, o: nat, j: nat)
    requires ElemsRead(js, toks, es, p, o) && j <= |es|
    ensures Walked(toks, o, ElemAt(es, p, o, j), |es| - j)
    decreases j
  {
    if j == 0 {
      FirstElemAt(es, p, o);
      WalkStarts(toks, o);
    } else {
      WalksElems(js, toks, es, p, o, j - 1);
      assert ElemReads(js, toks, es, p, o, j - 1);
      hide Walked, ElemAt, PrintElems, Forest, ValueAt, End;
      WalkAdvances(toks, o, ElemAt(es, p, o, j - 1), |es| - j + 1);
    }
  }

  lemma ElemAheadIs(js: string, toks: seq<Token>, es: seq<Json>, p: nat, o: nat, j: nat)
    requires ElemsRead(js, toks, es, p, o) && ValidNode(toks, o, Array) && j < |es|
    requires Walked(toks, o, ElemAt(es, p, o, j), |es| - j) && Walked(toks, o, ElemAt(es, p, o, j + 1), |es| - j - 1)
    ensures ElemsAhead(js, toks, o, ElemAt(es, p, o, j), |es| - j)
            == [es[j]] + ElemsAhead(js, toks, o, ElemAt(es, p, o, j + 1), |es| - j - 1)
  {
    assert ElemReads(js, toks, es, p, o, j);
    hide Walked, ElemAt, PrintElems, Forest, ValueAt, End, ValidNode, ValidValue, WellShaped, Text;
  }

  lemma {:induction false} ElemsReadBack(js: string, toks: seq<Token>, es: seq<Json>, p: nat, o: nat, j: nat)
    requires ElemsRead(js, toks, es, p, o) && ValidNode(toks, o, Array) && j <= |es|
    requires Parsed(js, toks) && Walked(toks, o, ElemAt(es, p, o, j), |es| - j)
    ensures ElemsAhead(js, toks, o, ElemAt(es, p, o, j), |es| - j) == es[j..]
    decreases |es| - j
  {
    hide *;
    if j < |es| {
      WalksElems(js, toks, es, p, o, j + 1);
      ElemAheadIs(js, toks, es, p, o, j);
      ElemsReadBack(js, toks, es, p, o, j + 1);
      assert es[j..] == [es[j]] + es[j + 1..];
    }
  }

  lemma {:induction false} ReadArray(js: string, toks: seq<Token>, es: seq<Json>, p: nat, v: nat, k: int)
    requires Stands(js, toks, Arr(es), p, v, k)
    ensures Reads(js, toks, Arr(es), v)
    decreases es, 3
  {
    ArrayStands(js, toks, es, p, v, k);
    var q := p + 1;
    forall j | 0 <= j < |es|
      ensures ElemReads(js, toks, es, q, v, j)
    {
      ReadElem(js, toks, es, q, v, j);
    }
    hide ElemAt, PrintElems, Forest, End, ElemReads, Holds, Sits, Toks, Print, Printable;
    assert ElemsRead(js, toks, es, q, v);
    ArrayValid(js, toks, es, q, v);
    WalksElems(js, toks, es, q, v, 0);
    ElemsReadBack(js, toks, es, q, v, 0);
    FirstElemAt(es, q, v);
  }

  lemma ElemsFrom(js: string, toks: seq<Token>, es: seq<Json>, p: nat, o: nat)
    requires Parsed(js, toks) && Printable(Arr(es))
    requires Holds(js, p, PrintElems(es)) && Sits(toks, o + 1, ElemToks(es, p, o))
    requires var e := o + 1 + |ElemToks(es, p, o)|;
             e == |toks| || (e < |toks| && toks[e].parent < o)
    ensures ElemAt(es, p, o, |es|) == o + 1 + |ElemToks(es, p, o)|
    ensures ElemsStand(js, toks, es, p, o)
  {
    hide Parsed, Printable, Holds, PrintElems, Sits, ElemToks, Toks, Print;
    assert es[..|es|] == es;
  }

  lemma ArrayStands(js: string, toks: seq<Token>, es: seq<Json>, p: nat, v: nat, k: int)
    requires Stands(js, toks, Arr(es), p, v, k)
    ensures v < |toks| && toks[v].typ.Array? && toks[v].size == |es| && toks[v].end >= p + 1 + |PrintElems(es)|
    ensures ElemsStand(js, toks, es, p + 1, v) && Parsed(js, toks)
    ensures End(toks, v) == ElemAt(es, p + 1, v, |es|)
  {
    hide *;
    StandsParts(js, toks, Arr(es), p, v, k);
    ValueExtent(js, toks, Arr(es), p, v, k);
    ToksOfArray(es, p, v, k);
    SplitArray(js, p, es);
    SitsSplit(toks, v, [Token(Array, p, p + |Print(Arr(es))|, |es|, k)], ElemToks(es, p + 1, v));
    ElemsFrom(js, toks, es, p + 1, v);
  }
}
