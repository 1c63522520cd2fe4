/** What the generator prints, the tokenizer turns back into the same document.

    `Toks` says which tokens a document printed at a text position is to produce. The proof follows the
    document: a quoted string, a word and an opening bracket append one token each, a closing bracket
    finds the container that was opened last, and a member is a key, a colon and a value. States that a
    run passes through are related by `Reaches`. */
module JsonRoundTrip {
  import opened Jsmn
  import opened TokenForest
  import opened JsonTree
  import JsonGenerator
  import opened JsonPrint
  import opened JsonSpelling

  lemma HoldsChar(js: string, p: nat, c: char)
    requires Holds(js, p, [c])
    ensures p < |js| && js[p] == c
  {
    HoldsAt(js, p, [c]);
    assert js[p + 0] == [c][0];
  }

  function Quote(name: string): string {
    "\"" + name + "\""
  }

  // ---------------------------------------------------------------- expected tokens

  /** The tokens of a document printed at text position p, from token index base on. */
  ghost function Toks(d: Json, p: nat, base: nat, parent: int): (ts: seq<Token>)
    ensures |ts| > 0
    decreases d, 0
  {
    match d
    case Str(s) => [Token(String, p + 1, p + 1 + |s|, 0, parent)]
    case Prim(t) => [Token(Primitive, p, p + |t|, 0, parent)]
    case Obj(ms) => [Token(Object, p, p + |Print(d)|, |ms|, parent)] + MemberToks(ms, p + 1, base)
    case Arr(es) => [Token(Array, p, p + |Print(d)|, |es|, parent)] + ElemToks(es, p + 1, base)
  }

  /** The tokens of elements printed at p in the array with token index o. */
  ghost function ElemToks(es: seq<Json>, p: nat, o: nat): (ts: seq<Token>)
    decreases es, 1
  {
    if es == [] then []
    else
      var front, e := es[..|es| - 1], es[|es| - 1];
      var before := ElemToks(front, p, o);
      before + Toks(e, p + |PrintElems(front)| + |Separator(front)|, o + 1 + |before|, o)
  }

  /** The tokens of members printed at p in the object with token index o. */
  ghost function MemberToks(ms: seq<Member>, p: nat, o: nat): (ts: seq<Token>)
    decreases ms, 1
  {
    if ms == [] then []
    else
      var front, m := ms[..|ms| - 1], ms[|ms| - 1];
      var q := p + |PrintMembers(front)| + |Comma(front)|;
      MemberToks(front, p, o) + KeyToks(m, q, KeyIndex(front, p, o), o)
  }

  ghost function KeyToks(m: Member, q: nat, k: nat, o: nat): (ts: seq<Token>)
    ensures |ts| > 0
    decreases m, 0
  {
    [Token(String, q + 1, q + 1 + |m.name|, 1, o)] + Toks(m.value, q + |m.name| + 3, k + 1, k)
  }

  /** Token index of the key that comes after the members ms. */
  ghost function KeyIndex(ms: seq<Member>, p: nat, o: nat): nat
    decreases ms, 2
  {
    o + 1 + |MemberToks(ms, p, o)|
  }

  // ---------------------------------------------------------------- steps

  /** The run from s continues as the run from s'. */
  ghost predicate Reaches(js: string, cap: nat, s: State, s': State) {
    Inv(s) && Inv(s') && Run(js, s, cap) == Run(js, s', cap)
  }

  lemma Then(js: string, cap: nat, a: State, b: State, c: State)
    requires Reaches(js, cap, a, b) && Reaches(js, cap, b, c)
    ensures Reaches(js, cap, a, c)
  {
    hide Inv, Run;
  }

  lemma Stays(js: string, cap: nat, s: State)
    requires Inv(s)
    ensures Reaches(js, cap, s, s) && Sound(s)
  {
  }

  lemma Arrives(js: string, cap: nat, a: State, b: State)
    requires Reaches(js, cap, a, b)
    ensures Inv(b) && Sound(b)
  {
  }

  lemma OneStep(js: string, cap: nat, s: State)
    requires Inv(s) && s.pos < |js| && js[s.pos] != '\0' && Step(js, s, cap).Next?
    ensures Reaches(js, cap, s, Step(js, s, cap).st)
  {
    StepKeepsInv(js, s, cap);
  }

  lemma QuoteParts(js: string, p: nat, name: string)
    requires Holds(js, p, Quote(name))
    ensures Holds(js, p, "\"") && Holds(js, p + 1, name) && Holds(js, p + 1 + |name|, "\"")
  {
    assert Quote(name) == "\"" + (name + "\"");
    hide Holds, Quote;
    HoldsSplit(js, p, "\"", name + "\"");
    HoldsSplit(js, p + 1, name, "\"");
  }

  /** A quoted string becomes one token below the superior one. */
  lemma ParseQuoted(js: string, cap: nat, s: State, name: string)
    requires Inv(s) && StringSafe(name) && Holds(js, s.pos, Quote(name)) && |s.toks| < cap
    ensures Reaches(js, cap, s,
            Append(s, Token(String, s.pos + 1, s.pos + 1 + |name|, 0, s.super), s.pos + |name| + 2, s.super))
  {
    Stays(js, cap, s);
    QuoteParts(js, s.pos, name);
    HoldsChar(js, s.pos, '\"');
    StringStep(js, s, cap, name);
    hide Inv, Step, Linked, Append, Holds, StringSafe, Run, Reaches;
    OneStep(js, cap, s);
  }

  /** Where a value may stand that is no container: at a fresh key, or in an array. */
  ghost predicate TakesPrimitive(s: State)
    requires Sound(s)
  {
    s.super >= 0 && (s.toks[s.super].typ.Array? || (s.toks[s.super].typ.String? && s.toks[s.super].size == 0))
  }

  lemma ParseWord(js: string, cap: nat, s: State, w: string)
    requires Inv(s) && PrimitiveSafe(w) && Holds(js, s.pos, w) && |s.toks| < cap
    requires s.pos + |w| < |js| && EndsPrimitive(js[s.pos + |w|]) && TakesPrimitive(s)
    ensures Reaches(js, cap, s, Append(s, Token(Primitive, s.pos, s.pos + |w|, 0, s.super), s.pos + |w|, s.super))
  {
    Stays(js, cap, s);
    PrimitiveStep(js, s, cap, w);
    HoldsAt(js, s.pos, w);
    assert js[s.pos + 0] == w[0] != '\0';
    hide Inv, Step, Linked, Append, Run, Reaches, Holds, PrimitiveSafe, EndsPrimitive;
    OneStep(js, cap, s);
  }

  /** The walk of a closing bracket finds the innermost open container above it. */
  lemma {:induction false} CloseWalkFinds(toks: seq<Token>, i: nat, typ: TokenType, super: int, o: nat)
    requires Linked(toks) && o < |toks| && i < |toks| && Above(toks, o, i)
    requires Open(toks[o]) && toks[o].typ == typ
    requires forall k :: o < k < |toks| ==> !Open(toks[k])
    ensures CloseWalk(toks, i, typ, super) == Closes(o)
    decreases i
  {
    AboveBound(toks, o, i);
    if i != o {
      CloseWalkFinds(toks, toks[i].parent, typ, super, o);
    }
  }

  // ---------------------------------------------------------------- values

  /** The state after the value d has been read below s.super. */
  ghost function AfterValue(s: State, d: Json): State
    requires Sound(s)
  {
    State(s.pos + |Print(d)|, Bump(s.toks, s.super) + Toks(d, s.pos, |s.toks|, s.super), s.super)
  }

  /** The state after the members ms have been read in the object that was opened last. */
  ghost function AfterMembers(s: State, ms: seq<Member>): State
    requires Sound(s) && |s.toks| > 0 && s.super == |s.toks| - 1
  {
    var o := |s.toks| - 1;
    State(s.pos + |PrintMembers(ms)|,
          s.toks[o := s.toks[o].(size := |ms|)] + MemberToks(ms, s.pos, o),
          if ms == [] then o else KeyIndex(ms[..|ms| - 1], s.pos, o))
  }

  /** A fresh key or an array waits for a value, or the text starts with the root container. */
  ghost predicate ReadyFor(s: State, d: Json)
    requires Sound(s)
  {
    if s.super == -1 then d.Obj? || d.Arr? else TakesPrimitive(s)
  }

  predicate Delimited(js: string, p: nat) {
    p < |js| && (js[p] == ',' || js[p] == '}' || js[p] == ']')
  }

  lemma {:induction false} ParseValue(js: string, cap: nat, s: State, d: Json)
    requires Inv(s) && Printable(d) && Holds(js, s.pos, Print(d)) && ReadyFor(s, d)
    requires s.super >= 0 ==> Delimited(js, s.pos + |Print(d)|)
    requires |AfterValue(s, d).toks| <= cap
    ensures Reaches(js, cap, s, AfterValue(s, d))
    decreases d, 0
  {
    hide *;
    Stays(js, cap, s);
    LeafState(s, d);
    LeafReady(js, s, d);
    match d {
      case Str(t) =>
        ParseQuoted(js, cap, s, t);
      case Prim(w) =>
        ParseWord(js, cap, s, w);
      case Obj(ms) =>
        ParseObject(js, cap, s, ms);
      case Arr(es) =>
        ParseArray(js, cap, s, es);
    }
  }

  /** What a string or a primitive needs. */
  lemma LeafReady(js: string, s: State, d: Json)
    requires Sound(s) && Printable(d) && ReadyFor(s, d) && (s.super >= 0 ==> Delimited(js, s.pos + |Print(d)|))
    ensures d.Str? ==> StringSafe(d.text)
    ensures d.Prim? ==> PrimitiveSafe(d.text) && Print(d) == d.text && TakesPrimitive(s)
    ensures d.Prim? ==> s.pos + |d.text| < |js| && EndsPrimitive(js[s.pos + |d.text|])
  {
    hide StringSafe, PrimitiveSafe, Linked, PrintMembers, PrintElems;
  }

  /** A string or a word appends exactly its own token. */
  lemma LeafState(s: State, d: Json)
    requires Sound(s)
    ensures d.Str? || d.Prim? ==> |AfterValue(s, d).toks| == |s.toks| + 1
    ensures d.Str? ==> Print(d) == Quote(d.text)
    ensures d.Str? ==> AfterValue(s, d) == Append(
        s, Token(String, s.pos + 1, s.pos + 1 + |d.text|, 0, s.super), s.pos + |d.text| + 2, s.super)
    ensures d.Prim? ==> AfterValue(s, d) == Append(
        s, Token(Primitive, s.pos, s.pos + |d.text|, 0, s.super), s.pos + |d.text|, s.super)
  {
    hide Linked, MemberToks, PrintMembers, ElemToks, PrintElems;
  }

  /** The state behind the opening bracket of a container. */
  ghost function Opened(s: State, typ: TokenType): State
    requires Sound(s)
  {
    Append(s, Token(typ, s.pos, -1, 0, s.super), s.pos + 1, |s.toks|)
  }

  lemma OpenContainer(js: string, cap: nat, s: State, typ: TokenType)
    requires Inv(s) && Container(typ) && Holds(js, s.pos, if typ.Object? then "{" else "[") && |s.toks| < cap
    ensures Reaches(js, cap, s, Opened(s, typ))
    ensures var s1 := Opened(s, typ);
            |s1.toks| > 0 && s1.super == |s.toks| == |s1.toks| - 1
                && s1.toks[s1.super] == Token(typ, s.pos, -1, 0, s.super)
  {
    HoldsChar(js, s.pos, if typ.Object? then '{' else '[');
    hide Inv;
    OneStep(js, cap, s);
  }

  lemma OpenIs(p: nat, parent: int)
    ensures Open(Token(Object, p, -1, 0, parent)) && Open(Token(Array, p, -1, 0, parent))
    ensures Container(Object) && Container(Array)
  {
  }

  lemma SplitObject(js: string, p: nat, ms: seq<Member>)
    requires Holds(js, p, Print(Obj(ms)))
    ensures Holds(js, p, "{") && Holds(js, p + 1, PrintMembers(ms)) && Holds(js, p + 1 + |PrintMembers(ms)|, "}")
    ensures Delimited(js, p + 1 + |PrintMembers(ms)|)
    ensures |Print(Obj(ms))| == |PrintMembers(ms)| + 2
  {
    var body := PrintMembers(ms);
    assert "{" + (body + "}") == Print(Obj(ms));
    hide Holds, PrintMembers, Print;
    HoldsSplit(js, p, "{", body + "}");
    HoldsSplit(js, p + 1, body, "}");
    HoldsChar(js, p + 1 + |body|, '}');
  }

  lemma ToksOfObject(ms: seq<Member>, p: nat, base: nat, parent: int)
    ensures Toks(Obj(ms), p, base, parent)
            == [Token(Object, p, p + |Print(Obj(ms))|, |ms|, parent)] + MemberToks(ms, p + 1, base)
  {
    hide MemberToks, KeyToks, KeyIndex, Print, PrintMembers, PrintMember;
  }

  lemma ToksOfMembers(ms: seq<Member>, p: nat, o: nat)
    requires ms != []
    ensures var front := ms[..|ms| - 1];
            MemberToks(ms, p, o) == MemberToks(front, p, o)
              + KeyToks(ms[|ms| - 1], p + |PrintMembers(front)| + |Comma(front)|, KeyIndex(front, p, o), o)
  {
    hide Toks, KeyToks, KeyIndex, Print, PrintMembers, PrintMember;
  }

  /** The tokens of the finished object: those behind its bracket, the bracket closed. */
  lemma ObjectToks(s: State, ms: seq<Member>)
    requires Sound(s) && |Print(Obj(ms))| == |PrintMembers(ms)| + 2
    ensures var s2, o := AfterMembers(Opened(s, Object), ms), |s.toks|;
            && |AfterValue(s, Obj(ms)).toks| == |s2.toks|
            && s2.toks[o] == Token(Object, s.pos, -1, |ms|, s.super)
            && AfterValue(s, Obj(ms)) == State(s2.pos + 1, s2.toks[o := s2.toks[o].(end := s2.pos + 1)], s.super)
  {
    var o := |s.toks|;
    var head := Token(Object, s.pos, s.pos + |Print(Obj(ms))|, |ms|, s.super);
    hide Toks, MemberToks, KeyToks, Print, PrintMembers, KeyIndex, Linked;
    ToksOfObject(ms, s.pos, o, s.super);
    var s1 := Opened(s, Object);
    assert s1.toks[o := s1.toks[o].(size := |ms|)] == Bump(s.toks, s.super) + [head.(end := -1)];
  }

  lemma {:induction false} ParseObject(js: string, cap: nat, s: State, ms: seq<Member>)
    requires Inv(s) && Printable(Obj(ms)) && Holds(js, s.pos, Print(Obj(ms)))
    requires |AfterValue(s, Obj(ms)).toks| <= cap
    ensures Reaches(js, cap, s, AfterValue(s, Obj(ms)))
    decreases ms, 5
  {
    hide *;
    Stays(js, cap, s);
    SplitObject(js, s.pos, ms);
    ObjectToks(s, ms);
    OpenedFits(s, Object);
    MembersFit(Opened(s, Object), ms);
    OpenIs(s.pos, s.super);
    OpenContainer(js, cap, s, Object);
    Arrives(js, cap, s, Opened(s, Object));
    ParseMembers(js, cap, Opened(s, Object), ms);
    Arrives(js, cap, Opened(s, Object), AfterMembers(Opened(s, Object), ms));
    CloseObject(js, cap, s, ms);
    Then(js, cap, s, Opened(s, Object), AfterMembers(Opened(s, Object), ms));
    Then(js, cap, s, AfterMembers(Opened(s, Object), ms), AfterValue(s, Obj(ms)));
  }

  /** Behind the members only the object itself is open. */
  lemma MembersLeaveOpen(s: State, ms: seq<Member>)
    requires Sound(s)
    ensures var s2, o := AfterMembers(Opened(s, Object), ms), |s.toks|;
            && o < |s2.toks| && Open(s2.toks[o]) && s2.toks[o].typ.Object? && s2.toks[o].parent == s.super
            && forall k :: o < k < |s2.toks| ==> !Open(s2.toks[k])
  {
    MembersClosed(ms, s.pos + 1, |s.toks|);
    hide MemberToks, PrintMembers, KeyIndex;
  }

  lemma CloseStep(js: string, cap: nat, s: State, o: nat, typ: TokenType)
    requires Inv(s) && s.pos < |js| && (typ.Object? || typ.Array?) && js[s.pos] == (if typ.Object? then '}' else ']')
    requires o < |s.toks| && CloseWalk(s.toks, |s.toks| - 1, typ, s.super) == Closes(o)
    ensures Reaches(js, cap, s, State(s.pos + 1, s.toks[o := s.toks[o].(end := s.pos + 1)], s.toks[o].parent))
  {
    hide Inv, CloseWalk;
    OneStep(js, cap, s);
  }

  /** The closing bracket of the object whose members were just read. */
  lemma CloseObject(js: string, cap: nat, s: State, ms: seq<Member>)
    requires Sound(s) && Inv(AfterMembers(Opened(s, Object), ms)) && Holds(js, s.pos, Print(Obj(ms)))
    ensures Reaches(js, cap, AfterMembers(Opened(s, Object), ms), AfterValue(s, Obj(ms)))
  {
    hide *;
    OpenedFits(s, Object);
    MembersFit(Opened(s, Object), ms);
    var s2 := AfterMembers(Opened(s, Object), ms);
    SplitObject(js, s.pos, ms);
    HoldsChar(js, s2.pos, '}');
    ObjectToks(s, ms);
    MembersLeaveOpen(s, ms);
    OnlyOpen(s2, |s.toks|, Object);
    CloseStep(js, cap, s2, |s.toks|, Object);
  }

  /** A closing bracket finds the only container that is open from o on. */
  lemma OnlyOpen(s: State, o: nat, typ: TokenType)
    requires Inv(s) && o < |s.toks| && Open(s.toks[o]) && s.toks[o].typ == typ
    requires forall k :: o < k < |s.toks| ==> !Open(s.toks[k])
    ensures CloseWalk(s.toks, |s.toks| - 1, typ, s.super) == Closes(o)
  {
    var last := |s.toks| - 1;
    AboveBound(s.toks, s.super, last);
    AboveTransitive(s.toks, o, s.super, last);
    CloseWalkFinds(s.toks, last, typ, s.super, o);
  }

  lemma {:induction false} MembersClosed(ms: seq<Member>, p: nat, o: nat)
    ensures forall i :: 0 <= i < |MemberToks(ms, p, o)| ==> MemberToks(ms, p, o)[i].end >= 0
    decreases ms, 1
  {
    if ms != [] {
      var front, m := ms[..|ms| - 1], ms[|ms| - 1];
      var q := p + |PrintMembers(front)| + |Comma(front)|;
      MembersClosed(front, p, o);
      var k := KeyIndex(front, p, o);
      ValueClosed(m.value, q + |m.name| + 3, k + 1, k);
      ToksOfMembers(ms, p, o);
      hide MemberToks, Toks;
    }
  }

  lemma {:induction false} ValueClosed(d: Json, p: nat, base: nat, parent: int)
    ensures forall i :: 0 <= i < |Toks(d, p, base, parent)| ==> Toks(d, p, base, parent)[i].end >= 0
    decreases d, 0
  {
    if d.Obj? {
      MembersClosed(d.members, p + 1, base);
    } else if d.Arr? {
      ElemsClosed(d.elems, p + 1, base);
    }
  }

  lemma {:induction false} ElemsClosed(es: seq<Json>, p: nat, o: nat)
    ensures forall i :: 0 <= i < |ElemToks(es, p, o)| ==> ElemToks(es, p, o)[i].end >= 0
    decreases es, 1
  {
    if es != [] {
      var front, e := es[..|es| - 1], es[|es| - 1];
      ElemsClosed(front, p, o);
      ValueClosed(e, p + |PrintElems(front)| + |Separator(front)|, o + 1 + |ElemToks(front, p, o)|, o);
      ToksOfElems(es, p, o);
      hide ElemToks, Toks;
    }
  }

  /** Ready to read the next member of object o: directly behind its bracket, or behind a
      value, where the superior token is the previous key and a comma comes first. */
  ghost predicate BetweenMembers(s: State, o: nat, comma: string)
    requires Sound(s)
  {
    && o < |s.toks| && s.toks[o].typ.Object? && 0 <= s.super
    && if comma == "" then s.super == o
       else comma == "," && s.toks[s.super].typ.String? && s.toks[s.super].parent == o
  }

  ghost function AfterMember(s: State, o: nat, comma: string, m: Member): State
    requires Sound(s) && o < |s.toks|
  {
    var q := s.pos + |comma|;
    State(q + |PrintMember(m)|, Bump(s.toks, o) + KeyToks(m, q, |s.toks|, o), |s.toks|)
  }

  lemma SkipComma(js: string, cap: nat, s: State, o: nat, comma: string)
    requires Inv(s) && BetweenMembers(s, o, comma) && Holds(js, s.pos, comma)
    ensures Reaches(js, cap, s, State(s.pos + |comma|, s.toks, o))
  {
    hide Inv;
    if comma != "" {
      assert js[s.pos] == js[s.pos..s.pos + 1][0] == ',';
      OneStep(js, cap, s);
    }
  }

  lemma SkipColon(js: string, cap: nat, s: State)
    requires Inv(s) && Holds(js, s.pos, ":")
    ensures Reaches(js, cap, s, State(s.pos + 1, s.toks, |s.toks| - 1))
  {
    assert js[s.pos] == js[s.pos..s.pos + 1][0] == ':';
    hide Inv;
    OneStep(js, cap, s);
  }

  lemma SplitMember(js: string, p: nat, m: Member)
    requires Holds(js, p, PrintMember(m))
    ensures Holds(js, p, Quote(m.name)) && Holds(js, p + |m.name| + 2, ":")
    ensures Holds(js, p + |m.name| + 3, Print(m.value)) && |PrintMember(m)| == |m.name| + 3 + |Print(m.value)|
  {
    assert PrintMember(m) == Quote(m.name) + (":" + Print(m.value));
    hide Holds, PrintMember, Print;
    HoldsSplit(js, p, Quote(m.name), ":" + Print(m.value));
    HoldsSplit(js, p + |m.name| + 2, ":", Print(m.value));
  }

  /** The state behind the colon of a member. */
  ghost function AwaitingValue(s: State, o: nat, comma: string, m: Member): State
    requires Sound(s) && o < |s.toks|
  {
    var q := s.pos + |comma|;
    var key := Token(String, q + 1, q + 1 + |m.name|, 0, o);
    State(q + |m.name| + 3, Append(State(q, s.toks, o), key, q + |m.name| + 2, o).toks, |s.toks|)
  }

  lemma MemberState(s: State, o: nat, comma: string, m: Member)
    requires Sound(s) && o < |s.toks|
    ensures var s4 := AwaitingValue(s, o, comma, m);
            Sound(s4) && ReadyFor(s4, m.value) && AfterValue(s4, m.value) == AfterMember(s, o, comma, m)
            && |s4.toks| <= |AfterMember(s, o, comma, m).toks| && s4.pos == s.pos + |comma| + |m.name| + 3
            && |s.toks| < |s4.toks|
  {
    var q, k := s.pos + |comma|, |s.toks|;
    var key := Token(String, q + 1, q + 1 + |m.name|, 0, o);
    var s4 := AwaitingValue(s, o, comma, m);
    assert |PrintMember(m)| == |m.name| + 3 + |Print(m.value)|;
    assert Bump(s4.toks, k) == Bump(s.toks, o) + [key.(size := 1)];
  }

  lemma InsideObject(s: State, o: nat, comma: string)
    requires Sound(s) && BetweenMembers(s, o, comma)
    ensures o < |s.toks|
  {
  }

  lemma KeyState(s: State, o: nat, comma: string, m: Member)
    requires Sound(s) && o < |s.toks|
    ensures var q := s.pos + |comma|;
            var s3 := Append(State(q, s.toks, o), Token(String, q + 1, q + 1 + |m.name|, 0, o), q + |m.name| + 2, o);
            AwaitingValue(s, o, comma, m) == State(s3.pos + 1, s3.toks, |s3.toks| - 1)
  {
    hide Append, Linked;
  }

  /** Separator, key and colon. */
  lemma ParseKey(js: string, cap: nat, s: State, o: nat, comma: string, m: Member)
    requires Inv(s) && BetweenMembers(s, o, comma) && StringSafe(m.name) && |s.toks| < cap
    requires Holds(js, s.pos, comma) && Holds(js, s.pos + |comma|, Quote(m.name))
    requires Holds(js, s.pos + |comma| + |m.name| + 2, ":")
    ensures Reaches(js, cap, s, AwaitingValue(s, o, comma, m))
  {
    hide *;
    Stays(js, cap, s);
    var q := s.pos + |comma|;
    InsideObject(s, o, comma);
    var s2 := State(q, s.toks, o);
    var s3 := Append(s2, Token(String, q + 1, q + 1 + |m.name|, 0, o), q + |m.name| + 2, o);
    KeyState(s, o, comma, m);
    SkipComma(js, cap, s, o, comma);
    Arrives(js, cap, s, s2);
    ParseQuoted(js, cap, s2, m.name);
    Arrives(js, cap, s2, s3);
    SkipColon(js, cap, s3);
    Then(js, cap, s, s2, s3);
    Then(js, cap, s, s3, AwaitingValue(s, o, comma, m));
  }

  lemma {:induction false} ParseMember(js: string, cap: nat, s: State, o: nat, comma: string, m: Member)
    requires Inv(s) && BetweenMembers(s, o, comma) && StringSafe(m.name) && Printable(m.value)
    requires Holds(js, s.pos, comma) && Holds(js, s.pos + |comma|, PrintMember(m))
    requires Delimited(js, s.pos + |comma| + |PrintMember(m)|)
    requires |AfterMember(s, o, comma, m).toks| <= cap
    ensures Reaches(js, cap, s, AfterMember(s, o, comma, m))
    decreases m, 1
  {
    hide *;
    Stays(js, cap, s);
    InsideObject(s, o, comma);
    MemberState(s, o, comma, m);
    SplitMember(js, s.pos + |comma|, m);
    var s4 := AwaitingValue(s, o, comma, m);
    ParseKey(js, cap, s, o, comma, m);
    Arrives(js, cap, s, s4);
    ParseValue(js, cap, s4, m.value);
    Then(js, cap, s, s4, AfterMember(s, o, comma, m));
  }

  /** The last key among the tokens of members. */
  lemma LastKey(ms: seq<Member>, p: nat, o: nat)
    requires ms != []
    ensures var i := |MemberToks(ms[..|ms| - 1], p, o)|;
            i < |MemberToks(ms, p, o)| && MemberToks(ms, p, o)[i].typ.String? && MemberToks(ms, p, o)[i].parent == o
  {
  }

  lemma OpenedFits(s: State, typ: TokenType)
    requires Sound(s)
    ensures Sound(Opened(s, typ)) && |Opened(s, typ).toks| == |s.toks| + 1
    ensures Opened(s, typ).pos == s.pos + 1 && Opened(s, typ).super == |s.toks|
  {
  }

  lemma MembersFit(s: State, ms: seq<Member>)
    requires Sound(s) && |s.toks| > 0 && s.super == |s.toks| - 1
    ensures AfterMembers(s, ms).pos == s.pos + |PrintMembers(ms)| && |AfterMembers(s, ms).toks| >= |s.toks|
    ensures ms != [] ==> |AfterMembers(s, ms[..|ms| - 1]).toks| <= |AfterMembers(s, ms).toks|
  {
    if ms != [] {
      ToksOfMembers(ms, s.pos, |s.toks| - 1);
    }
    hide MemberToks;
  }

  lemma NoMembers(s: State)
    requires Sound(s) && |s.toks| > 0 && s.super == |s.toks| - 1 && s.toks[s.super].size == 0
    ensures AfterMembers(s, []) == s
  {
  }

  lemma MembersBetween(s: State, front: seq<Member>)
    requires Sound(s) && |s.toks| > 0 && s.super == |s.toks| - 1 && s.toks[s.super].typ.Object?
    requires Sound(AfterMembers(s, front))
    ensures BetweenMembers(AfterMembers(s, front), |s.toks| - 1, Comma(front))
  {
    hide MemberToks, PrintMembers, Linked;
    if front != [] {
      LastKey(front, s.pos, |s.toks| - 1);
    }
  }

  lemma BumpUpdated(toks: seq<Token>, n: nat, more: seq<Token>)
    requires toks != []
    ensures var o := |toks| - 1;
            Bump(toks[o := toks[o].(size := n)] + more, o) == toks[o := toks[o].(size := n + 1)] + more
  {
  }

  lemma MembersSnoc(s: State, ms: seq<Member>)
    requires Sound(s) && |s.toks| > 0 && s.super == |s.toks| - 1 && s.toks[s.super].size == 0 && ms != []
    requires Sound(AfterMembers(s, ms[..|ms| - 1]))
    ensures AfterMember(AfterMembers(s, ms[..|ms| - 1]), |s.toks| - 1, Comma(ms[..|ms| - 1]), ms[|ms| - 1])
            == AfterMembers(s, ms)
  {
    hide Linked, MemberToks, KeyToks, PrintMembers, PrintMember, Comma, Bump;
    var front, m := ms[..|ms| - 1], ms[|ms| - 1];
    var o := |s.toks| - 1;
    LastPrinted(ms);
    ToksOfMembers(ms, s.pos, o);
    BumpUpdated(s.toks, |front|, MemberToks(front, s.pos, o));
    var q := s.pos + |PrintMembers(front)| + |Comma(front)|;
    Assoc(s.toks[o := s.toks[o].(size := |ms|)], MemberToks(front, s.pos, o),
        KeyToks(m, q, KeyIndex(front, s.pos, o), o));
  }

  lemma Assoc<T>(a: seq<T>, b: seq<T>, c: seq<T>)
    ensures a + b + c == a + (b + c)
  {
  }

  lemma SplitMembers(js: string, p: nat, ms: seq<Member>)
    requires ms != [] && Holds(js, p, PrintMembers(ms))
    ensures var front := ms[..|ms| - 1];
            var q := p + |PrintMembers(front)|;
            && Holds(js, p, PrintMembers(front)) && Holds(js, q, Comma(front))
            && Holds(js, q + |Comma(front)|, PrintMember(ms[|ms| - 1]))
            && (front != [] ==> Delimited(js, q))
            && p + |PrintMembers(ms)| == q + |Comma(front)| + |PrintMember(ms[|ms| - 1])|
  {
    var front, m := ms[..|ms| - 1], ms[|ms| - 1];
    LastPrinted(ms);
    hide PrintMembers, PrintMember;
    HoldsSplit(js, p, PrintMembers(front) + Comma(front), PrintMember(m));
    HoldsSplit(js, p, PrintMembers(front), Comma(front));
    if front != [] {
      HoldsChar(js, p + |PrintMembers(front)|, ',');
    }
  }

  lemma {:induction false} ParseMembers(js: string, cap: nat, s: State, ms: seq<Member>)
    requires Inv(s) && |s.toks| > 0 && s.super == |s.toks| - 1
    requires s.toks[s.super].typ.Object? && s.toks[s.super].size == 0 && Open(s.toks[s.super])
    requires Printable(Obj(ms)) && Holds(js, s.pos, PrintMembers(ms))
    requires ms != [] ==> Delimited(js, s.pos + |PrintMembers(ms)|)
    requires |AfterMembers(s, ms).toks| <= cap
    ensures Reaches(js, cap, s, AfterMembers(s, ms))
    decreases ms, 4
  {
    hide *;
    Stays(js, cap, s);
    if ms == [] {
      NoMembers(s);
    } else {
      var front, m := ms[..|ms| - 1], ms[|ms| - 1];
      var o := |s.toks| - 1;
      LastMember(ms);
      MembersFit(s, ms);
      MembersFit(s, front);
      SplitMembers(js, s.pos, ms);
      ParseMembers(js, cap, s, front);
      var s1 := AfterMembers(s, front);
      Arrives(js, cap, s, s1);
      MembersBetween(s, front);
      MembersSnoc(s, ms);
      ParseMember(js, cap, s1, o, Comma(front), m);
      Then(js, cap, s, s1, AfterMembers(s, ms));
    }
  }

  // ---------------------------------------------------------------- arrays

  lemma ToksOfArray(es: seq<Json>, p: nat, base: nat, parent: int)
    ensures Toks(Arr(es), p, base, parent)
            == [Token(Array, p, p + |Print(Arr(es))|, |es|, parent)] + ElemToks(es, p + 1, base)
  {
    hide ElemToks, Print, PrintElems;
  }

  lemma ToksOfElems(es: seq<Json>, p: nat, o: nat)
    requires es != []
    ensures var front := es[..|es| - 1];
            var before := ElemToks(front, p, o);
            ElemToks(es, p, o) == before
              + Toks(es[|es| - 1], p + |PrintElems(front)| + |Separator(front)|, o + 1 + |before|, o)
  {
    hide Toks, Print, PrintElems;
  }

  /** The state after the elements es have been read in the array that was opened last. */
  ghost function AfterElems(s: State, es: seq<Json>): State
    requires Sound(s) && |s.toks| > 0 && s.super == |s.toks| - 1
  {
    var o := |s.toks| - 1;
    State(s.pos + |PrintElems(es)|, s.toks[o := s.toks[o].(size := |es|)] + ElemToks(es, s.pos, o), o)
  }

  lemma SplitArray(js: string, p: nat, es: seq<Json>)
    requires Holds(js, p, Print(Arr(es)))
    ensures Holds(js, p, "[") && Holds(js, p + 1, PrintElems(es)) && Holds(js, p + 1 + |PrintElems(es)|, "]")
    ensures Delimited(js, p + 1 + |PrintElems(es)|)
    ensures |Print(Arr(es))| == |PrintElems(es)| + 2
  {
    var body := PrintElems(es);
    assert "[" + (body + "]") == Print(Arr(es));
    hide Holds, PrintElems, Print;
    HoldsSplit(js, p, "[", body + "]");
    HoldsSplit(js, p + 1, body, "]");
    HoldsChar(js, p + 1 + |body|, ']');
  }

  /** The tokens of the finished array: those behind its bracket, the bracket closed. */
  lemma ArrayToks(s: State, es: seq<Json>)
    requires Sound(s) && |Print(Arr(es))| == |PrintElems(es)| + 2
    ensures var s2, o := AfterElems(Opened(s, Array), es), |s.toks|;
            && |AfterValue(s, Arr(es)).toks| == |s2.toks|
            && s2.toks[o] == Token(Array, s.pos, -1, |es|, s.super)
            && AfterValue(s, Arr(es)) == State(s2.pos + 1, s2.toks[o := s2.toks[o].(end := s2.pos + 1)], s.super)
  {
    var o := |s.toks|;
    var head := Token(Array, s.pos, s.pos + |Print(Arr(es))|, |es|, s.super);
    hide Toks, ElemToks, Print, PrintElems, Linked;
    ToksOfArray(es, s.pos, o, s.super);
    var s1 := Opened(s, Array);
    assert s1.toks[o := s1.toks[o].(size := |es|)] == Bump(s.toks, s.super) + [head.(end := -1)];
  }

  lemma {:induction false} ParseArray(js: string, cap: nat, s: State, es: seq<Json>)
    requires Inv(s) && Printable(Arr(es)) && Holds(js, s.pos, Print(Arr(es)))
    requires |AfterValue(s, Arr(es)).toks| <= cap
    ensures Reaches(js, cap, s, AfterValue(s, Arr(es)))
    decreases es, 5
  {
    hide *;
    Stays(js, cap, s);
    SplitArray(js, s.pos, es);
    ArrayToks(s, es);
    OpenedFits(s, Array);
    ElemsFit(Opened(s, Array), es);
    OpenIs(s.pos, s.super);
    OpenContainer(js, cap, s, Array);
    Arrives(js, cap, s, Opened(s, Array));
    ParseElems(js, cap, Opened(s, Array), es);
    Arrives(js, cap, Opened(s, Array), AfterElems(Opened(s, Array), es));
    CloseArray(js, cap, s, es);
    Then(js, cap, s, Opened(s, Array), AfterElems(Opened(s, Array), es));
    Then(js, cap, s, AfterElems(Opened(s, Array), es), AfterValue(s, Arr(es)));
  }

  /** Behind the elements only the array itself is open. */
  lemma ElemsLeaveOpen(s: State, es: seq<Json>)
    requires Sound(s)
    ensures var s2, o := AfterElems(Opened(s, Array), es), |s.toks|;
            && o < |s2.toks| && Open(s2.toks[o]) && s2.toks[o].typ.Array? && s2.toks[o].parent == s.super
            && forall k :: o < k < |s2.toks| ==> !Open(s2.toks[k])
  {
    ElemsClosed(es, s.pos + 1, |s.toks|);
    hide ElemToks, PrintElems;
  }

  /** The closing bracket of the array whose elements were just read. */
  lemma CloseArray(js: string, cap: nat, s: State, es: seq<Json>)
    requires Sound(s) && Inv(AfterElems(Opened(s, Array), es)) && Holds(js, s.pos, Print(Arr(es)))
    ensures Reaches(js, cap, AfterElems(Opened(s, Array), es), AfterValue(s, Arr(es)))
  {
    hide *;
    OpenedFits(s, Array);
    ElemsFit(Opened(s, Array), es);
    var s2 := AfterElems(Opened(s, Array), es);
    SplitArray(js, s.pos, es);
    HoldsChar(js, s2.pos, ']');
    ArrayToks(s, es);
    ElemsLeaveOpen(s, es);
    OnlyOpen(s2, |s.toks|, Array);
    CloseStep(js, cap, s2, |s.toks|, Array);
  }

  lemma ElemsFit(s: State, es: seq<Json>)
    requires Sound(s) && |s.toks| > 0 && s.super == |s.toks| - 1
    ensures AfterElems(s, es).pos == s.pos + |PrintElems(es)| && |AfterElems(s, es).toks| >= |s.toks|
    ensures es != [] ==> |AfterElems(s, es[..|es| - 1]).toks| <= |AfterElems(s, es).toks|
  {
    if es != [] {
      ToksOfElems(es, s.pos, |s.toks| - 1);
    }
    hide ElemToks;
  }

  lemma NoElems(s: State)
    requires Sound(s) && |s.toks| > 0 && s.super == |s.toks| - 1 && s.toks[s.super].size == 0
    ensures AfterElems(s, []) == s
  {
  }

  lemma SplitElems(js: string, p: nat, es: seq<Json>)
    requires es != [] && Holds(js, p, PrintElems(es))
    ensures var front := es[..|es| - 1];
            var q := p + |PrintElems(front)|;
            && Holds(js, p, PrintElems(front)) && Holds(js, q, Separator(front))
            && Holds(js, q + |Separator(front)|, Print(es[|es| - 1]))
            && (front != [] ==> Delimited(js, q))
            && p + |PrintElems(es)| == q + |Separator(front)| + |Print(es[|es| - 1])|
  {
    var front, e := es[..|es| - 1], es[|es| - 1];
    LastElem(es);
    hide PrintElems, Print;
    HoldsSplit(js, p, PrintElems(front) + Separator(front), Print(e));
    HoldsSplit(js, p, PrintElems(front), Separator(front));
    if front != [] {
      HoldsChar(js, p + |PrintElems(front)|, ',');
    }
  }

  /** A comma in an array leaves the array the superior token. */
  lemma SkipSeparator(js: string, cap: nat, s: State, comma: string)
    requires Inv(s) && s.super >= 0 && s.toks[s.super].typ.Array? && (comma == "" || comma == ",")
    requires Holds(js, s.pos, comma)
    ensures Reaches(js, cap, s, s.(pos := s.pos + |comma|))
  {
    if comma == "," {
      HoldsChar(js, s.pos, ',');
      hide Inv;
      OneStep(js, cap, s);
    }
  }

  lemma ElemsSnoc(s: State, es: seq<Json>)
    requires Sound(s) && |s.toks| > 0 && s.super == |s.toks| - 1 && s.toks[s.super].size == 0 && es != []
    requires s.toks[s.super].typ.Array?
    ensures var front := es[..|es| - 1];
            var s1 := AfterElems(s, front);
            var s2 := s1.(pos := s1.pos + |Separator(front)|);
            && s1.super >= 0 && s1.super < |s1.toks| && s1.toks[s1.super].typ.Array?
            && (Sound(s2) ==> ReadyFor(s2, es[|es| - 1]) && AfterValue(s2, es[|es| - 1]) == AfterElems(s, es))
  {
    var front, e := es[..|es| - 1], es[|es| - 1];
    var o := |s.toks| - 1;
    LastElem(es);
    ToksOfElems(es, s.pos, o);
    BumpUpdated(s.toks, |front|, ElemToks(front, s.pos, o));
    var q := s.pos + |PrintElems(front)| + |Separator(front)|;
    Assoc(s.toks[o := s.toks[o].(size := |es|)], ElemToks(front, s.pos, o),
        Toks(e, q, o + 1 + |ElemToks(front, s.pos, o)|, o));
    hide Linked, ElemToks, Toks, PrintElems, Print, Bump, Separator;
  }

  lemma {:induction false} ParseElems(js: string, cap: nat, s: State, es: seq<Json>)
    requires Inv(s) && |s.toks| > 0 && s.super == |s.toks| - 1
    requires s.toks[s.super].typ.Array? && s.toks[s.super].size == 0 && Open(s.toks[s.super])
    requires Printable(Arr(es)) && Holds(js, s.pos, PrintElems(es))
    requires es != [] ==> Delimited(js, s.pos + |PrintElems(es)|)
    requires |AfterElems(s, es).toks| <= cap
    ensures Reaches(js, cap, s, AfterElems(s, es))
    decreases es, 4
  {
    hide *;
    Stays(js, cap, s);
    if es == [] {
      NoElems(s);
    } else {
      var front, e := es[..|es| - 1], es[|es| - 1];
      LastElem(es);
      ElemsFit(s, es);
      ElemsFit(s, front);
      SplitElems(js, s.pos, es);
      ParseElems(js, cap, s, front);
      var s1 := AfterElems(s, front);
      Arrives(js, cap, s, s1);
      ElemsSnoc(s, es);
      var s2 := s1.(pos := s1.pos + |Separator(front)|);
      SeparatorIs(front);
      SkipSeparator(js, cap, s1, Separator(front));
      Arrives(js, cap, s1, s2);
      ParseValue(js, cap, s2, e);
      Then(js, cap, s, s1, s2);
      Then(js, cap, s, s2, AfterElems(s, es));
    }
  }

  lemma SeparatorIs(es: seq<Json>)
    ensures Separator(es) == "" || Separator(es) == ","
  {
  }
}
