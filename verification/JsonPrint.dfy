/** Documents as the generator builds them: the calls that print a document, and its text. */
module JsonPrint {
  import opened JsonTree
  import opened JsonGenerator
  import opened JsonSpelling

  /** Documents whose strings and primitives are spelled correctly. */
  ghost predicate Printable(d: Json)
    decreases d
  {
    match d
    case Str(s) => StringSafe(s)
    case Prim(p) => PrimitiveSafe(p)
    case Obj(ms) => forall i :: 0 <= i < |ms| ==> StringSafe(ms[i].name) && Printable(ms[i].value)
    case Arr(es) => forall i :: 0 <= i < |es| ==> Printable(es[i])
  }

  /** What start/push/set-string/set-bool/set-null/close can build. */
  ghost predicate Buildable(d: Json)
    decreases d
  {
    match d
    case Str(s) => StringSafe(s)
    case Prim(p) => p == "true" || p == "false" || p == "null"
    case Obj(ms) => forall i :: 0 <= i < |ms| ==> StringSafe(ms[i].name) && Buildable(ms[i].value)
    case Arr(_) => false
  }

  function Print(d: Json): (t: string)
    decreases d, 0
  {
    match d
    case Str(s) => "\"" + s + "\""
    case Prim(p) => p
    case Obj(ms) => "{" + PrintMembers(ms) + "}"
    case Arr(es) => "[" + PrintElems(es) + "]"
  }

  function PrintElems(es: seq<Json>): (t: string)
    decreases es, 1
  {
    if es == [] then ""
    else
      var n := |es| - 1;
      PrintElems(es[..n]) + (if n == 0 then "" else ",") + Print(es[n])
  }

  function PrintMembers(ms: seq<Member>): (t: string)
    decreases ms, 1
  {
    if ms == [] then ""
    else
      var n := |ms| - 1;
      PrintMembers(ms[..n]) + (if n == 0 then "" else ",") + PrintMember(ms[n])
  }

  function PrintMember(m: Member): (t: string)
    decreases m, 0
  {
    Key(m.name) + Print(m.value)
  }

  lemma {:induction false} BuildableIsPrintable(d: Json)
    requires Buildable(d)
    ensures Printable(d)
    decreases d
  {
    hide StringSafe;
    if d.Prim? {
      WordsAreSafe();
    } else if d.Obj? {
      forall i | 0 <= i < |d.members|
        ensures Printable(d.members[i].value)
      {
        BuildableIsPrintable(d.members[i].value);
      }
    }
  }

  lemma WordsAreSafe()
    ensures PrimitiveSafe("true") && PrimitiveSafe("false") && PrimitiveSafe("null")
  {
    assert forall c <- "true" :: PrimitiveChar(c);
    assert forall c <- "false" :: PrimitiveChar(c);
    assert forall c <- "null" :: PrimitiveChar(c);
  }

  /** Calls of strings that contain no end of string. */
  lemma SafeNoNul(s: string)
    requires StringSafe(s)
    ensures NoNul(s)
  {
    var items :| AllFormed(items) && Spell(items) == s;
    SpelledNoNul(items);
  }

  lemma {:induction false} SpelledNoNul(items: seq<Item>)
    requires AllFormed(items)
    ensures NoNul(Spell(items))
  {
    if items != [] {
      FirstItem(items);
      ItemNoNul(items[0]);
      SpelledNoNul(items[1..]);
      hide SpellItem, Formed, AllFormed;
    }
  }

  lemma ItemNoNul(i: Item)
    requires Formed(i)
    ensures NoNul(SpellItem(i))
  {
    if i.Unicode? {
      hide HEX;
      forall d <- i.digits
        ensures d != '\0'
      {
        HexDigits(d);
      }
      assert forall k :: 0 <= k < |i.digits| ==> i.digits[k] in i.digits;
    }
  }

  // ---------------------------------------------------------------- the calls

  datatype Call = Push(name: string) | Set(name: string, value: Scalar) | Pop

  function Calls(ms: seq<Member>): seq<Call>
    decreases ms, 1
  {
    if ms == [] then [] else Calls(ms[..|ms| - 1]) + MemberCalls(ms[|ms| - 1])
  }

  function MemberCalls(m: Member): seq<Call>
    decreases m, 0
  {
    match m.value
    case Str(s) => [Set(m.name, StrValue(s))]
    case Prim(p) => [Set(m.name, if p == "null" then NullValue else BoolValue(if p == "true" then 1 else 0))]
    case Obj(ms) => [Push(m.name)] + Calls(ms) + [Pop]
    case Arr(_) => []
  }

  predicate Legal(c: Call) {
    match c
    case Push(name) => NoNul(name)
    case Set(name, v) => NoNul(name) && (v.StrValue? ==> NoNul(v.text))
    case Pop => true
  }

  /** The effect of a call when the buffer is large enough. */
  function Grow(t: string, c: Call): (r: string)
    requires t != "" && !Blank(t[0])
    ensures r != "" && r[0] == t[0] && |t| < |r|
  {
    match c
    case Push(name) => Separated(t) + (Key(name) + "{")
    case Set(name, v) => Separated(t) + (Key(name) + ScalarText(v))
    case Pop => t + "}"
  }

  function GrowAll(t: string, cs: seq<Call>): (r: string)
    requires t != "" && !Blank(t[0])
    ensures r != "" && r[0] == t[0] && |t| <= |r|
    decreases |cs|
  {
    if cs == [] then t else GrowAll(Grow(t, cs[0]), cs[1..])
  }

  lemma {:induction false} GrowAppend(t: string, cs: seq<Call>, ds: seq<Call>)
    requires t != "" && !Blank(t[0])
    ensures GrowAll(t, cs + ds) == GrowAll(GrowAll(t, cs), ds)
    decreases |cs|
  {
    if cs == [] {
      assert cs + ds == ds;
    } else {
      assert (cs + ds)[1..] == cs[1..] + ds;
      GrowAppend(Grow(t, cs[0]), cs[1..], ds);
    }
  }

  lemma LastSolidEnd(t: string, c: char)
    requires t != "" && !Blank(t[0]) && !Blank(c)
    ensures LastSolid(t + [c]) == c
  {
  }

  /** A printed value never ends in a blank or an opening brace. */
  lemma PrintEnds(d: Json)
    requires Buildable(d)
    ensures Print(d) != "" && !Blank(Print(d)[|Print(d)| - 1]) && Print(d)[|Print(d)| - 1] != '{'
  {
  }

  /** The separator in front of the next member. */
  function Comma(ms: seq<Member>): string {
    if ms == [] then "" else ","
  }

  lemma SeparatedMembers(t: string, ms: seq<Member>)
    requires t != "" && !Blank(t[0]) && LastSolid(t) == '{' && Buildable(Obj(ms))
    ensures Separated(t + PrintMembers(ms)) == t + PrintMembers(ms) + Comma(ms)
  {
    var t1 := t + PrintMembers(ms);
    if ms == [] {
      assert t1 == t;
    } else {
      var last := ms[|ms| - 1];
      PrintEnds(last.value);
      var u := Print(last.value);
      assert t1[|t1| - 1] == u[|u| - 1];
    }
  }

  lemma LastPrinted(ms: seq<Member>)
    requires ms != []
    ensures PrintMembers(ms) == PrintMembers(ms[..|ms| - 1]) + Comma(ms[..|ms| - 1]) + PrintMember(ms[|ms| - 1])
  {
    hide Print, PrintMember;
  }

  /** Calls and text of a list of members, split at the last one. */
  lemma LastMember(ms: seq<Member>)
    requires ms != []
    ensures var front, m := ms[..|ms| - 1], ms[|ms| - 1];
            && (Buildable(Obj(ms)) ==> Buildable(Obj(front)) && Buildable(m.value) && StringSafe(m.name))
            && (Printable(Obj(ms)) ==> Printable(Obj(front)) && Printable(m.value) && StringSafe(m.name))
            && Calls(ms) == Calls(front) + MemberCalls(m)
            && PrintMembers(ms) == PrintMembers(front) + Comma(front) + PrintMember(m)
  {
    hide StringSafe;
  }

  /** Elements, split at the last one. */
  lemma LastElem(es: seq<Json>)
    requires es != []
    ensures var front, e := es[..|es| - 1], es[|es| - 1];
            && (Printable(Arr(es)) ==> Printable(Arr(front)) && Printable(e))
            && PrintElems(es) == PrintElems(front) + Separator(front) + Print(e)
  {
  }

  function Separator(es: seq<Json>): string {
    if es == [] then "" else ","
  }

  /** Replaying the calls of a list of members behind an opening brace prints exactly them. */
  lemma {:induction false} CallsPrintMembers(t: string, ms: seq<Member>)
    requires t != "" && !Blank(t[0]) && LastSolid(t) == '{' && Buildable(Obj(ms))
    ensures GrowAll(t, Calls(ms)) == t + PrintMembers(ms)
    decreases ms, 1
  {
    if ms == [] {
      assert t + PrintMembers(ms) == t;
    } else {
      hide *;
      var front, m := ms[..|ms| - 1], ms[|ms| - 1];
      LastMember(ms);
      CallsPrintMembers(t, front);
      CallsPrintMember(t + PrintMembers(front), m);
      SeparatedMembers(t, front);
      GrowAppend(t, Calls(front), MemberCalls(m));
      Concat3(t, PrintMembers(front), Comma(front), PrintMember(m));
    }
  }

  lemma {:induction false} CallsPrintMember(t: string, m: Member)
    requires t != "" && !Blank(t[0]) && Buildable(m.value)
    ensures GrowAll(t, MemberCalls(m)) == Separated(t) + PrintMember(m)
    decreases m, 0
  {
    hide *;
    if !m.value.Obj? {
      LeafCall(t, m);
    } else {
      var ms := m.value.members;
      var push, t1 := [Push(m.name)], Separated(t) + (Key(m.name) + "{");
      PushThenPop(t, m);
      NestedBuildable(m);
      CallsPrintMembers(t1, ms);
      GrowAppend(t, push, Calls(ms));
      GrowAppend(t, push + Calls(ms), [Pop]);
      PopText(t1 + PrintMembers(ms));
      assert t1 + PrintMembers(ms) + "}" == Separated(t) + PrintMember(m);
    }
  }

  /** A string, a boolean or null takes one call. */
  lemma LeafCall(t: string, m: Member)
    requires t != "" && !Blank(t[0]) && Buildable(m.value) && !m.value.Obj?
    ensures GrowAll(t, MemberCalls(m)) == Separated(t) + PrintMember(m)
  {
    assert m.value.Prim? ==> m.value.text == "true" || m.value.text == "false" || m.value.text == "null";
    hide Separated, Buildable, PrintMembers, Calls;
  }

  lemma NestedBuildable(m: Member)
    requires m.value.Obj? && Buildable(m.value)
    ensures Buildable(Obj(m.value.members))
  {
  }

  lemma PopText(t: string)
    requires t != "" && !Blank(t[0])
    ensures GrowAll(t, [Pop]) == t + "}"
  {
  }

  /** A nested object: the text behind its opening bracket, and its parts. */
  lemma PushThenPop(t: string, m: Member)
    requires t != "" && !Blank(t[0]) && m.value.Obj?
    ensures var t1 := Separated(t) + (Key(m.name) + "{");
            && t1 != "" && !Blank(t1[0]) && LastSolid(t1) == '{' && GrowAll(t, [Push(m.name)]) == t1
    ensures MemberCalls(m) == [Push(m.name)] + Calls(m.value.members) + [Pop]
    ensures PrintMember(m) == Key(m.name) + ("{" + PrintMembers(m.value.members) + "}")
  {
    hide Calls, PrintMembers;
    assert Separated(t) + (Key(m.name) + "{") == Separated(t) + Key(m.name) + ['{'];
    LastSolidEnd(Separated(t) + Key(m.name), '{');
  }

  /** Every call of a buildable document is legal for the generator. */
  lemma {:induction false} CallsLegal(ms: seq<Member>)
    requires Buildable(Obj(ms))
    ensures forall i :: 0 <= i < |Calls(ms)| ==> Legal(Calls(ms)[i])
    decreases ms, 1
  {
    if ms != [] {
      var front, m := ms[..|ms| - 1], ms[|ms| - 1];
      assert Buildable(Obj(front)) && Buildable(m.value) && StringSafe(m.name);
      CallsLegal(front);
      SafeNoNul(m.name);
      if m.value.Str? {
        SafeNoNul(m.value.text);
      }
      hide StringSafe;
      if m.value.Obj? {
        CallsLegal(m.value.members);
      }
      forall i | 0 <= i < |MemberCalls(m)|
        ensures Legal(MemberCalls(m)[i])
      {
      }
    }
  }

  // ---------------------------------------------------------------- replaying on the generator

  method Invoke(j: JsonStr, c: Call) returns (ret: int)
    requires j.Valid() && j.Text() != "" && Legal(c) && j.Text()[0] == '{'
    requires |Grow(j.Text(), c)| < j.buff.Length
    modifies j`freePtr, j.buff
    ensures ret == OK && j.Valid() && j.Text() == Grow(old(j.Text()), c)
  {
    match c {
      case Push(name) => ret := j.PushObject(name);
      case Set(name, v) => ret := j.SetObjectValue(name, v);
      case Pop => ret := j.CloseObject();
    }
  }

  /** In a buffer with room for the result, every call succeeds and nothing is cut off. */
  method Replay(j: JsonStr, cs: seq<Call>)
    requires j.Valid() && j.Text() != "" && j.Text()[0] == '{'
    requires forall i :: 0 <= i < |cs| ==> Legal(cs[i])
    requires |GrowAll(j.Text(), cs)| < j.buff.Length
    modifies j`freePtr, j.buff
    ensures j.Valid() && j.Text() == GrowAll(old(j.Text()), cs)
  {
    var i := 0;
    while i < |cs|
      invariant 0 <= i <= |cs| && j.Valid() && j.Text() != "" && j.Text()[0] == '{'
      invariant GrowAll(j.Text(), cs[i..]) == GrowAll(old(j.Text()), cs)
    {
      assert cs[i..][1..] == cs[i + 1..];
      var ret := Invoke(j, cs[i]);
      i := i + 1;
    }
  }
}
