/** From the calls that build a document to the lookups that read it: nothing is lost. */
module JsonEndToEnd {
  import opened Jsmn
  import opened TokenForest
  import opened JsonTree
  import opened JsonGenerator
  import opened JsonPrint
  import opened JsonRoundTrip
  import opened JsonSpelling
  import opened JsonReadBack
  import JsonParser

  // ---------------------------------------------------------------- the text

  /** A document whose root is an object or an array. */
  predicate Rooted(d: Json) {
    d.Obj? || d.Arr?
  }

  /** The tokens of a whole printed document. */
  ghost function RootToks(d: Json): seq<Token> {
    Toks(d, 0, 0, -1)
  }

  lemma InitialState()
    ensures Inv(INITIAL) && Sound(INITIAL) && INITIAL == State(0, [], -1)
    ensures forall d: Json :: Rooted(d) ==> ReadyFor(INITIAL, d)
  {
  }

  lemma WholeText(d: Json)
    ensures Holds(Print(d), 0, Print(d)) && AfterValue(INITIAL, d) == State(|Print(d)|, RootToks(d), -1)
  {
    hide Toks, Print;
    assert [] + RootToks(d) == RootToks(d);
  }

  lemma AtTextEnd(js: string, s: State, cap: nat)
    requires Sound(s) && s.pos == |js| && forall i :: 0 <= i < |s.toks| ==> s.toks[i].end >= 0
    ensures Run(js, s, cap) == Result(|s.toks|, s)
  {
    hide Step, Linked;
  }

  lemma SameRun(js: string, cap: nat, s: State, s': State)
    requires Reaches(js, cap, s, s')
    ensures Sound(s) && Sound(s') && Run(js, s, cap) == Run(js, s', cap)
  {
    hide Run;
  }

  /** The tokenizer turns the printed text of a document into exactly its tokens, given room for them. */
  lemma PrintedTokens(d: Json, cap: nat)
    requires Printable(d) && Rooted(d) && |RootToks(d)| <= cap
    ensures Run(Print(d), INITIAL, cap) == Result(|RootToks(d)|, State(|Print(d)|, RootToks(d), -1))
  {
    var js, s' := Print(d), AfterValue(INITIAL, d);
    ValueClosed(d, 0, 0, -1);
    assert forall i :: 0 <= i < |RootToks(d)| ==> RootToks(d)[i].end >= 0;
    hide *;
    InitialState();
    WholeText(d);
    ParseValue(js, cap, INITIAL, d);
    SameRun(js, cap, INITIAL, s');
    AtTextEnd(js, s', cap);
  }

  lemma RootStands(d: Json)
    requires Printable(d) && Parsed(Print(d), RootToks(d))
    ensures Stands(Print(d), RootToks(d), d, 0, 0, -1)
  {
    hide Toks, Print, Printable, Parsed;
    assert RootToks(d)[0..|RootToks(d)|] == RootToks(d);
    WholeText(d);
  }

  /** A document that reads back from token 0 is what json_init accepts. */
  lemma ReadIsInit(js: string, r: Result, d: Json)
    requires r.code >= 0 && Rooted(d) && Reads(js, r.st.toks, d, 0)
    ensures JsonParser.InitCode(r) == JsonParser.OK
  {
  }

  /** Every printable document: the counting pass finds its number of tokens, any array with
      that much room is enough, json_init accepts the text, and the document read back is the
      one that was printed. */
  lemma RoundTrip(d: Json, cap: nat)
    requires Printable(d) && Rooted(d)
    ensures var js := Print(d);
            var n := CountRun(js, 0, 0);
            && n > 0
            && (n <= cap ==>
                  var r := Run(js, INITIAL, cap);
                  && r.code == n && JsonParser.InitCode(r) == JsonParser.OK
                  && Reads(js, r.st.toks, d, 0))
  {
    hide *;
    var js, n := Print(d), |RootToks(d)|;
    PrintedTokens(d, n);
    InitialState();
    TwoPassAgreement(js, INITIAL, n);
    JsonParser.RunParses(js, n);
    RootStands(d);
    ReadValue(js, RootToks(d), d, 0, 0, -1);
    ReadsSomething(js, RootToks(d), d, 0);
    if n <= cap {
      PrintedTokens(d, cap);
      ReadIsInit(js, Run(js, INITIAL, cap), d);
    }
  }

  lemma ReadsSomething(js: string, toks: seq<Token>, d: Json, v: nat)
    requires Reads(js, toks, d, v)
    ensures v < |toks|
  {
    hide Parsed, ValueAt;
  }

  // ---------------------------------------------------------------- paths

  /** A lookup returns the value of the first member of that name: with distinct names, exactly what was set. */
  lemma {:induction false} LookupFinds(ms: seq<Member>, i: nat)
    requires i < |ms| && forall j :: 0 <= j < i ==> ms[j].name != ms[i].name
    ensures Lookup(ms, ms[i].name) == Some(ms[i].value)
  {
    if i > 0 {
      assert ms[0].name != ms[i].name;
      forall j | 0 <= j < i - 1
        ensures ms[1..][j].name != ms[i].name
      {
        assert ms[1..][j] == ms[j + 1];
      }
      LookupFinds(ms[1..], i - 1);
    }
  }

  lemma {:induction false} LookupMisses(ms: seq<Member>, key: string)
    ensures Lookup(ms, key).None? <==> forall i :: 0 <= i < |ms| ==> ms[i].name != key
  {
    if ms != [] {
      LookupMisses(ms[1..], key);
      if ms[0].name != key {
        forall i | 0 <= i < |ms|
          ensures Lookup(ms, key).None? ==> ms[i].name != key
        {
          assert i > 0 ==> ms[i] == ms[1..][i - 1];
        }
        assert forall i :: 0 <= i < |ms[1..]| ==> ms[1..][i] == ms[i + 1];
      }
    }
  }

  /** What json_get_... answers for a name: the first member of that name, or the code for none. */
  lemma FetchByName(ms: seq<Member>, key: string, i: nat)
    ensures i < |ms| && ms[i].name == key && (forall j :: 0 <= j < i ==> ms[j].name != key) ==>
            JsonParser.FindKey(Obj(ms), key) == JsonParser.Value(ms[i].value)
    ensures (forall j :: 0 <= j < |ms| ==> ms[j].name != key) ==>
            JsonParser.FindKey(Obj(ms), key)
            == JsonParser.Failed(if ms == [] then JsonParser.E_FAIL else JsonParser.E_NOT_FOUND)
  {
    LookupMisses(ms, key);
    if i < |ms| && ms[i].name == key && forall j :: 0 <= j < i ==> ms[j].name != key {
      LookupFinds(ms, i);
    }
  }

  /** What json_array_get_... answers for a position. */
  lemma FetchByPosition(es: seq<Json>, ms: seq<Member>, i: nat)
    ensures i < |es| ==> JsonParser.FindIndex(Arr(es), i) == JsonParser.Value(es[i])
    ensures i >= |es| ==> JsonParser.FindIndex(Arr(es), i) == JsonParser.Failed(JsonParser.E_INVALID_INDEX)
    ensures JsonParser.FindIndex(Obj(ms), i) == JsonParser.Failed(JsonParser.E_INVALID_JARRAY)
  {
  }

  // ---------------------------------------------------------------- values

  /** The document that stands for a value. */
  function SetValue(v: Scalar): Json {
    match v
    case StrValue(s) => Str(s)
    case BoolValue(b) => Prim(if b == 1 then "true" else "false")
    case NullValue => Prim("null")
  }

  /** A value that was set is fetched as what it was, and only with the accessor of its type; a boolean is true
      if and only if it was set to 1, and 1 and 0 are booleans, too. */
  lemma ScalarFetched(v: Scalar, maxlen: int)
    ensures Print(SetValue(v)) == ScalarText(v)
    ensures var s, b := JsonParser.AsString(SetValue(v), maxlen), JsonParser.AsBool(SetValue(v));
            match v
            case StrValue(text) =>
              && s == (if |text| < maxlen then JsonParser.Value(text) else JsonParser.Failed(JsonParser.E_NOMEM))
              && b == JsonParser.Failed(JsonParser.E_INVALID_TYPE)
            case BoolValue(n) =>
              s == JsonParser.Failed(JsonParser.E_INVALID_TYPE) && b == JsonParser.Value(n == 1)
            case NullValue =>
              s == JsonParser.Failed(JsonParser.E_INVALID_TYPE) && b == JsonParser.Failed(JsonParser.E_INVALID_TYPE)
    ensures JsonParser.AsBool(Prim("1")) == JsonParser.Value(true)
    ensures JsonParser.AsBool(Prim("0")) == JsonParser.Value(false)
  {
    assert "true" != "false" && "null"[0] != "true"[0] && "null"[0] != "false"[0] && |"1"| != |"true"|;
    assert "1"[0] != "0"[0] && |"0"| != |"false"|;
  }

  /** The value under a path of keys. */
  function Resolve(d: Json, path: seq<string>): (r: Option<Json>)
    ensures path == [] ==> r == Some(d)
    decreases |path|
  {
    if path == [] then Some(d)
    else if !d.Obj? then None
    else
      match Lookup(d.members, path[0])
      case None => None
      case Some(v) => Resolve(v, path[1..])
  }

  // ---------------------------------------------------------------- end to end

  /** Builds the document with the calls of the generator, in a buffer with room for it. */
  method PrintDocument(ms: seq<Member>, buffer: array<char>) returns (j: JsonStr)
    requires Buildable(Obj(ms)) && |Print(Obj(ms))| < buffer.Length
    modifies buffer
    ensures fresh(j) && j.buff == buffer && j.Valid() && j.Text() == Print(Obj(ms))
  {
    CallsPrintMembers("{", ms);
    CallsLegal(ms);
    assert "{" + PrintMembers(ms) + "}" == Print(Obj(ms));
    hide PrintMembers, Print, Calls, Buildable, GrowAll;
    j := new JsonStr(buffer);
    var ret := j.StartObject();
    assert j.Text() == "{";
    Replay(j, Calls(ms));
    ret := j.CloseObject();
  }

  /** Prints a document and parses the text: the cursor stands on the very same document. */
  method PrintThenRead(ms: seq<Member>, buffer: array<char>) returns (obj: JsonParser.JsonObject)
    requires Buildable(Obj(ms)) && |Print(Obj(ms))| < buffer.Length
    modifies buffer
    ensures fresh(obj) && fresh(obj.tokens) && obj.Focused() && obj.cur == 0 && obj.Doc() == Obj(ms)
  {
    hide *;
    BuildableIsPrintable(Obj(ms));
    ObjectRoot(ms);
    RoundTrip(Obj(ms), 0);
    RoundTrip(Obj(ms), CountRun(Print(Obj(ms)), 0, 0));
    HasToken(Print(Obj(ms)));
    var j := PrintDocument(ms, buffer);
    var text := buffer[..j.freePtr];
    assert text == Print(Obj(ms)) by { TextIs(j); }
    var none := new Token[0];
    obj := new JsonParser.JsonObject(none);
    var ret := obj.ParseStart(text);
    FocusReads(obj, Obj(ms));
  }

  /** Sets a member among others, prints, parses, and fetches it with both accessors. */
  method SetThenFetch(ms: seq<Member>, i: nat, v: Scalar, maxlen: int, buffer: array<char>)
    returns (strCode: int, text: string, boolCode: int, b: bool)
    requires Buildable(Obj(ms)) && |Print(Obj(ms))| < buffer.Length
    requires i < |ms| && ms[i].value == SetValue(v) && forall j :: 0 <= j < i ==> ms[j].name != ms[i].name
    modifies buffer
    ensures match v
            case StrValue(s) =>
              && boolCode == JsonParser.E_INVALID_TYPE
              && if |s| < maxlen then strCode == JsonParser.OK && text == s else strCode == JsonParser.E_NOMEM
            case BoolValue(n) =>
              strCode == JsonParser.E_INVALID_TYPE && boolCode == JsonParser.OK && b == (n == 1)
            case NullValue => strCode == JsonParser.E_INVALID_TYPE && boolCode == JsonParser.E_INVALID_TYPE
  {
    FetchByName(ms, ms[i].name, i);
    ScalarFetched(v, maxlen);
    hide Print, Buildable, JsonParser.FindKey, JsonParser.AsString, JsonParser.AsBool;
    var obj := PrintThenRead(ms, buffer);
    strCode, text := obj.GetValStr(ms[i].name, maxlen);
    boolCode, b := obj.GetValBool(ms[i].name);
  }

  lemma ObjectRoot(ms: seq<Member>)
    ensures Rooted(Obj(ms))
  {
  }

  lemma HasToken(text: string)
    ensures CountRun(text, 0, 0) != 0 ==> !Tokenless(text, 0)
  {
    if Tokenless(text, 0) {
      TokenlessHasNone(text, 0);
    }
  }

  lemma TextIs(j: JsonStr)
    requires j.Valid()
    ensures j.freePtr <= j.buff.Length && j.Text() == j.buff[..j.freePtr]
  {
  }

  lemma FocusReads(obj: JsonParser.JsonObject, d: Json)
    requires obj.Focused() && obj.cur == 0 && Reads(obj.js, obj.Toks(), d, 0)
    ensures obj.Doc() == d
  {
    hide ValueAt;
  }

  /** Follows a path of keys down to an object with json_get_composite_object. */
  method Descend(obj: JsonParser.JsonObject, path: seq<string>) returns (ok: bool)
    requires obj.Focused()
    modifies obj`cur
    ensures obj.Focused()
    ensures ok <==> var r := Resolve(old(obj.Doc()), path); r.Some? && (path == [] || r.value.Obj?)
    ensures ok ==> Resolve(old(obj.Doc()), path) == Some(obj.Doc())
  {
    ghost var d := obj.Doc();
    var i := 0;
    while i < |path|
      invariant 0 <= i <= |path| && obj.Focused()
      invariant Resolve(obj.Doc(), path[i..]) == Resolve(d, path)
      invariant 0 < i ==> obj.Doc().Obj?
    {
      ghost var here := obj.Doc();
      assert path[i..][1..] == path[i + 1..];
      var ret := obj.GetCompositeObject(path[i]);
      NotAnObject(path[i + 1..]);
      if ret != JsonParser.OK {
        return false;
      }
      i := i + 1;
    }
    return true;
  }

  lemma NotAnObject(path: seq<string>)
    ensures forall d: Json :: !d.Obj? && path != [] ==> Resolve(d, path).None?
  {
  }
}
