/** The cursor layer of helpers/json/src/json_parser.c: counting walks over the token array,
    proved to be navigation in the document of `JsonTree`. */
module JsonParser {
  import opened Jsmn
  import opened TokenForest
  import opened JsonTree

  const OK := 0
  const E_FAIL := -0x7001
  const E_NOMEM := -0x7002
  const E_INVAL := -0x7003
  const E_INCOMPLETE := -0x7004
  const E_INVALID_JOBJ := -0x7005
  const E_NOT_FOUND := -0x7006
  const E_INVALID_TYPE := -0x7007
  const E_INVALID_INDEX := -0x7008
  const E_INVALID_JARRAY := -0x7009

  function ParseErrorCode(code: int): int {
    if code == ERROR_NOMEM then E_NOMEM
    else if code == ERROR_INVAL then E_INVAL
    else if code == ERROR_PART then E_INCOMPLETE
    else E_FAIL
  }

  /** What json_init answers after the tokenizer returned r. */
  ghost function InitCode(r: Result): int {
    if r.code < 0 then ParseErrorCode(r.code)
    else if |r.st.toks| == 0 then E_INVALID_JOBJ
    else if r.st.toks[0].typ.Object? then (if ValidNode(r.st.toks, 0, Object) then OK else E_INVALID_JOBJ)
    else if r.st.toks[0].typ.Array? then (if ValidNode(r.st.toks, 0, Array) then OK else E_INVALID_JARRAY)
    else E_INVALID_JOBJ
  }

  lemma RunParses(js: string, cap: nat)
    requires Run(js, INITIAL, cap).code >= 0
    ensures Parsed(js, Run(js, INITIAL, cap).st.toks)
  {
    RunKeepsInv(js, INITIAL, cap);
    RunWithin(js, INITIAL, cap);
  }

  lemma {:induction false} RunWithin(js: string, s: State, cap: nat)
    requires Sound(s) && s.pos <= |js|
    ensures Run(js, s, cap).st.pos <= |js|
    decreases |js| - s.pos
  {
    if !AtEnd(js, s.pos) && Step(js, s, cap).Next? {
      RunWithin(js, Step(js, s, cap).st, cap);
    }
  }

  /** How a string or boolean accessor judges the value it was pointed at. */
  datatype Fetched<T> = Value(value: T) | Failed(code: int)

  function AsString(d: Json, maxlen: int): Fetched<string> {
    if !d.Str? then Failed(E_INVALID_TYPE)
    else if |d.text| >= maxlen then Failed(E_NOMEM)
    else Value(d.text)
  }

  function AsBool(d: Json): Fetched<bool> {
    if !d.Prim? then Failed(E_INVALID_TYPE)
    else if d.text == "true" || d.text == "1" then Value(true)
    else if d.text == "false" || d.text == "0" then Value(false)
    else Failed(E_INVALID_TYPE)
  }

  /** The outcome of a search by key in a document node. */
  function FindKey(d: Json, key: string): (f: Fetched<Json>)
    ensures f.Failed? ==> f.code != OK
  {
    match d
    case Obj(ms) =>
      if ms == [] then Failed(E_FAIL)
      else (match Lookup(ms, key) case Some(v) => Value(v) case None => Failed(E_NOT_FOUND))
    case Arr(es) => Failed(if es == [] then E_FAIL else E_INVALID_JOBJ)
    case _ => Failed(E_FAIL)
  }

  /** The outcome of a search by position in a document node. */
  function FindIndex(d: Json, index: nat): (f: Fetched<Json>)
    ensures f.Failed? ==> f.code != OK
  {
    if !d.Arr? then Failed(E_INVALID_JARRAY)
    else if index >= |d.elems| then Failed(E_INVALID_INDEX)
    else Value(d.elems[index])
  }

  class JsonObject {
    var js: string
    var tokens: array<Token>
    var cur: nat
    var numTokens: nat

    ghost function Toks(): (toks: seq<Token>)
      requires numTokens <= tokens.Length
      reads this, tokens
    {
      tokens[..numTokens]
    }

    /** A parsed text and a cursor inside the token array. */
    ghost predicate Loaded()
      reads this, tokens
    {
      numTokens <= tokens.Length && cur < numTokens && Parsed(js, Toks())
    }

    /** The root is a valid container and the cursor is somewhere below it. */
    ghost predicate Valid()
      reads this, tokens
    {
      && Loaded()
      && Container(Toks()[0].typ) && ValidNode(Toks(), 0, Toks()[0].typ)
      && Above(Toks(), 0, cur)
    }

    /** The cursor is on an object or an array. */
    ghost predicate Focused()
      reads this, tokens
    {
      Valid() && Container(Toks()[cur].typ) && ValidNode(Toks(), cur, Toks()[cur].typ)
    }

    /** The document at a token. */
    ghost function DocAt(v: nat): Json
      requires Loaded() && v < numTokens && ValidValue(Toks(), v)
      reads this, tokens
    {
      ValueAt(js, Toks(), v)
    }

    /** The document under the cursor. */
    ghost function Doc(): Json
      requires Focused()
      reads this, tokens
    {
      DocAt(cur)
    }

    /** Wherever the cursor stands on a container, that container is valid. */
    lemma ValidFocuses()
      requires Valid() && Container(Toks()[cur].typ)
      ensures Focused()
    {
      ValidBelow(Toks(), 0, cur);
    }

    method SkipToLast(element: nat) returns (t: nat)
      requires numTokens <= tokens.Length && Forest(Toks()) && element < numTokens
      ensures t == End(Toks(), element) - 1
      decreases numTokens - element
    {
      hide End, Walked;
      ghost var toks := Toks();
      t := element;
      WalkStarts(toks, element);
      if tokens[t].size == 0 {
        WalkEnds(toks, element, t + 1);
        return;
      }
      var cnt := tokens[t].size;
      while cnt != 0
        invariant element <= t && cnt >= 0 && Walked(toks, element, t + 1, cnt)
        decreases cnt
      {
        WalkAdvances(toks, element, t + 1, cnt);
        t := t + 1;
        if tokens[t].size != 0 {
          t := SkipToLast(t);
        } else {
          Childless(toks, t);
        }
        cnt := cnt - 1;
      }
      WalkEnds(toks, element, t + 1);
    }

    /** One round of the loop of IsValid: child t of the container under the cursor. */
    method IsChildValid(child: nat) returns (r: bool, t: nat)
      requires Loaded() && cur < child < numTokens && Toks()[child].parent == cur
      modifies this`cur
      ensures cur == old(cur) && r == ValidChild(Toks(), cur, child)
      ensures r ==> t + 1 == End(Toks(), child)
      decreases numTokens - child, 1
    {
      hide End, Forest;
      t := child;
      if tokens[t].end > tokens[cur].end {
        return false, t;
      }
      if tokens[cur].typ == Object {
        if tokens[t].typ != String {
          return false, t;
        }
        if tokens[t].size != 1 {
          return false, t;
        }
        OnlyChild(Toks(), t);
        t := t + 1;
      }
      r := true;
      if tokens[t].typ == Object || tokens[t].typ == Array {
        var tmp := cur;
        cur := t;
        r := IsValid(tokens[t].typ);
        cur := tmp;
      } else if tokens[t].size != 0 {
        r := false;
      }
      assert r == ValidValue(Toks(), t);
      if r {
        t := SkipToLast(t);
      }
    }

    method IsValid(typ: TokenType) returns (r: bool)
      requires Loaded()
      modifies this`cur
      ensures cur == old(cur) && r == ValidNode(Toks(), cur, typ)
      decreases numTokens - cur, 0
    {
      hide End, Walked, ValidChild, Forest;
      ghost var toks := Toks();
      var t := cur;
      if tokens[t].typ != typ {
        return false;
      }
      var numChildren := tokens[t].size;
      WalkStarts(toks, cur);
      while numChildren != 0
        invariant cur == old(cur) && cur <= t < numTokens && numChildren >= 0 && Walked(toks, cur, t + 1, numChildren)
        invariant forall c :: cur < c <= t && toks[c].parent == cur ==> ValidChild(toks, cur, c)
        decreases numChildren
      {
        WalkAdvances(toks, cur, t + 1, numChildren);
        r, t := IsChildValid(t + 1);
        if !r {
          return false;
        }
        numChildren := numChildren - 1;
      }
      WalkEnds(toks, cur, t + 1);
      return true;
    }

    /** v is the value of a member of the object under the cursor. */
    ghost predicate MemberValue(v: int)
      requires Loaded()
      reads this, tokens
    {
      var toks := Toks();
      && cur + 1 < v < |toks| && toks[v].parent == v - 1 && toks[v - 1].parent == cur && ValidValue(toks, v)
    }

    /** The value token of the first member called key; -1 stands for NULL. */
    method GetValue(key: string) returns (ret: int, val: int)
      requires Valid()
      ensures val == -1 || MemberValue(val)
      ensures ret == OK <==> val != -1
      ensures Container(Toks()[cur].typ) ==> Focused()
      ensures Container(Toks()[cur].typ) ==>
        match FindKey(Doc(), key)
        case Failed(code) => ret == code
        case Value(d) => ret == OK && DocAt(val) == d
      ensures !Container(Toks()[cur].typ) ==> ret == if Toks()[cur].size == 0 then E_FAIL else E_INVALID_JOBJ
    {
      ghost var toks := Toks();
      var t := cur;
      var numChildren := tokens[t].size;
      val := -1;
      if Container(tokens[t].typ) {
        ValidFocuses();
      }
      if numChildren == 0 {
        return E_FAIL, -1;
      }
      if tokens[t].typ != Object {
        return E_INVALID_JOBJ, -1;
      }
      ret, val := SearchKey(key);
    }

    /** The search loop of GetValue. */
    method SearchKey(key: string) returns (ret: int, val: int)
      requires Focused() && Toks()[cur].typ.Object?
      ensures match Lookup(Doc().members, key)
              case None => ret == E_NOT_FOUND && val == -1
              case Some(d) => ret == OK && MemberValue(val) && DocAt(val) == d
    {
      hide Walked, End, Above, Forest, ValidNode, ValidValue;
      ghost var toks := Toks();
      var t := cur;
      var numChildren := tokens[t].size;
      WalkStarts(toks, cur);
      ghost var ahead := Doc().members;
      while numChildren != 0
        invariant cur <= t < numTokens && numChildren >= 0 && Walked(toks, cur, t + 1, numChildren)
        invariant ahead == MembersAhead(js, toks, cur, t + 1, numChildren)
        invariant Lookup(ahead, key) == Lookup(Doc().members, key)
        decreases numChildren
      {
        KeyAhead(toks, cur, t + 1, numChildren);
        numChildren := numChildren - 1;
        t := t + 1;
        if tokens[t].end > tokens[cur].end {
          return E_FAIL, -1;
        }
        if tokens[t].typ != String {
          return E_FAIL, -1;
        }
        if Text(js, tokens[t]) == key {
          t := t + 1;
          return OK, t;
        } else {
          t := t + 1;
          t := SkipToLast(t);
          ahead := ahead[1..];
        }
      }
      return E_NOT_FOUND, -1;
    }

    /** The token of the element at the given position; -1 stands for NULL. */
    method GetArrayIndex(index: nat) returns (ret: int, val: int)
      requires Valid()
      ensures val == -1 || (cur < val < numTokens && Toks()[val].parent == cur && ValidValue(Toks(), val))
      ensures ret == OK <==> val != -1
      ensures Container(Toks()[cur].typ) ==> Focused()
      ensures Container(Toks()[cur].typ) ==>
        match FindIndex(Doc(), index)
        case Failed(code) => ret == code
        case Value(d) => ret == OK && DocAt(val) == d
      ensures !Container(Toks()[cur].typ) ==> ret == E_INVALID_JARRAY
    {
      if Container(tokens[cur].typ) {
        ValidFocuses();
      }
      if tokens[cur].typ != Array {
        return E_INVALID_JARRAY, -1;
      }
      if index >= tokens[cur].size {
        return E_INVALID_INDEX, -1;
      }
      ret, val := WalkToIndex(index);
    }

    /** The walking loop of GetArrayIndex. */
    method WalkToIndex(index: nat) returns (ret: int, val: int)
      requires Focused() && Toks()[cur].typ.Array? && index < Toks()[cur].size
      ensures ret == OK && cur < val < numTokens && Toks()[val].parent == cur && ValidValue(Toks(), val)
      ensures DocAt(val) == Doc().elems[index]
    {
      hide Walked, End, Above, Forest, ValidNode, ValidValue;
      ghost var toks := Toks();
      WalkStarts(toks, cur);
      var t := cur;
      ghost var cnt, ahead := tokens[cur].size, Doc().elems;
      t := t + 1;
      var i := index;
      while i != 0
        invariant 0 <= i < cnt && cur < t && Walked(toks, cur, t, cnt)
        invariant ahead == ElemsAhead(js, toks, cur, t, cnt) && ahead[i] == Doc().elems[index]
      {
        ElemAhead(toks, cur, t, cnt);
        i := i - 1;
        if tokens[t].end > tokens[cur].end {
          return E_FAIL, -1;
        }
        if tokens[t].typ == Array || tokens[t].typ == Object {
          t := SkipToLast(t);
        } else {
          LeafEnd(t);
        }
        t := t + 1;
        cnt, ahead := cnt - 1, ahead[1..];
      }
      ElemAhead(toks, cur, t, cnt);
      return OK, t;
    }

    lemma LeafEnd(t: nat)
      requires numTokens <= tokens.Length && Forest(Toks()) && t < numTokens
      requires ValidValue(Toks(), t) && !Container(Toks()[t].typ)
      ensures End(Toks(), t) == t + 1
    {
      Childless(Toks(), t);
    }

    // -------------------------------------------------------------- accessors by key

    method GetValStr(key: string, maxlen: int) returns (ret: int, value: string)
      requires Focused()
      ensures match FindKey(Doc(), key)
              case Failed(code) => ret == code
              case Value(d) => (match AsString(d, maxlen)
                                case Failed(code) => ret == code
                                case Value(s) => ret == OK && value == s)
    {
      var t;
      value := "";
      ret, t := GetValue(key);
      if ret != OK {
        return;
      }
      if tokens[t].typ != String {
        return E_INVALID_TYPE, value;
      }
      if tokens[t].end - tokens[t].start >= maxlen {
        return E_NOMEM, value;
      }
      return OK, Text(js, tokens[t]);
    }

    method GetValBool(key: string) returns (ret: int, value: bool)
      requires Focused()
      ensures match FindKey(Doc(), key)
              case Failed(code) => ret == code
              case Value(d) => (match AsBool(d)
                                case Failed(code) => ret == code
                                case Value(b) => ret == OK && value == b)
    {
      var t;
      value := false;
      ret, t := GetValue(key);
      if ret != OK {
        return;
      }
      if tokens[t].typ != Primitive {
        return E_INVALID_TYPE, value;
      }
      var text := Text(js, tokens[t]);
      if text == "true" || text == "1" {
        return OK, true;
      } else if text == "false" || text == "0" {
        return OK, false;
      }
      return E_INVALID_TYPE, value;
    }

    /** Narrows the search to the object stored under key. */
    method GetCompositeObject(key: string) returns (ret: int)
      requires Focused()
      modifies this`cur
      ensures Focused()
      ensures match FindKey(old(Doc()), key)
              case Failed(code) => ret == code && cur == old(cur)
              case Value(d) => if d.Obj? then ret == OK && Doc() == d && Entered(old(cur))
                               else ret == E_INVALID_TYPE && cur == old(cur)
    {
      hide FindKey, Lookup, Forest, Above, ValueAt, ValidNode, ValidValue;
      var t;
      ret, t := GetValue(key);
      if ret != OK {
        return;
      }
      if tokens[t].typ != Object {
        return E_INVALID_TYPE;
      }
      Below(t);
      cur := t;
      return OK;
    }

    method GetArrayObject(key: string) returns (ret: int, numElements: int)
      requires Focused()
      modifies this`cur
      ensures Focused()
      ensures match FindKey(old(Doc()), key)
              case Failed(code) => ret == code && cur == old(cur)
              case Value(d) => if d.Arr? then ret == OK && Doc() == d && numElements == |d.elems| && Entered(old(cur))
                               else ret == E_INVALID_TYPE && cur == old(cur)
    {
      hide FindKey, Lookup, Forest, Above, ValidNode, ValidValue;
      var t;
      numElements := 0;
      ret, t := GetValue(key);
      if ret != OK {
        return;
      }
      if tokens[t].typ != Array {
        return E_INVALID_TYPE, numElements;
      }
      Below(t);
      cur := t;
      return OK, tokens[t].size;
    }

    /** The cursor stands on the value of a member of the object at token o. */
    ghost predicate Entered(o: nat)
      requires numTokens <= tokens.Length && cur < numTokens
      reads this, tokens
    {
      0 <= Toks()[cur].parent < numTokens && Toks()[Toks()[cur].parent].parent == o
    }

    /** Values of members are below the object, so the cursor may go there. */
    lemma Below(v: int)
      requires Focused() && MemberValue(v)
      ensures Above(Toks(), 0, v)
      ensures Container(Toks()[v].typ) ==> ValidNode(Toks(), v, Toks()[v].typ)
    {
      var toks := Toks();
      AboveTransitive(toks, 0, cur, cur);
      assert Above(toks, cur, v - 1) && Above(toks, cur, v);
      AboveTransitive(toks, 0, cur, v);
    }

    /** Goes up two levels, from a value over its key to the object. */
    method ReleaseCompositeObject() returns (ret: int)
      requires Valid()
      modifies this`cur
      ensures Valid()
      ensures forall o :: 0 <= o < numTokens && old(Entered(o)) ==> ret == OK && cur == o
      ensures ret == OK <==> exists o :: 0 <= o < numTokens && old(Entered(o))
    {
      if tokens[cur].parent < 0 {
        return E_FAIL;
      }
      Upward();
      cur := tokens[cur].parent;
      if tokens[cur].parent < 0 {
        return E_FAIL;
      }
      Upward();
      cur := tokens[cur].parent;
      assert old(Entered(tokens[tokens[cur].parent].parent));
      return OK;
    }

    /** The parent of a token below the root is below the root, unless the token is the root. */
    lemma Upward()
      requires Valid() && Toks()[cur].parent >= 0
      ensures Above(Toks(), 0, Toks()[cur].parent)
    {
      FirstTokenIsRoot();
    }

    lemma FirstTokenIsRoot()
      requires Loaded()
      ensures Toks()[0].parent == -1
    {
    }

    // -------------------------------------------------------------- accessors by position

    method ArrayGetStr(index: nat, maxlen: int) returns (ret: int, value: string)
      requires Focused()
      ensures match FindIndex(Doc(), index)
              case Failed(code) => ret == code
              case Value(d) => (match AsString(d, maxlen)
                                case Failed(code) => ret == code
                                case Value(s) => ret == OK && value == s)
    {
      var t;
      value := "";
      ret, t := GetArrayIndex(index);
      if ret != OK {
        return;
      }
      if tokens[t].typ != String {
        return E_INVALID_TYPE, value;
      }
      if tokens[t].end - tokens[t].start >= maxlen {
        return E_NOMEM, value;
      }
      return OK, Text(js, tokens[t]);
    }

    method ArrayGetCompositeObject(index: nat) returns (ret: int)
      requires Focused()
      modifies this`cur
      ensures Focused()
      ensures match FindIndex(old(Doc()), index)
              case Failed(code) => ret == code && cur == old(cur)
              case Value(d) => if d.Obj? then ret == OK && Doc() == d && Toks()[cur].parent == old(cur)
                               else ret == E_INVALID_TYPE && cur == old(cur)
    {
      var t;
      ret, t := GetArrayIndex(index);
      if ret != OK {
        return;
      }
      if tokens[t].typ != Object {
        return E_INVALID_TYPE;
      }
      ElementBelow(t);
      cur := t;
      return OK;
    }

    lemma ElementBelow(v: nat)
      requires Focused() && v < numTokens && Toks()[v].parent == cur
      ensures Above(Toks(), 0, v)
    {
      var toks := Toks();
      assert Above(toks, cur, v);
      AboveTransitive(toks, 0, cur, v);
    }

    method ArrayReleaseCompositeObject() returns (ret: int)
      requires Valid()
      modifies this`cur
      ensures Valid()
      ensures old(Toks()[cur].parent) >= 0 ==> ret == OK && cur == old(Toks()[cur].parent)
      ensures old(Toks()[cur].parent) < 0 ==> ret == E_FAIL && cur == old(cur)
    {
      if tokens[cur].parent < 0 {
        return E_FAIL;
      }
      Upward();
      cur := tokens[cur].parent;
      return OK;
    }

    // -------------------------------------------------------------- starting

    constructor (buffer: array<Token>)
      ensures tokens == buffer && cur == 0 && numTokens == 0 && js == ""
    {
      js, tokens, cur, numTokens := "", buffer, 0, 0;
    }

    /** Parses js into the given tokens and validates the root. */
    method Init(buffer: array<Token>, limit: nat, text: string) returns (ret: int)
      requires limit <= buffer.Length && (Tokenless(text, 0) ==> 0 < buffer.Length && !Container(buffer[0].typ))
      modifies this, buffer
      ensures ret == InitCode(Run(text, INITIAL, limit))
      ensures ret == OK ==> tokens == buffer && Focused() && cur == 0 && js == text
                            && Toks() == Run(text, INITIAL, limit).st.toks
    {
      js, tokens, numTokens, cur := "", buffer, limit, 0;
      var parser := new Parser();
      assert parser.View(tokens) == INITIAL;
      ghost var result := Run(text, INITIAL, limit);
      var parsed := parser.Parse(text, tokens, limit);
      TwoPassAgreement(text, INITIAL, limit);
      if parsed < 0 {
        return ParseErrorCode(parsed);
      }
      RunParses(text, limit);
      RunKeepsInv(text, INITIAL, limit);
      js, numTokens, cur := text, parsed, 0;
      assert Toks() == result.st.toks;
      if numTokens == 0 {
        return E_INVALID_JOBJ;
      }
      assert Above(Toks(), 0, 0);
      if tokens[0].typ == Object {
        var valid := IsValid(Object);
        return if valid then OK else E_INVALID_JOBJ;
      } else if tokens[0].typ == Array {
        var valid := IsValid(Array);
        return if valid then OK else E_INVALID_JARRAY;
      }
      return E_INVALID_JOBJ;
    }

    /** Counts, allocates exactly that many tokens, and parses. */
    method ParseStart(text: string) returns (ret: int)
      requires !Tokenless(text, 0)
      modifies this
      ensures var n := CountRun(text, 0, 0);
              ret == if n < 0 then ParseErrorCode(n) else InitCode(Run(text, INITIAL, n))
      ensures ret == OK ==> fresh(tokens) && Focused() && cur == 0 && js == text
                            && Toks() == Run(text, INITIAL, CountRun(text, 0, 0)).st.toks
    {
      var parser := new Parser();
      var parsed := parser.Parse(text, null, 0);
      if parsed < 0 {
        return ParseErrorCode(parsed);
      }
      var buffer := new Token[parsed];
      ret := Init(buffer, parsed, text);
    }

    // -------------------------------------------------------------- get and release

    /** Entering an object, or an array, by key and releasing it restores the cursor. */
    method EnterAndRelease(key: string, asArray: bool) returns (entered: bool)
      requires Focused()
      modifies this`cur
      ensures cur == old(cur) && Focused()
      ensures entered
              <==> var f := FindKey(old(Doc()), key); f.Value? && (if asArray then f.value.Arr? else f.value.Obj?)
    {
      var ret;
      if asArray {
        var n;
        ret, n := GetArrayObject(key);
      } else {
        ret := GetCompositeObject(key);
      }
      if ret == OK {
        ret := ReleaseCompositeObject();
        ValidFocuses();
        return true;
      }
      return false;
    }
  }
}
