/** The tokenizer of ext/jsmn/jsmn.c in its strict, parent-link build.

    `Step` and `Run` say on values what one loop iteration and one whole call do;
    the class `Parser` is the in-place algorithm and is proved to compute them. */
module Jsmn {

  datatype TokenType = Undefined | Object | Array | String | Primitive

  /** A jsmntok_t. `parent` is the index of the enclosing token, -1 at the root. */
  datatype Token = Token(typ: TokenType, start: int, end: int, size: int, parent: int)

  const ERROR_NOMEM := -1
  const ERROR_INVAL := -2
  const ERROR_PART := -3

  predicate Container(typ: TokenType) {
    typ.Object? || typ.Array?
  }

  /** An object or array whose closing bracket has not been seen. */
  predicate Open(t: Token) {
    t.start != -1 && t.end == -1
  }

  ghost predicate Linked(toks: seq<Token>) {
    forall i :: 0 <= i < |toks| ==> -1 <= toks[i].parent < i
  }

  // ---------------------------------------------------------------- lexical level

  datatype Lex = At(pos: nat) | Bad(code: int)

  predicate AtEnd(js: string, p: nat) {
    p >= |js| || js[p] == '\0'
  }

  predicate IsHex(c: char) {
    '0' <= c <= '9' || 'A' <= c <= 'F' || 'a' <= c <= 'f'
  }

  predicate IsEscaped(c: char) {
    c == '\"' || c == '/' || c == '\\' || c == 'b' || c == 'f' || c == 'r' || c == 'n' || c == 't'
  }

  /** At most n hexadecimal digits from p on; the end of the text stops the scan quietly. */
  function ScanHex(js: string, p: nat, n: nat): (r: Lex)
    ensures r.At? ==> p <= r.pos && (p <= |js| ==> r.pos <= |js|)
    ensures r.Bad? ==> r.code == ERROR_INVAL
    decreases n
  {
    if n == 0 || AtEnd(js, p) then At(p)
    else if !IsHex(js[p]) then Bad(ERROR_INVAL)
    else ScanHex(js, p + 1, n - 1)
  }

  /** Where the string whose contents continue at p has its closing quote. */
  function ScanString(js: string, p: nat): (r: Lex)
    ensures r.At? ==> p <= r.pos < |js| && js[r.pos] == '\"'
    ensures r.Bad? ==> r.code == ERROR_INVAL || r.code == ERROR_PART
    decreases |js| - p
  {
    if AtEnd(js, p) then Bad(ERROR_PART)
    else if js[p] == '\"' then At(p)
    else if js[p] == '\\' && p + 1 < |js| then
      if IsEscaped(js[p + 1]) then ScanString(js, p + 2)
      else if js[p + 1] == 'u' then
        match ScanHex(js, p + 2, 4)
        case Bad(code) => Bad(code)
        case At(q) => ScanString(js, q)
      else Bad(ERROR_INVAL)
    else ScanString(js, p + 1)
  }

  predicate Delimits(c: char) {
    c == '\t' || c == '\r' || c == '\n' || c == ' ' || c == ',' || c == ']' || c == '}'
  }

  /** Where the primitive that continues at p has its delimiter. */
  function ScanPrimitive(js: string, p: nat): (r: Lex)
    ensures r.At? ==> p <= r.pos < |js| && Delimits(js[r.pos])
    ensures r.Bad? ==> r.code == ERROR_INVAL || r.code == ERROR_PART
    decreases |js| - p
  {
    if AtEnd(js, p) then Bad(ERROR_PART)
    else if Delimits(js[p]) then At(p)
    else if js[p] as int < 32 || js[p] as int >= 127 then Bad(ERROR_INVAL)
    else ScanPrimitive(js, p + 1)
  }

  predicate StartsPrimitive(c: char) {
    c == '-' || '0' <= c <= '9' || c == 't' || c == 'f' || c == 'n'
  }

  predicate IsSpace(c: char) {
    c == '\t' || c == '\r' || c == '\n' || c == ' '
  }

  // ---------------------------------------------------------------- parser level

  /** The parser fields and the tokens allocated so far. */
  datatype State = State(pos: nat, toks: seq<Token>, super: int)

  ghost predicate Sound(s: State) {
    Linked(s.toks) && -1 <= s.super < |s.toks|
  }

  const INITIAL := State(0, [], -1)

  datatype Outcome = Next(st: State) | Stop(code: int)

  /** One more child for the superior token, if there is one. */
  function Bump(toks: seq<Token>, super: int): (r: seq<Token>)
    requires -1 <= super < |toks|
    ensures |r| == |toks|
  {
    if super == -1 then toks else toks[super := toks[super].(size := toks[super].size + 1)]
  }

  datatype Walk = Closes(index: nat) | Ignored | Mismatch

  /** The walk over parent links that a closing bracket starts at the last token. */
  function CloseWalk(toks: seq<Token>, i: nat, typ: TokenType, super: int): (w: Walk)
    requires Linked(toks) && i < |toks|
    ensures w.Closes? ==> w.index <= i && Open(toks[w.index]) && toks[w.index].typ == typ
  {
    if Open(toks[i]) then (if toks[i].typ != typ then Mismatch else Closes(i))
    else if toks[i].parent == -1 then (if toks[i].typ != typ || super == -1 then Mismatch else Ignored)
    else CloseWalk(toks, toks[i].parent, typ, super)
  }

  /** A new token under the superior token. */
  function Append(s: State, t: Token, pos: nat, super: int): (r: State)
    requires -1 <= s.super < |s.toks|
    ensures |r.toks| == |s.toks| + 1 && r.pos == pos && r.super == super
  {
    State(pos, Bump(s.toks, s.super) + [t], super)
  }

  function StepOpen(s: State, typ: TokenType, cap: nat): (o: Outcome)
    requires Sound(s)
    ensures o.Next? ==> Sound(o.st) && o.st.pos == s.pos + 1
    ensures o.Stop? ==> o.code < 0
  {
    if |s.toks| >= cap then Stop(ERROR_NOMEM)
    else Next(Append(s, Token(typ, s.pos, -1, 0, s.super), s.pos + 1, |s.toks|))
  }

  function StepClose(s: State, typ: TokenType): (o: Outcome)
    requires Sound(s)
    ensures o.Next? ==> Sound(o.st) && o.st.pos == s.pos + 1
    ensures o.Stop? ==> o.code < 0
  {
    if |s.toks| < 1 then Stop(ERROR_INVAL)
    else
      match CloseWalk(s.toks, |s.toks| - 1, typ, s.super)
      case Mismatch => Stop(ERROR_INVAL)
      case Ignored => Next(s.(pos := s.pos + 1))
      case Closes(i) =>
        Next(State(s.pos + 1, s.toks[i := s.toks[i].(end := s.pos + 1)], s.toks[i].parent))
  }

  function StepString(js: string, s: State, cap: nat): (o: Outcome)
    requires Sound(s) && s.pos < |js|
    ensures o.Next? ==> Sound(o.st) && s.pos < o.st.pos <= |js|
    ensures o.Stop? ==> o.code < 0
  {
    match ScanString(js, s.pos + 1)
    case Bad(code) => Stop(code)
    case At(q) =>
      if |s.toks| >= cap then Stop(ERROR_NOMEM)
      else Next(Append(s, Token(String, s.pos + 1, q, 0, s.super), q + 1, s.super))
  }

  /** Strict mode: a primitive must not be a key, nor a second value of a key. */
  predicate PrimitiveMisplaced(s: State)
    requires Sound(s)
  {
    s.super != -1 && (s.toks[s.super].typ.Object? || (s.toks[s.super].typ.String? && s.toks[s.super].size != 0))
  }

  function StepPrimitive(js: string, s: State, cap: nat): (o: Outcome)
    requires Sound(s) && s.pos < |js| && StartsPrimitive(js[s.pos])
    ensures o.Next? ==> Sound(o.st) && s.pos < o.st.pos <= |js|
    ensures o.Stop? ==> o.code < 0
  {
    if PrimitiveMisplaced(s) then Stop(ERROR_INVAL)
    else
      match ScanPrimitive(js, s.pos)
      case Bad(code) => Stop(code)
      case At(q) =>
        if |s.toks| >= cap then Stop(ERROR_NOMEM)
        else Next(Append(s, Token(Primitive, s.pos, q, 0, s.super), q, s.super))
  }

  function AfterComma(s: State): (super: int)
    requires Sound(s)
    ensures -1 <= super < |s.toks|
  {
    if s.super != -1 && !Container(s.toks[s.super].typ) then s.toks[s.super].parent else s.super
  }

  /** What the loop of jsmn_parse does with the character at s.pos. */
  function Step(js: string, s: State, cap: nat): (o: Outcome)
    requires Sound(s) && s.pos < |js|
    ensures o.Next? ==> Sound(o.st) && s.pos < o.st.pos <= |js|
    ensures o.Stop? ==> o.code < 0
  {
    var c := js[s.pos];
    if c == '{' then StepOpen(s, Object, cap)
    else if c == '[' then StepOpen(s, Array, cap)
    else if c == '}' then StepClose(s, Object)
    else if c == ']' then StepClose(s, Array)
    else if c == '\"' then StepString(js, s, cap)
    else if IsSpace(c) then Next(s.(pos := s.pos + 1))
    else if c == ':' then Next(s.(pos := s.pos + 1, super := |s.toks| - 1))
    else if c == ',' then Next(s.(pos := s.pos + 1, super := AfterComma(s)))
    else if StartsPrimitive(c) then StepPrimitive(js, s, cap)
    else Stop(ERROR_INVAL)
  }

  predicate HasOpen(toks: seq<Token>) {
    exists i :: 0 <= i < |toks| && Open(toks[i])
  }

  /** The return value of jsmn_parse and the state it leaves behind. */
  datatype Result = Result(code: int, st: State)

  function Run(js: string, s: State, cap: nat): (r: Result)
    requires Sound(s)
    ensures Sound(r.st)
    decreases |js| - s.pos
  {
    if AtEnd(js, s.pos) then Result(if HasOpen(s.toks) then ERROR_PART else |s.toks|, s)
    else
      match Step(js, s, cap)
      case Stop(code) => Result(code, s)
      case Next(s') => Run(js, s', cap)
  }

  datatype CountOutcome = Counted(pos: nat, tokens: nat) | CountStop(code: int)

  /** One iteration without a token array: only the position and the count move. */
  function CountStep(js: string, p: nat): (o: CountOutcome)
    requires p < |js|
    ensures o.Counted? ==> p < o.pos <= |js|
    ensures o.CountStop? ==> o.code < 0
  {
    var c := js[p];
    if c == '{' || c == '[' then Counted(p + 1, 1)
    else if c == '\"' then
      match ScanString(js, p + 1)
      case Bad(code) => CountStop(code)
      case At(q) => Counted(q + 1, 1)
    else if c == '}' || c == ']' || IsSpace(c) || c == ':' || c == ',' then Counted(p + 1, 0)
    else if StartsPrimitive(c) then
      match ScanPrimitive(js, p)
      case Bad(code) => CountStop(code)
      case At(q) => Counted(q, 1)
    else CountStop(ERROR_INVAL)
  }

  /** The call without a token array. */
  function CountRun(js: string, p: nat, count: nat): (r: int)
    decreases |js| - p
  {
    if AtEnd(js, p) then count
    else
      match CountStep(js, p)
      case CountStop(code) => code
      case Counted(q, n) => CountRun(js, q, count + n)
  }

  // ---------------------------------------------------------------- the algorithm in place

  class Parser {
    var pos: nat
    var toknext: nat
    var toksuper: int

    constructor ()
      ensures pos == 0 && toknext == 0 && toksuper == -1
    {
      pos, toknext, toksuper := 0, 0, -1;
    }

    /** The parser state over the tokens written so far. */
    ghost function View(tokens: array<Token>): State
      requires toknext <= tokens.Length
      reads this, tokens
    {
      State(pos, tokens[..toknext], toksuper)
    }

    ghost predicate Valid(tokens: array?<Token>, numTokens: nat)
      reads this, tokens
    {
      if tokens == null then toknext == 0 && toksuper == -1
      else toknext <= tokens.Length && numTokens <= tokens.Length && Sound(View(tokens))
    }

    /** Index of a fresh token, or -1 when all numTokens are taken. */
    method AllocToken(tokens: array<Token>, numTokens: nat) returns (tok: int)
      requires Valid(tokens, numTokens)
      modifies this`toknext, tokens
      ensures tok == if old(toknext) >= numTokens then -1 else old(toknext)
      ensures tok == -1 ==> toknext == old(toknext) && forall i :: 0 <= i < tokens.Length ==>
              tokens[i] == old(tokens[i])
      ensures tok >= 0 ==> toknext == tok + 1 <= tokens.Length
                           && (forall i :: 0 <= i < tokens.Length && i != tok ==> tokens[i] == old(tokens[i]))
                           && tokens[tok].start == -1 && tokens[tok].end == -1
                           && tokens[tok].size == 0 && tokens[tok].parent == -1
    {
      if toknext >= numTokens {
        return -1;
      }
      tok := toknext;
      toknext := toknext + 1;
      tokens[tok] := tokens[tok].(start := -1, end := -1, size := 0, parent := -1);
    }

    /** Adds one child to the superior token. */
    method BumpSuper(tokens: array<Token>)
      requires -1 <= toksuper < tokens.Length
      modifies tokens
      ensures tokens[..] == Bump(old(tokens[..]), toksuper)
    {
      if toksuper != -1 {
        tokens[toksuper] := tokens[toksuper].(size := tokens[toksuper].size + 1);
      }
    }

    method ParsePrimitive(js: string, tokens: array?<Token>, numTokens: nat) returns (r: int)
      requires Valid(tokens, numTokens) && pos < |js| && StartsPrimitive(js[pos])
      modifies this`pos, this`toknext, tokens
      ensures r == match ScanPrimitive(js, old(pos))
                   case Bad(code) => code
                   case At(_) => if tokens != null && old(toknext) >= numTokens then ERROR_NOMEM else 0
      ensures r < 0 ==> pos == old(pos) && toknext == old(toknext) && (tokens != null ==> tokens[..] == old(tokens[..]))
      ensures r >= 0 ==> pos + 1 == ScanPrimitive(js, old(pos)).pos
      ensures r >= 0 && tokens == null ==> toknext == old(toknext)
      ensures r >= 0 && tokens != null ==>
        toknext == old(toknext) + 1 <= tokens.Length
        && tokens[..toknext] == old(tokens[..toknext]) + [Token(Primitive, old(pos), pos + 1, 0, toksuper)]
        && forall i :: toknext <= i < tokens.Length ==> tokens[i] == old(tokens[i])
    {
      var start := pos;
      while pos < |js| && js[pos] != '\0' && !Delimits(js[pos])
        invariant start <= pos <= |js|
        invariant ScanPrimitive(js, pos) == ScanPrimitive(js, start)
        invariant pos == start ==> !Delimits(js[pos])
        decreases |js| - pos
        modifies this`pos
      {
        if js[pos] as int < 32 || js[pos] as int >= 127 {
          pos := start;
          return ERROR_INVAL;
        }
        pos := pos + 1;
      }
      if AtEnd(js, pos) {
        pos := start;
        return ERROR_PART;
      }
      if tokens == null {
        pos := pos - 1;
        return 0;
      }
      var token := AllocToken(tokens, numTokens);
      if token == -1 {
        pos := start;
        return ERROR_NOMEM;
      }
      tokens[token] := Token(Primitive, start, pos, 0, toksuper);
      assert tokens[..token] == old(tokens[..toknext]);
      pos := pos - 1;
      return 0;
    }

    /** Moves from a backslash to the last character of its escape sequence. */
    method SkipEscape(js: string) returns (ok: bool)
      requires pos + 1 < |js| && js[pos] == '\\'
      modifies this`pos
      ensures ok ==> old(pos) < pos < |js| && ScanString(js, old(pos)) == ScanString(js, pos + 1)
      ensures !ok ==> ScanString(js, old(pos)) == Bad(ERROR_INVAL)
    {
      ghost var here := pos;
      pos := pos + 1;
      if IsEscaped(js[pos]) {
        return true;
      }
      if js[pos] != 'u' {
        return false;
      }
      pos := pos + 1;
      var i := 0;
      while i < 4 && pos < |js| && js[pos] != '\0'
        invariant 0 <= i <= 4 && here + 2 <= pos <= |js|
        invariant ScanHex(js, pos, 4 - i) == ScanHex(js, here + 2, 4)
      {
        if !IsHex(js[pos]) {
          return false;
        }
        pos := pos + 1;
        i := i + 1;
      }
      pos := pos - 1;
      return true;
    }

    method ParseString(js: string, tokens: array?<Token>, numTokens: nat) returns (r: int)
      requires Valid(tokens, numTokens) && pos < |js|
      modifies this`pos, this`toknext, tokens
      ensures r == match ScanString(js, old(pos) + 1)
                   case Bad(code) => code
                   case At(_) => if tokens != null && old(toknext) >= numTokens then ERROR_NOMEM else 0
      ensures r < 0 ==> pos == old(pos) && toknext == old(toknext) && (tokens != null ==> tokens[..] == old(tokens[..]))
      ensures r >= 0 ==> pos == ScanString(js, old(pos) + 1).pos
      ensures r >= 0 && tokens == null ==> toknext == old(toknext)
      ensures r >= 0 && tokens != null ==>
        toknext == old(toknext) + 1 <= tokens.Length
        && tokens[..toknext] == old(tokens[..toknext]) + [Token(String, old(pos) + 1, pos, 0, toksuper)]
        && forall i :: toknext <= i < tokens.Length ==> tokens[i] == old(tokens[i])
    {
      var start := pos;
      pos := pos + 1;
      while pos < |js| && js[pos] != '\0' && js[pos] != '\"'
        invariant start < pos <= |js|
        invariant ScanString(js, pos) == ScanString(js, start + 1)
        decreases |js| - pos
        modifies this`pos
      {
        if js[pos] == '\\' && pos + 1 < |js| {
          var ok := SkipEscape(js);
          if !ok {
            pos := start;
            return ERROR_INVAL;
          }
        }
        pos := pos + 1;
      }
      if AtEnd(js, pos) {
        pos := start;
        return ERROR_PART;
      }
      if tokens == null {
        return 0;
      }
      var token := AllocToken(tokens, numTokens);
      if token == -1 {
        pos := start;
        return ERROR_NOMEM;
      }
      tokens[token] := Token(String, start + 1, pos, 0, toksuper);
      assert tokens[..token] == old(tokens[..toknext]);
      return 0;
    }

    /** The state is that of the outcome, except for the increment of the loop header. */
    ghost predicate Reached(tokens: array<Token>, r: int, s: State, o: Outcome)
      requires toknext <= tokens.Length
      reads this, tokens
    {
      match o
      case Stop(code) => r == code && View(tokens) == s
      case Next(s') => r == 0 && View(tokens).(pos := pos + 1) == s'
    }

    /** The closing-bracket case: walks up from the last token to the innermost open one. */
    method CloseBracket(tokens: array<Token>, numTokens: nat, typ: TokenType) returns (r: int)
      requires Valid(tokens, numTokens)
      modifies this`toksuper, tokens
      ensures Reached(tokens, r, old(View(tokens)), StepClose(old(View(tokens)), typ))
      ensures forall i :: toknext <= i < tokens.Length ==> tokens[i] == old(tokens[i])
    {
      if toknext < 1 {
        return ERROR_INVAL;
      }
      ghost var toks := tokens[..toknext];
      var token: nat := toknext - 1;
      while true
        invariant token < toknext
        invariant tokens[..] == old(tokens[..]) && toksuper == old(toksuper)
        invariant CloseWalk(toks, token, typ, toksuper) == CloseWalk(toks, toknext - 1, typ, toksuper)
        decreases token
      {
        if Open(tokens[token]) {
          if tokens[token].typ != typ {
            return ERROR_INVAL;
          }
          tokens[token] := tokens[token].(end := pos + 1);
          toksuper := tokens[token].parent;
          return 0;
        }
        if tokens[token].parent == -1 {
          if tokens[token].typ != typ || toksuper == -1 {
            return ERROR_INVAL;
          }
          return 0;
        }
        token := tokens[token].parent;
      }
    }

    /** An opening bracket: a new token, which becomes the superior one. */
    method OpenBracket(tokens: array<Token>, numTokens: nat, typ: TokenType) returns (r: int)
      requires Valid(tokens, numTokens)
      modifies this`toknext, this`toksuper, tokens
      ensures toknext <= tokens.Length
      ensures Reached(tokens, r, old(View(tokens)), StepOpen(old(View(tokens)), typ, numTokens))
      ensures toknext >= old(toknext) && forall i :: toknext <= i < tokens.Length ==> tokens[i] == old(tokens[i])
    {
      ghost var s := View(tokens);
      var token := AllocToken(tokens, numTokens);
      if token == -1 {
        return ERROR_NOMEM;
      }
      BumpSuper(tokens);
      tokens[token] := Token(typ, pos, -1, 0, toksuper);
      toksuper := toknext - 1;
      assert View(tokens).(pos := pos + 1) == StepOpen(s, typ, numTokens).st by {
        assert tokens[..toknext] == Bump(s.toks, s.super) + [Token(typ, pos, -1, 0, s.super)];
      }
      return 0;
    }

    /** A string or a primitive together with the child count of its superior token. */
    method TakeString(js: string, tokens: array?<Token>, numTokens: nat) returns (r: int)
      requires Valid(tokens, numTokens) && pos < |js|
      modifies this`pos, this`toknext, tokens
      ensures tokens == null ==> toknext == old(toknext)
      ensures tokens == null ==> r == match ScanString(js, old(pos) + 1) case Bad(code) => code case At(_) => 0
      ensures tokens == null && r == 0 ==> pos == ScanString(js, old(pos) + 1).pos
      ensures tokens != null ==> toknext <= tokens.Length
      ensures tokens != null ==> Reached(tokens, r, old(View(tokens)), StepString(js, old(View(tokens)), numTokens))
      ensures tokens != null ==> toknext >= old(toknext) && forall i :: toknext <= i < tokens.Length ==>
              tokens[i] == old(tokens[i])
    {
      r := ParseString(js, tokens, numTokens);
      if r >= 0 && tokens != null {
        BumpSuper(tokens);
      }
    }

    method TakePrimitive(js: string, tokens: array?<Token>, numTokens: nat) returns (r: int)
      requires Valid(tokens, numTokens) && pos < |js| && StartsPrimitive(js[pos])
      modifies this`pos, this`toknext, tokens
      ensures tokens == null ==> toknext == old(toknext)
      ensures tokens == null ==> r == match ScanPrimitive(js, old(pos)) case Bad(code) => code case At(_) => 0
      ensures tokens == null && r == 0 ==> pos + 1 == ScanPrimitive(js, old(pos)).pos
      ensures tokens != null ==> toknext <= tokens.Length
      ensures tokens != null ==> Reached(tokens, r, old(View(tokens)), StepPrimitive(js, old(View(tokens)), numTokens))
      ensures tokens != null ==> toknext >= old(toknext) && forall i :: toknext <= i < tokens.Length ==>
              tokens[i] == old(tokens[i])
    {
      if tokens != null && toksuper != -1 {
        var t := tokens[toksuper];
        if t.typ.Object? || (t.typ.String? && t.size != 0) {
          return ERROR_INVAL;
        }
      }
      r := ParsePrimitive(js, tokens, numTokens);
      if r >= 0 && tokens != null {
        BumpSuper(tokens);
      }
    }

    /** The body of the parser loop; `added` is the increment of its token count. */
    method ParseChar(js: string, tokens: array?<Token>, numTokens: nat) returns (r: int, added: nat)
      requires Valid(tokens, numTokens) && pos < |js|
      modifies this, tokens
      ensures tokens == null ==> toknext == 0 && toksuper == -1
      ensures tokens == null ==>
        match CountStep(js, old(pos))
        case CountStop(code) => r == code
        case Counted(q, n) => r == 0 && pos + 1 == q && added == n
      ensures tokens != null ==> toknext <= tokens.Length
      ensures tokens != null ==> Reached(tokens, r, old(View(tokens)), Step(js, old(View(tokens)), numTokens))
      ensures tokens != null && r == 0 ==> toknext == old(toknext) + added
      ensures tokens != null ==> toknext >= old(toknext) && forall i :: toknext <= i < tokens.Length ==>
              tokens[i] == old(tokens[i])
    {
      var c := js[pos];
      r, added := 0, 0;
      if c == '{' || c == '[' {
        added := 1;
        if tokens != null {
          r := OpenBracket(tokens, numTokens, if c == '{' then Object else Array);
        }
      } else if c == '}' || c == ']' {
        if tokens != null {
          r := CloseBracket(tokens, numTokens, if c == '}' then Object else Array);
        }
      } else if c == '\"' {
        added := 1;
        r := TakeString(js, tokens, numTokens);
      } else if c == ':' {
        toksuper := toknext - 1;
      } else if c == ',' {
        if tokens != null && toksuper != -1 && !Container(tokens[toksuper].typ) {
          toksuper := tokens[toksuper].parent;
        }
      } else if StartsPrimitive(c) {
        added := 1;
        r := TakePrimitive(js, tokens, numTokens);
      } else if !IsSpace(c) {
        r := ERROR_INVAL;
      }
    }

    method Parse(js: string, tokens: array?<Token>, numTokens: nat) returns (r: int)
      requires Valid(tokens, numTokens)
      modifies this, tokens
      ensures Valid(tokens, numTokens)
      ensures tokens == null ==> r == CountRun(js, old(pos), 0)
      ensures tokens != null ==> Result(r, View(tokens)) == Run(js, old(View(tokens)), numTokens)
      ensures tokens != null ==> toknext >= old(toknext) && forall i :: toknext <= i < tokens.Length ==>
              tokens[i] == old(tokens[i])
    {
      hide Step, CountStep, Open;
      var count := toknext;
      while pos < |js| && js[pos] != '\0'
        invariant Valid(tokens, numTokens)
        invariant tokens == null ==> CountRun(js, pos, count) == CountRun(js, old(pos), 0)
        invariant tokens != null ==> count == toknext
        invariant tokens != null ==> Run(js, View(tokens), numTokens) == Run(js, old(View(tokens)), numTokens)
        invariant tokens != null ==> toknext >= old(toknext) && forall i :: toknext <= i < tokens.Length ==>
                  tokens[i] == old(tokens[i])
        decreases |js| - pos
      {
        var added;
        r, added := ParseChar(js, tokens, numTokens);
        if r < 0 {
          return;
        }
        count := count + added;
        pos := pos + 1;
      }
      if tokens != null {
        var unclosed := AnyOpen(tokens);
        if unclosed {
          return ERROR_PART;
        }
      }
      return count;
    }

    /** The backward search for an object or array left unclosed. */
    method AnyOpen(tokens: array<Token>) returns (r: bool)
      requires toknext <= tokens.Length
      ensures r == HasOpen(tokens[..toknext])
    {
      var i := toknext - 1;
      while i >= 0
        invariant -1 <= i < toknext
        invariant forall j :: i < j < toknext ==> !Open(tokens[j])
      {
        if Open(tokens[i]) {
          assert Open(tokens[..toknext][i]);
          return true;
        }
        i := i - 1;
      }
      return false;
    }
  }
}
