/** Strings and primitives of a JSON text, spelled out, against the scanners of ext/jsmn/jsmn.c. */
module JsonSpelling {
  import opened Jsmn
  import opened TokenForest

  /** A character as it is, a backslash with one character, or a code unit in four hexadecimal digits. */
  datatype Item = Plain(c: char) | Escape(c: char) | Unicode(digits: string)

  const HEX := "0123456789ABCDEFabcdef"

  predicate AllHex(ds: string) {
    forall d <- ds :: d in HEX
  }

  predicate Formed(i: Item) {
    match i
    case Plain(c) => c !in "\"\\\0"
    case Escape(c) => c in "\"\\/bfnrt"
    case Unicode(ds) => |ds| == 4 && AllHex(ds)
  }

  predicate AllFormed(items: seq<Item>) {
    forall i <- items :: Formed(i)
  }

  function SpellItem(i: Item): (t: string)
    ensures t != ""
  {
    match i
    case Plain(c) => [c]
    case Escape(c) => "\\" + [c]
    case Unicode(ds) => "\\u" + ds
  }

  function Spell(items: seq<Item>): string {
    if items == [] then "" else SpellItem(items[0]) + Spell(items[1..])
  }

  /** What may stand between the quotes of a string. */
  ghost predicate StringSafe(s: string) {
    exists items :: AllFormed(items) && Spell(items) == s
  }

  /** The text t stands at p. */
  predicate Holds(js: string, p: nat, t: string) {
    p + |t| <= |js| && js[p..p + |t|] == t
  }

  lemma HoldsIs(js: string, p: nat, t: string)
    requires Holds(js, p, t)
    ensures p + |t| <= |js| && js[p..p + |t|] == t
  {
  }

  lemma HoldsSplit(js: string, p: nat, a: string, b: string)
    requires Holds(js, p, a + b)
    ensures Holds(js, p, a) && Holds(js, p + |a|, b)
  {
    assert js[p..p + |a + b|][..|a|] == a;
    assert js[p..p + |a + b|][|a|..] == b;
  }

  lemma HoldsAt(js: string, p: nat, t: string)
    requires Holds(js, p, t)
    ensures forall i :: 0 <= i < |t| ==> js[p + i] == t[i]
  {
    forall i | 0 <= i < |t|
      ensures js[p + i] == t[i]
    {
      assert js[p..p + |t|][i] == js[p + i];
    }
  }

  // ---------------------------------------------------------------- one item

  lemma HexDigits(c: char)
    ensures IsHex(c) <==> c in HEX
  {
    assert HEX == "01234567" + "89ABCDEF" + "abcdef";
  }

  lemma Escapes(c: char)
    ensures IsEscaped(c) <==> c in "\"\\/bfnrt"
  {
  }

  /** Hexadecimal digits are skipped one by one. */
  lemma {:induction false} ScanDigits(js: string, p: nat, ds: string, n: nat)
    requires Holds(js, p, ds) && |ds| <= n && AllHex(ds)
    ensures ScanHex(js, p, n) == ScanHex(js, p + |ds|, n - |ds|)
    decreases |ds|
  {
    if ds != "" {
      FirstDigit(js, p, ds);
      hide IsHex, Holds, HEX, AllHex;
      ScanDigits(js, p + 1, ds[1..], n - 1);
    }
  }

  lemma FirstDigit(js: string, p: nat, ds: string)
    requires Holds(js, p, ds) && AllHex(ds) && ds != ""
    ensures p < |js| && IsHex(js[p]) && js[p] != '\0' && Holds(js, p + 1, ds[1..]) && AllHex(ds[1..])
  {
    assert ds == ds[..1] + ds[1..];
    HoldsSplit(js, p, ds[..1], ds[1..]);
    HoldsAt(js, p, ds[..1]);
    HexDigits(ds[0]);
    hide HEX;
    assert ds[0] in ds && forall d <- ds[1..] :: d in ds;
  }

  /** A well-formed item is skipped as a whole. */
  lemma ScanItem(js: string, p: nat, i: Item)
    requires Formed(i) && Holds(js, p, SpellItem(i))
    ensures ScanString(js, p) == ScanString(js, p + |SpellItem(i)|)
  {
    HoldsAt(js, p, SpellItem(i));
    match i {
      case Plain(c) =>
      case Escape(c) =>
        Escapes(c);
      case Unicode(ds) =>
        HoldsSplit(js, p, "\\u", ds);
        ScanDigits(js, p + 2, ds, 4);
        assert !IsEscaped('u');
    }
  }

  lemma {:induction false} ScanItems(js: string, p: nat, items: seq<Item>)
    requires AllFormed(items) && Holds(js, p, Spell(items))
    ensures ScanString(js, p) == ScanString(js, p + |Spell(items)|)
    decreases |items|
  {
    if items != [] {
      FirstItem(items);
      hide *;
      HoldsSplit(js, p, SpellItem(items[0]), Spell(items[1..]));
      ScanItem(js, p, items[0]);
      ScanItems(js, p + |SpellItem(items[0])|, items[1..]);
    }
  }

  lemma FirstItem(items: seq<Item>)
    requires items != [] && AllFormed(items)
    ensures Formed(items[0]) && AllFormed(items[1..]) && Spell(items) == SpellItem(items[0]) + Spell(items[1..])
  {
  }

  // ---------------------------------------------------------------- what the scan answers

  lemma OneMoreItem(i: Item, rest: seq<Item>)
    requires Formed(i) && AllFormed(rest)
    ensures AllFormed([i] + rest) && Spell([i] + rest) == SpellItem(i) + Spell(rest)
  {
    var items := [i] + rest;
    assert items[0] == i && items[1..] == rest;
    hide SpellItem, Formed;
  }

  lemma MoreSafe(i: Item, s: string)
    requires Formed(i) && StringSafe(s)
    ensures StringSafe(SpellItem(i) + s)
  {
    var rest :| AllFormed(rest) && Spell(rest) == s;
    hide AllFormed, Formed, SpellItem, Spell;
    OneMoreItem(i, rest);
  }

  /** One more item in front of a string. */
  lemma ItemBefore(js: string, p: nat, i: Item, q: nat)
    requires Formed(i) && Holds(js, p, SpellItem(i))
    requires p + |SpellItem(i)| <= q <= |js| && StringSafe(js[p + |SpellItem(i)|..q])
    ensures StringSafe(js[p..q])
  {
    hide *;
    var r := p + |SpellItem(i)|;
    HoldsIs(js, p, SpellItem(i));
    MoreSafe(i, js[r..q]);
    assert js[p..q] == js[p..r] + js[r..q];
  }

  lemma EmptySafe(js: string, p: nat)
    requires p <= |js|
    ensures StringSafe(js[p..p])
  {
    assert AllFormed([]) && Spell([]) == js[p..p];
  }

  /** The digit n places behind p is none, but those before it are. */
  predicate WrongDigit(js: string, p: nat, n: nat) {
    p + n < |js| && js[p + n] !in HEX && js[p + n] != '\0' && AllHex(js[p..p + n])
  }

  /** A code unit that is not spelled by four digits, although the text goes on. */
  ghost predicate WrongDigits(js: string, p: nat) {
    exists n: nat :: n < 4 && WrongDigit(js, p, n)
  }

  /** A backslash that begins no item: a wrong character behind it, or a wrong digit. */
  ghost predicate WrongEscape(js: string, q: nat) {
    && q + 1 < |js| && js[q] == '\\'
    && (js[q + 1] !in "\"\\/bfnrtu" || (js[q + 1] == 'u' && WrongDigits(js, q + 2)))
  }

  lemma OneMoreDigit(js: string, p: nat, r: nat)
    requires p < r <= |js| && js[p] in HEX && AllHex(js[p + 1..r])
    ensures AllHex(js[p..r])
  {
    hide HEX;
    assert js[p..r] == [js[p]] + js[p + 1..r];
  }

  /** The digits behind a backslash and a u: all of them, or fewer at the end of the text, or a wrong one. */
  lemma {:induction false} ScanHexMeans(js: string, p: nat, n: nat)
    requires p <= |js|
    ensures match ScanHex(js, p, n)
            case Bad(code) => exists k: nat :: k < n && WrongDigit(js, p, k)
            case At(r) => r <= p + n && (r == p + n || AtEnd(js, r)) && r <= |js| && AllHex(js[p..r])
    decreases n
  {
    if n > 0 && !AtEnd(js, p) {
      HexDigits(js[p]);
      hide IsHex, HEX;
      if IsHex(js[p]) {
        ScanHexMeans(js, p + 1, n - 1);
        match ScanHex(js, p + 1, n - 1) {
          case Bad(_) =>
            var k: nat :| k < n - 1 && WrongDigit(js, p + 1, k);
            OneMoreDigit(js, p, p + 1 + k);
            assert WrongDigit(js, p, k + 1);
          case At(r) =>
            OneMoreDigit(js, p, r);
        }
      } else {
        assert WrongDigit(js, p, 0);
      }
    }
  }

  lemma LoneBackslash(js: string, p: nat)
    requires p < |js| && js[p] == '\\' && ScanString(js, p) != Bad(ERROR_PART)
    ensures p + 1 < |js|
  {
  }

  lemma FourDigits(js: string, p: nat)
    requires p + 1 < |js| && js[p] == '\\' && js[p + 1] == 'u' && !WrongDigits(js, p + 2)
    requires ScanString(js, p) != Bad(ERROR_PART)
    ensures p + 6 <= |js| && AllHex(js[p + 2..p + 6])
  {
    ScanHexMeans(js, p + 2, 4);
    assert !IsEscaped('u');
    hide ScanHex, AllHex, WrongDigit;
  }

  /** The item that stands at p, when the text neither ends nor goes wrong there. */
  lemma NextItem(js: string, p: nat) returns (i: Item)
    requires !AtEnd(js, p) && js[p] != '\"' && !WrongEscape(js, p) && ScanString(js, p) != Bad(ERROR_PART)
    ensures Formed(i) && Holds(js, p, SpellItem(i))
    ensures p + |SpellItem(i)| <= |js| && ScanString(js, p) == ScanString(js, p + |SpellItem(i)|)
  {
    hide HEX, AllHex, WrongDigits;
    if js[p] == '\\' {
      LoneBackslash(js, p);
      hide ScanString;
      if js[p + 1] == 'u' {
        FourDigits(js, p);
        i := Unicode(js[p + 2..p + 6]);
        assert js[p..p + 6] == "\\u" + js[p + 2..p + 6];
      } else {
        i := Escape(js[p + 1]);
        assert js[p..p + 2] == SpellItem(i);
      }
    } else {
      hide ScanString;
      i := Plain(js[p]);
    }
    ScanItem(js, p, i);
  }

  /** A wrong escape is an error. */
  lemma WrongFails(js: string, q: nat)
    requires WrongEscape(js, q)
    ensures ScanString(js, q) == Bad(ERROR_INVAL)
  {
    Escapes(js[q + 1]);
    if js[q + 1] == 'u' {
      assert !IsEscaped('u');
      var n: nat :| n < 4 && WrongDigit(js, q + 2, n);
      var ds := js[q + 2..q + 2 + n];
      ScanDigits(js, q + 2, ds, 4);
      HexDigits(js[q + 2 + n]);
    }
  }

  /** How the scan ends: at a quote or with the error for a wrong escape behind well-formed items, or at the end. */
  lemma {:induction false} ScanEnds(js: string, p: nat)
    requires p <= |js|
    ensures match ScanString(js, p)
            case At(q) => StringSafe(js[p..q])
            case Bad(code) => code == ERROR_INVAL ==>
              exists q :: p <= q < |js| && StringSafe(js[p..q]) && WrongEscape(js, q)
    decreases |js| - p
  {
    hide StringSafe, HEX, IsHex, ScanHex, AllHex, WrongEscape, SpellItem, Formed, Holds;
    if AtEnd(js, p) || ScanString(js, p) == Bad(ERROR_PART) {
    } else if js[p] == '\"' || WrongEscape(js, p) {
      EmptySafe(js, p);
      if js[p] != '\"' {
        WrongFails(js, p);
      }
    } else {
      var i := NextItem(js, p);
      var r := p + |SpellItem(i)|;
      ScanEnds(js, r);
      hide ScanString;
      match ScanString(js, r) {
        case At(q) =>
          ItemBefore(js, p, i, q);
        case Bad(code) =>
          if code == ERROR_INVAL {
            var q :| r <= q < |js| && StringSafe(js[r..q]) && WrongEscape(js, q);
            ItemBefore(js, p, i, q);
          }
      }
    }
  }

  lemma SafeIsSkipped(js: string, p: nat, q: nat)
    requires p <= q <= |js| && StringSafe(js[p..q])
    ensures ScanString(js, p) == ScanString(js, q)
  {
    var items :| AllFormed(items) && Spell(items) == js[p..q];
    hide AllFormed;
    ScanItems(js, p, items);
  }

  /** The closing quote is found exactly behind a text that well-formed items spell. */
  lemma ScanMeans(js: string, p: nat, q: nat)
    requires p <= |js|
    ensures ScanString(js, p) == At(q) <==> p <= q < |js| && js[q] == '\"' && StringSafe(js[p..q])
  {
    if ScanString(js, p) == At(q) {
      ScanEnds(js, p);
    }
    if p <= q < |js| && js[q] == '\"' && StringSafe(js[p..q]) {
      hide StringSafe;
      SafeIsSkipped(js, p, q);
    }
  }

  /** A string is refused exactly for a wrong escape behind such a text; any other one is cut off by the end. */
  lemma RefusedMeans(js: string, p: nat)
    requires p <= |js|
    ensures ScanString(js, p) == Bad(ERROR_INVAL) <==>
            exists q :: p <= q < |js| && StringSafe(js[p..q]) && WrongEscape(js, q)
  {
    hide StringSafe, WrongEscape;
    ScanEnds(js, p);
    forall q | p <= q < |js| && StringSafe(js[p..q]) && WrongEscape(js, q)
      ensures ScanString(js, p) == Bad(ERROR_INVAL)
    {
      SafeIsSkipped(js, p, q);
      WrongFails(js, q);
    }
  }

  // ---------------------------------------------------------------- one token

  lemma Opens(js: string, p: nat, text: string)
    requires Holds(js, p, "\"" + text)
    ensures js[p] == '\"' && p + 1 + |text| <= |js| && js[p + 1..p + 1 + |text|] == text
  {
    HoldsSplit(js, p, "\"", text);
    HoldsAt(js, p, "\"");
  }

  lemma QuoteStep(js: string, s: State, cap: nat)
    requires Sound(s) && s.pos < |js| && js[s.pos] == '\"'
    ensures Step(js, s, cap) == StepString(js, s, cap)
    ensures CountStep(js, s.pos) == match ScanString(js, s.pos + 1)
                                    case Bad(code) => CountStop(code)
                                    case At(q) => Counted(q + 1, 1)
  {
    hide StepString, ScanString, Linked, StepOpen, StepClose, StepPrimitive, ScanPrimitive, AfterComma, IsSpace, Bump;
  }

  lemma StringFound(js: string, s: State, cap: nat, q: nat)
    requires Sound(s) && s.pos < |js| && ScanString(js, s.pos + 1) == At(q)
    ensures StepString(js, s, cap) == if |s.toks| >= cap then Stop(ERROR_NOMEM)
            else Next(Append(s, Token(String, s.pos + 1, q, 0, s.super), q + 1, s.super))
  {
    hide ScanString, Append, Linked;
  }

  /** A string of any items becomes one token, in the filling pass and in the counting pass. */
  lemma StringStep(js: string, s: State, cap: nat, text: string)
    requires Sound(s) && StringSafe(text) && Holds(js, s.pos, "\"" + text + "\"")
    ensures Step(js, s, cap) == if |s.toks| >= cap then Stop(ERROR_NOMEM)
            else Next(Append(s, Token(String, s.pos + 1, s.pos + 1 + |text|, 0, s.super), s.pos + |text| + 2, s.super))
    ensures CountStep(js, s.pos) == Counted(s.pos + |text| + 2, 1)
  {
    var q := s.pos + 1 + |text|;
    hide *;
    HoldsSplit(js, s.pos, "\"" + text, "\"");
    HoldsAt(js, q, "\"");
    Opens(js, s.pos, text);
    QuoteStep(js, s, cap);
    ScanMeans(js, s.pos + 1, q);
    StringFound(js, s, cap, q);
  }

  /** A wrong escape in a string stops both passes. */
  lemma EscapeStops(js: string, s: State, cap: nat, text: string)
    requires Sound(s) && StringSafe(text) && Holds(js, s.pos, "\"" + text) && WrongEscape(js, s.pos + 1 + |text|)
    ensures Step(js, s, cap) == Stop(ERROR_INVAL) && CountStep(js, s.pos) == CountStop(ERROR_INVAL)
  {
    Opens(js, s.pos, text);
    QuoteStep(js, s, cap);
    hide StringSafe, Holds, WrongEscape, Linked, Append, Step, CountStep;
    RefusedMeans(js, s.pos + 1);
    hide ScanString;
  }

  // ---------------------------------------------------------------- primitives

  /** What a primitive consists of. */
  predicate PrimitiveChar(c: char) {
    ' ' < c <= '~' && c !in ",]}"
  }

  predicate PrimitiveChars(w: string) {
    forall c <- w :: PrimitiveChar(c)
  }

  /** A number, or a word that begins like true, false or null. */
  predicate PrimitiveSafe(w: string) {
    w != "" && w[0] in "-0123456789tfn" && PrimitiveChars(w)
  }

  predicate EndsPrimitive(c: char) {
    c in "\t\r\n ,]}"
  }

  lemma FirstChar(js: string, p: nat, q: nat)
    requires p < q <= |js|
    ensures PrimitiveChars(js[p..q]) <==> PrimitiveChar(js[p]) && PrimitiveChars(js[p + 1..q])
  {
    hide PrimitiveChar;
    var w := [js[p]] + js[p + 1..q];
    assert js[p..q] == w && w[0] in w && forall c <- js[p + 1..q] :: c in w;
  }

  /** How the scan of a primitive ends: at a delimiter, with the error for a wrong character, or at the end. */
  lemma {:induction false} PrimitiveEnds(js: string, p: nat)
    requires p <= |js|
    ensures match ScanPrimitive(js, p)
            case At(q) => PrimitiveChars(js[p..q])
            case Bad(code) => code == ERROR_INVAL ==>
              exists q :: p <= q < |js| && PrimitiveChars(js[p..q]) && WrongChar(js[q])
    decreases |js| - p
  {
    hide PrimitiveChars, PrimitiveChar, Delimits, EndsPrimitive, WrongChar;
    assert PrimitiveChars(js[p..p]) by { Nothing(js, p); }
    if !AtEnd(js, p) && !Delimits(js[p]) {
      CharIs(js[p]);
      if !WrongChar(js[p]) {
        PrimitiveEnds(js, p + 1);
        match ScanPrimitive(js, p + 1) {
          case At(q) =>
            FirstChar(js, p, q);
          case Bad(code) =>
            if code == ERROR_INVAL {
              var q :| p + 1 <= q < |js| && PrimitiveChars(js[p + 1..q]) && WrongChar(js[q]);
              FirstChar(js, p, q);
            }
        }
      }
    }
  }

  lemma Nothing(js: string, p: nat)
    requires p <= |js|
    ensures PrimitiveChars(js[p..p])
  {
  }

  /** Neither part of a primitive, nor its end. */
  predicate WrongChar(c: char) {
    c != '\0' && !EndsPrimitive(c) && !(' ' < c <= '~')
  }

  lemma CharIs(c: char)
    ensures Delimits(c) <==> EndsPrimitive(c)
    ensures c != '\0' && !Delimits(c) ==> (WrongChar(c) <==> c as int < 32 || c as int >= 127)
    ensures c != '\0' && !Delimits(c) && !WrongChar(c) <==> PrimitiveChar(c)
    ensures WrongChar(c) ==> c != '\0' && !Delimits(c)
  {
  }

  /** The characters of a primitive are skipped. */
  lemma {:induction false} PrimitiveIsSkipped(js: string, p: nat, q: nat)
    requires p <= q <= |js| && PrimitiveChars(js[p..q])
    ensures ScanPrimitive(js, p) == ScanPrimitive(js, q)
    decreases q - p
  {
    if p < q {
      FirstChar(js, p, q);
      CharIs(js[p]);
      hide PrimitiveChars, PrimitiveChar, Delimits, WrongChar;
      PrimitiveIsSkipped(js, p + 1, q);
    }
  }

  /** The end of a primitive is found exactly at a delimiter behind such characters. */
  lemma PrimitiveMeans(js: string, p: nat, q: nat)
    requires p <= |js|
    ensures ScanPrimitive(js, p) == At(q) <==>
            p <= q < |js| && EndsPrimitive(js[q]) && PrimitiveChars(js[p..q])
  {
    hide PrimitiveChars;
    PrimitiveEnds(js, p);
    if p <= q < |js| && EndsPrimitive(js[q]) && PrimitiveChars(js[p..q]) {
      PrimitiveIsSkipped(js, p, q);
      CharIs(js[q]);
    }
    if ScanPrimitive(js, p) == At(q) {
      CharIs(js[q]);
    }
  }

  /** A primitive is refused exactly for a wrong character behind such characters; any other is cut off. */
  lemma PrimitiveRefused(js: string, p: nat)
    requires p <= |js|
    ensures ScanPrimitive(js, p) == Bad(ERROR_INVAL) <==>
            exists q :: p <= q < |js| && PrimitiveChars(js[p..q]) && WrongChar(js[q])
  {
    hide PrimitiveChars, WrongChar, Delimits;
    PrimitiveEnds(js, p);
    forall q | p <= q < |js| && PrimitiveChars(js[p..q]) && WrongChar(js[q])
      ensures ScanPrimitive(js, p) == Bad(ERROR_INVAL)
    {
      PrimitiveIsSkipped(js, p, q);
      CharIs(js[q]);
    }
  }

  /** A primitive becomes one token, unless it stands where a key belongs, or is a second value of a key. */
  lemma PrimitiveStep(js: string, s: State, cap: nat, w: string)
    requires Sound(s) && PrimitiveSafe(w) && Holds(js, s.pos, w)
    requires s.pos + |w| < |js| && EndsPrimitive(js[s.pos + |w|])
    ensures CountStep(js, s.pos) == Counted(s.pos + |w|, 1)
    ensures Step(js, s, cap)
            == if s.super >= 0 && s.toks[s.super].typ.Object? then Stop(ERROR_INVAL)
               else if s.super >= 0 && s.toks[s.super].typ.String? && s.toks[s.super].size != 0 then Stop(ERROR_INVAL)
               else if |s.toks| >= cap then Stop(ERROR_NOMEM)
               else Next(Append(s, Token(Primitive, s.pos, s.pos + |w|, 0, s.super), s.pos + |w|, s.super))
  {
    HoldsAt(js, s.pos, w);
    assert js[s.pos] == w[0];
    StartIs(w[0]);
    hide Holds, Linked, StepOpen, StepClose, StepString, Append, PrimitiveChars, EndsPrimitive;
    PrimitiveMeans(js, s.pos, s.pos + |w|);
    hide ScanPrimitive, ScanString;
  }

  lemma StartIs(c: char)
    requires c in "-0123456789tfn"
    ensures StartsPrimitive(c) && c !in "{}[]\":,\t\r\n "
  {
  }
}
