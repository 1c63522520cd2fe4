/** The printer of helpers/json/src/json_generator.c: appends to a fixed character buffer. */
module JsonGenerator {

  const OK := 0
  const E_INVSTART := -0x700A
  const E_OBUF := -0x700B

  /** A value as json_set_object_value takes it; a boolean is true only for 1. */
  datatype Scalar = StrValue(text: string) | BoolValue(value: int) | NullValue

  /** Contents of a C string. */
  predicate NoNul(s: string) {
    forall i :: 0 <= i < |s| ==> s[i] != '\0'
  }

  predicate Blank(c: char) {
    c as int <= 32
  }

  /** The last character that _rev_skip does not skip. */
  function LastSolid(t: string): (c: char)
    requires t != "" && !Blank(t[0])
    ensures !Blank(c)
  {
    if Blank(t[|t| - 1]) then LastSolid(t[..|t| - 1]) else t[|t| - 1]
  }

  /** A new member needs a comma unless it is the first of its object. */
  function Separated(t: string): string
    requires t != "" && !Blank(t[0])
  {
    if LastSolid(t) == '{' then t else t + ","
  }

  function Key(name: string): string {
    "\"" + name + "\":"
  }

  function ScalarText(v: Scalar): string {
    match v
    case StrValue(s) => "\"" + s + "\""
    case BoolValue(b) => if b == 1 then "true" else "false"
    case NullValue => "null"
  }

  /** snprintf keeps only what fits. */
  function Fit(t: string, cap: nat): string {
    if |t| <= cap then t else t[..cap]
  }

  lemma Concat3(t: string, a: string, b: string, c: string)
    ensures t + a + b + c == t + (a + b + c)
  {
  }

  lemma StrMemberText(name: string, str: string)
    requires NoNul(name) && NoNul(str)
    ensures var key := Key(name) + "\"";
            NoNul(key) && NoNul("\"") && |key| == |name| + 4
                && Key(name) + ScalarText(StrValue(str)) == key + str + "\""
    ensures |Key(name) + ScalarText(StrValue(str))| == |name| + |str| + 5
  {
    assert Key(name) + ScalarText(StrValue(str)) == (Key(name) + "\"") + str + "\"";
  }

  class JsonStr {
    var buff: array<char>
    var freePtr: nat

    ghost predicate Valid()
      reads this, buff
    {
      && 0 < buff.Length && freePtr <= buff.Length
      && (forall i :: freePtr <= i < buff.Length ==> buff[i] == '\0')
      && (forall i :: 0 <= i < freePtr ==> buff[i] != '\0')
      && (freePtr > 0 ==> !Blank(buff[0]))
    }

    /** What has been printed. */
    ghost function Text(): (t: string)
      requires Valid()
      reads this, buff
      ensures t != "" ==> !Blank(t[0])
      ensures NoNul(t) && |t| == freePtr <= buff.Length
    {
      buff[..freePtr]
    }

    /** json_str_init. */
    constructor (buffer: array<char>)
      requires buffer.Length > 0
      modifies buffer
      ensures Valid() && Text() == "" && buff == buffer
    {
      buff, freePtr := buffer, 0;
      new;
      var i := 0;
      while i < buffer.Length
        invariant 0 <= i <= buffer.Length && buff == buffer && freePtr == 0
        invariant forall k :: 0 <= k < i ==> buffer[k] == '\0'
      {
        buffer[i] := '\0';
        i := i + 1;
      }
    }

    predicate Full()
      reads this, buff
    {
      freePtr >= buff.Length - 1
    }

    /** Walks back from the end over blanks. */
    method RevSkip() returns (c: char)
      requires Valid() && Text() != ""
      ensures c == LastSolid(Text())
    {
      var i := freePtr - 1;
      assert Text()[..freePtr] == Text();
      while Blank(buff[i])
        invariant 0 <= i < freePtr
        invariant LastSolid(Text()[..i + 1]) == LastSolid(Text())
        decreases i
      {
        assert Text()[..i + 1][..i] == Text()[..i];
        i := i - 1;
      }
      return buff[i];
    }

    /** Writes one character where the terminator is. */
    method Put(c: char)
      requires Valid() && freePtr < buff.Length && !Blank(c)
      modifies this`freePtr, buff
      ensures Valid() && Text() == old(Text()) + [c]
    {
      buff[freePtr] := c;
      freePtr := freePtr + 1;
    }

    /** snprintf at the end of the text, then strlen. */
    method Print(s: string)
      requires Valid() && freePtr < buff.Length && NoNul(s) && Text() != ""
      modifies this`freePtr, buff
      ensures Valid() && Text() == Fit(old(Text()) + s, buff.Length - 1)
      ensures old(freePtr) + |s| < buff.Length ==> Text() == old(Text()) + s
    {
      var room := buff.Length - freePtr;
      var n := if |s| < room then |s| else room - 1;
      var i := 0;
      while i < n
        invariant 0 <= i <= n
        invariant forall k :: 0 <= k < freePtr ==> buff[k] == old(buff[k])
        invariant forall k :: freePtr <= k < freePtr + i ==> buff[k] == s[k - freePtr]
        invariant forall k :: freePtr + i <= k < buff.Length ==> buff[k] == '\0'
        modifies buff
      {
        buff[freePtr + i] := s[i];
        i := i + 1;
      }
      buff[freePtr + n] := '\0';
      freePtr := freePtr + n;
      assert Text() == Fit(old(Text()) + s, buff.Length - 1);
    }

    method Separate()
      requires Valid() && Text() != "" && !Full()
      modifies this`freePtr, buff
      ensures Valid() && freePtr < buff.Length && Text() == Separated(old(Text()))
    {
      var c := RevSkip();
      if c != '{' {
        Put(',');
      }
    }

    method StartObject() returns (ret: int)
      requires Valid()
      modifies this`freePtr, buff
      ensures Valid()
      ensures old(Full()) ==> ret == E_OBUF && Text() == old(Text())
      ensures !old(Full()) ==> ret == OK
      ensures !old(Full()) ==>
        Text() == (if old(Text()) != "" && LastSolid(old(Text())) == '}' then old(Text()) + "," else old(Text())) + "{"
    {
      if Full() {
        return E_OBUF;
      }
      if freePtr != 0 {
        var c := RevSkip();
        if c == '}' {
          Put(',');
        }
      }
      Put('{');
      return OK;
    }

    method CloseObject() returns (ret: int)
      requires Valid()
      modifies this`freePtr, buff
      ensures Valid()
      ensures ret == if old(Full()) then E_OBUF else OK
      ensures Text() == if old(Full()) then old(Text()) else old(Text()) + "}"
    {
      if Full() {
        return E_OBUF;
      }
      Put('}');
      return OK;
    }

    method PushObject(name: string) returns (ret: int)
      requires Valid() && Text() != "" && NoNul(name)
      modifies this`freePtr, buff
      ensures Valid() && Text() != ""
      ensures ret == if old(Full()) then E_OBUF else OK
      ensures Text() == if old(Full()) then old(Text())
                        else Fit(Separated(old(Text())) + (Key(name) + "{"), buff.Length - 1)
    {
      if Full() {
        return E_OBUF;
      }
      Separate();
      Print(Key(name) + "{");
      return OK;
    }

    /** The string case of json_set_object_value: refused as a whole when it does not fit. */
    method PrintStrMember(name: string, str: string) returns (ret: int)
      requires Valid() && Text() != "" && freePtr < buff.Length && NoNul(name) && NoNul(str)
      modifies this`freePtr, buff
      ensures Valid() && Text() != ""
      ensures var t' := old(Text()) + (Key(name) + ScalarText(StrValue(str)));
              if |t'| >= buff.Length then ret == E_OBUF && Text() == old(Text()) else ret == OK && Text() == t'
    {
      hide *;
      StrMemberText(name, str);
      if |str| + |name| + 6 > buff.Length - freePtr {
        return E_OBUF;
      }
      var key := Key(name) + "\"";
      ghost var t := Text();
      Concat3(t, key, str, "\"");
      Print(key);
      Print(str);
      Print("\"");
      return OK;
    }

    /** Strings are refused, after the comma was written, when they do not fit; every other
        value is cut off where the buffer ends. */
    method SetObjectValue(name: string, v: Scalar) returns (ret: int)
      requires Valid() && Text() != "" && NoNul(name) && (v.StrValue? ==> NoNul(v.text))
      modifies this`freePtr, buff
      ensures Valid() && Text() != ""
      ensures ret == SetOutcome(old(Text()), name, v, buff.Length - 1).0
      ensures Text() == SetOutcome(old(Text()), name, v, buff.Length - 1).1
    {
      if buff[0] != '{' && buff[0] != '[' {
        return E_INVSTART;
      }
      if Full() {
        return E_OBUF;
      }
      Separate();
      match v {
        case StrValue(str) =>
          ret := PrintStrMember(name, str);
        case BoolValue(b) =>
          Print(Key(name) + ScalarText(v));
          ret := OK;
        case NullValue =>
          Print(Key(name) + ScalarText(v));
          ret := OK;
      }
    }
  }

  /** Return value and text of json_set_object_value, for a buffer with room for cap characters. */
  function SetOutcome(t: string, name: string, v: Scalar, cap: nat): (r: (int, string))
    requires t != "" && !Blank(t[0])
  {
    if t[0] != '{' && t[0] != '[' then (E_INVSTART, t)
    else if |t| >= cap then (E_OBUF, t)
    else
      var s := Separated(t);
      var t' := s + (Key(name) + ScalarText(v));
      if v.StrValue? && |t'| > cap then (E_OBUF, s) else (OK, Fit(t', cap))
  }
}
