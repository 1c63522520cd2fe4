/** Tag-length-value encoding as modules/crypto/secmodule/src/asn1-cryptogram.c writes and reads it:
    lengths by section 8.1.3 of ITU-T X.690, in the short form below 128 and else in two octets. */
module Der {
  import opened Bytes

  const SEQUENCE: Byte := 0x30
  const OCTET_STRING: Byte := 0x04
  const INTEGER: Byte := 0x02
  const BIT_STRING: Byte := 0x03
  const ZERO_TAG: Byte := 0xA0
  const OID: Byte := 0x06
  const NULL: Byte := 0x05
  const SET: Byte := 0x31

  datatype Option<T> = None | Some(value: T)

  // ---------------------------------------------------------------- the encoding

  /** Identifier and length octets for contents of n octets. */
  function HeaderBytes(tag: Byte, n: nat): (b: seq<Byte>)
    ensures |b| == if n < 0x80 then 2 else 4
  {
    if n < 0x80 then [tag, n] else [tag, 0x82, n / 256 % 256, n % 256]
  }

  function Tlv(tag: Byte, content: seq<Byte>): (b: seq<Byte>)
    ensures |b| == |content| + if |content| < 0x80 then 2 else 4
  {
    HeaderBytes(tag, |content|) + content
  }

  // ---------------------------------------------------------------- writing backwards

  /** _asn1_put_*: each call puts its bytes in front of what is there, if at least one byte
      in front of them stays free. */
  class Writer {
    const data: array<Byte>
    var pos: nat
    var total: nat
    /** Everything written so far. */
    ghost var done: seq<Byte>

    constructor (data: array<Byte>)
      ensures this.data == data && pos == data.Length && total == 0 && done == [] && Valid()
    {
      this.data, pos, total, done := data, data.Length, 0, [];
    }

    ghost predicate Valid()
      reads this, data
    {
      pos <= data.Length && data[pos..] == done
    }

    /** What a call that writes x does. */
    twostate predicate Puts(ok: bool, x: seq<Byte>)
      reads this
    {
      && (ok <==> old(pos) > |x|)
      && (ok ==> pos == old(pos) - |x| && total == old(total) + |x| && done == x + old(done))
    }

    /** memcpy into the free part. */
    method Copy(at: nat, x: seq<Byte>)
      requires at + |x| <= data.Length
      modifies data
      ensures data[..] == old(data[..at]) + x + old(data[at + |x|..])
    {
      var i := 0;
      while i < |x|
        invariant 0 <= i <= |x|
        invariant forall k :: 0 <= k < data.Length ==> data[k] == if at <= k < at + i then x[k - at] else old(data[k])
      {
        data[at + i] := x[i];
        i := i + 1;
      }
    }

    method PutRaw(x: seq<Byte>) returns (ok: bool)
      requires Valid()
      modifies this, data
      ensures Valid() && Puts(ok, x)
    {
      if pos > |x| {
        Copy(pos - |x|, x);
        pos, total, done := pos - |x|, total + |x|, x + done;
        return true;
      }
      return false;
    }

    method PutHeader(tag: Byte, n: nat) returns (ok: bool)
      requires Valid()
      modifies this, data
      ensures Valid() && Puts(ok, HeaderBytes(tag, n))
    {
      var size := if n < 0x80 then 2 else 4;
      if pos > size {
        pos := pos - size;
        data[pos] := tag;
        if n < 0x80 {
          data[pos + 1] := n;
        } else {
          data[pos + 1], data[pos + 2], data[pos + 3] := 0x82, n / 256 % 256, n % 256;
        }
        total, done := total + size, HeaderBytes(tag, n) + done;
        return true;
      }
      return false;
    }

    method PutUint8(val: Byte) returns (ok: bool)
      requires Valid()
      modifies this, data
      ensures Valid() && Puts(ok, [INTEGER, 1, val])
    {
      if pos > 3 {
        pos := pos - 3;
        data[pos], data[pos + 1], data[pos + 2] := INTEGER, 1, val;
        total, done := total + 3, [INTEGER, 1, val] + done;
        return true;
      }
      return false;
    }

    /** A zero octet keeps an integer with its top bit set positive. */
    method PutArray(tag: Byte, x: seq<Byte>) returns (ok: bool, size: nat)
      requires Valid() && |x| > 0
      modifies this, data
      ensures Valid() && Puts(ok, ArrayBytes(tag, x)) && size == |ArrayBytes(tag, x)|
    {
      hide Puts;
      var prefix := [tag, |x| % 256];
      if tag == INTEGER && x[0] >= 0x80 {
        prefix := [tag, (|x| + 1) % 256, 0];
      }
      size := |prefix| + |x|;
      ok := PutRaw(prefix + x);
    }
  }

  function ArrayBytes(tag: Byte, x: seq<Byte>): (b: seq<Byte>)
    requires |x| > 0
  {
    if tag == INTEGER && x[0] >= 0x80 then [tag, (|x| + 1) % 256, 0] + x else [tag, |x| % 256] + x
  }

  /** Short arrays are written as tag, length and value; integers become the value with a sign octet. */
  lemma ArrayIsTlv(tag: Byte, x: seq<Byte>)
    requires 0 < |x| < 0x7F
    ensures ArrayBytes(tag, x) == Tlv(tag, if tag == INTEGER && x[0] >= 0x80 then [0] + x else x)
  {
  }

  // ---------------------------------------------------------------- reading forwards

  /** _asn1_step_into: what follows the header. A read past the end counts as a failure. */
  function StepInto(tag: Byte, s: seq<Byte>): (r: Option<seq<Byte>>)
    ensures r.Some? ==> |r.value| < |s|
  {
    if |s| <= 2 || s[0] != tag then None
    else
      var n := if s[1] >= 0x80 then 2 + s[1] % 16 else 2;
      if n > |s| then None else Some(s[n..])
  }

  /** _asn1_skip: what follows the element. */
  function Skip(tag: Byte, s: seq<Byte>): (r: Option<seq<Byte>>)
    ensures r.Some? ==> |r.value| < |s|
  {
    if |s| < 2 || s[0] != tag then None
    else if s[1] < 0x80 then (if 2 + s[1] > |s| then None else Some(s[2 + s[1]..]))
    else if |s| < 3 || (s[1] % 16 == 2 && |s| < 4) then None
    else
      var sizeBytes := s[1] % 16;
      var size := if sizeBytes == 2 then s[2] as int * 256 + s[3] else s[2];
      if 2 + sizeBytes + size > |s| then None else Some(s[2 + sizeBytes + size..])
  }

  /** _asn1_get_array: the value of a short element, and what follows. */
  function GetArray(tag: Byte, s: seq<Byte>): (r: Option<(seq<Byte>, seq<Byte>)>)
    ensures r.Some? ==> |r.value.1| < |s|
  {
    if |s| < 2 || s[0] != tag || s[1] >= 0x80 || 2 + s[1] > |s| then None
    else Some((s[2..2 + s[1]], s[2 + s[1]..]))
  }

  /** _asn1_get_size: size of the whole element; 0 when the length has more than two octets. */
  function GetSize(s: seq<Byte>): nat {
    if |s| < 2 then 0
    else if s[1] > 0x80 then
      var count := s[1] % 128;
      if count > 2 || 2 + count > |s| then 0
      else if count == 1 then s[2] as int + 3
      else s[2] as int * 256 + s[3] + 4
    else s[1] as int + 2
  }

  /** Where a header can be entered, its element can be skipped, unless it reaches past the end of the input: no
      other header is refused. */
  lemma SkipsEntered(tag: Byte, s: seq<Byte>, tail: seq<Byte>)
    requires StepInto(tag, s).Some? && |tail| > 0x1_0000
    ensures Skip(tag, s + tail).Some?
    ensures Skip(tag, s) == None <==> |Skip(tag, s + tail).value| < |tail|
  {
    var t := s + tail;
    assert t[0] == s[0] && t[1] == s[1] && t[2] == s[2];
    assert |s| >= 4 ==> t[3] == s[3];
  }

  /** Where header, content and tail lie. */
  lemma TlvParts(tag: Byte, content: seq<Byte>, tail: seq<Byte>)
    requires |content| < 0x1_0000
    ensures var s, h := Tlv(tag, content) + tail, |HeaderBytes(tag, |content|)|;
            && |s| == h + |content| + |tail| && s[0] == tag
            && s[h..] == content + tail && s[h + |content|..] == tail && s[h..h + |content|] == content
            && (|content| < 0x80 ==> h == 2 && s[1] == |content|)
            && (|content| >= 0x80 ==> h == 4 && s[1] == 0x82 && s[2] as int * 256 + s[3] == |content|)
  {
    var s, h := Tlv(tag, content) + tail, |HeaderBytes(tag, |content|)|;
    assert s == HeaderBytes(tag, |content|) + (content + tail);
    assert s[h + |content|..] == s[h..][|content|..];
  }

  /** Readers undo the encoding of contents up to 65535 octets. */
  lemma ReadsTlv(tag: Byte, content: seq<Byte>, tail: seq<Byte>)
    requires |content| < 0x1_0000
    ensures content + tail != [] ==> StepInto(tag, Tlv(tag, content) + tail) == Some(content + tail)
    ensures Skip(tag, Tlv(tag, content) + tail) == Some(tail)
    ensures |content| < 0x80 ==> GetArray(tag, Tlv(tag, content) + tail) == Some((content, tail))
    ensures GetSize(Tlv(tag, content) + tail) == |Tlv(tag, content)|
  {
    TlvParts(tag, content, tail);
    hide Tlv, HeaderBytes;
  }

  /** The reading position, which every successful call moves forward. */
  class Reader {
    const data: seq<Byte>
    var pos: nat

    constructor (data: seq<Byte>)
      ensures this.data == data && pos == 0 && Valid()
    {
      this.data, pos := data, 0;
    }

    ghost predicate Valid()
      reads this
    {
      pos <= |data|
    }

    /** What lies ahead. */
    function Ahead(): seq<Byte>
      requires Valid()
      reads this
    {
      data[pos..]
    }

    method Enter(tag: Byte) returns (ok: bool)
      requires Valid()
      modifies this
      ensures Valid()
      ensures var r := StepInto(tag, old(Ahead()));
              if r.None? then !ok && pos == old(pos) else ok && Ahead() == r.value
    {
      if |data| - pos <= 2 || tag != data[pos] {
        return false;
      }
      var skip := 2;
      if data[pos + 1] >= 0x80 {
        skip := skip + data[pos + 1] % 16;
      }
      if pos + skip > |data| {
        return false;
      }
      assert old(Ahead())[skip..] == data[pos + skip..];
      pos := pos + skip;
      return true;
    }

    method Pass(tag: Byte) returns (ok: bool)
      requires Valid()
      modifies this
      ensures Valid()
      ensures var r := Skip(tag, old(Ahead()));
              if r.None? then !ok && pos == old(pos) else ok && Ahead() == r.value
    {
      if |data| - pos < 2 || tag != data[pos] {
        return false;
      }
      var skip: int;
      if data[pos + 1] < 0x80 {
        skip := 2 + data[pos + 1];
      } else {
        if |data| - pos < 3 || (data[pos + 1] % 16 == 2 && |data| - pos < 4) {
          return false;
        }
        var sizeBytes := data[pos + 1] % 16;
        var size: int := data[pos + 2];
        if sizeBytes == 2 {
          size := size * 256 + data[pos + 3];
        }
        skip := 2 + sizeBytes + size;
      }
      if pos + skip > |data| {
        return false;
      }
      assert old(Ahead())[skip..] == data[pos + skip..];
      pos := pos + skip;
      return true;
    }

    method Take(tag: Byte) returns (ok: bool, value: seq<Byte>)
      requires Valid()
      modifies this
      ensures Valid()
      ensures var r := GetArray(tag, old(Ahead()));
              if r.None? then !ok && pos == old(pos) else ok && (value, Ahead()) == r.value
    {
      if |data| - pos < 2 || tag != data[pos] || data[pos + 1] >= 0x80 || pos + 2 + data[pos + 1] > |data| {
        return false, [];
      }
      var size: int := data[pos + 1];
      value := data[pos + 2..pos + 2 + size];
      assert old(Ahead())[2 + size..] == data[pos + 2 + size..] && old(Ahead())[2..2 + size] == value;
      pos := pos + 2 + size;
      return true, value;
    }
  }
}
