// The binary socket protocol's text codec: UTF-16 code units to UTF-8
// bytes (section 3 of RFC 3629, one code unit at a time) stored through a
// signed byte array, and bytes read back through an unsigned view into code
// units.
module BinaryProtocol {

  /** A UTF-16 code unit, as `charCodeAt` and `fromCharCode` see it. */
  type Unit = c: int | 0 <= c < 0x1_0000

  /** A byte of a buffer, as an unsigned view reads it. */
  type Byte = b: int | 0 <= b < 0x100

  /** An element of a signed byte array. */
  type Int8 = v: int | -0x80 <= v < 0x80

  /** Storing a byte value through a signed view keeps its low eight bits
      as a two's-complement number. */
  function ToInt8(b: Byte): (v: Int8)
    ensures v == b || v == b - 0x100
  {
    if b < 0x80 then b else b - 0x100
  }

  /** The byte a signed element occupies in the buffer. */
  function ToByte(v: Int8): (b: Byte)
    ensures b == v || b == v + 0x100
  {
    if v < 0 then v + 0x100 else v
  }

  function Int8sOf(bs: seq<Byte>): (vs: seq<Int8>)
    ensures |vs| == |bs| && forall k :: 0 <= k < |bs| ==> vs[k] == ToInt8(bs[k])
  {
    seq(|bs|, k requires 0 <= k < |bs| => ToInt8(bs[k]))
  }

  /** The buffer under a signed array, read through an unsigned view. */
  function BytesOf(vs: seq<Int8>): (bs: seq<Byte>)
    ensures |bs| == |vs| && forall k :: 0 <= k < |vs| ==> bs[k] == ToByte(vs[k])
  {
    seq(|vs|, k requires 0 <= k < |vs| => ToByte(vs[k]))
  }

  /** Reading the bytes back through the unsigned view gives the bytes
      that were stored. */
  lemma ViewRoundTrip(bs: seq<Byte>)
    ensures BytesOf(Int8sOf(bs)) == bs
  {
  }

  // ---- Encoding ----

  /** The bytes of one code unit: one below 0x80, `110xxxxx 10xxxxxx`
      below 0x800, `1110xxxx 10xxxxxx 10xxxxxx` otherwise. A code unit never
      reaches 0x10000, so the four-byte form is never taken and each half
      of a surrogate pair gets three bytes of its own. */
  function EncodeUnit(c: Unit): (bs: seq<Byte>)
    ensures |bs| == if c < 0x80 then 1 else if c < 0x800 then 2 else 3
    ensures c < 0x80 ==> bs == [c]
    ensures 0x80 <= c < 0x800 ==> bs[0] / 0x20 == 0x6 && bs[1] / 0x40 == 0x2
    ensures 0x800 <= c ==> bs[0] / 0x10 == 0xE && bs[1] / 0x40 == 0x2 && bs[2] / 0x40 == 0x2
  {
    if c >= 0x800 then [0xE0 + c / 0x1000, 0x80 + (c / 0x40) % 0x40, 0x80 + c % 0x40]
    else if c >= 0x80 then [0xC0 + c / 0x40, 0x80 + c % 0x40]
    else [c]
  }

  /** The bytes of a string, unit after unit. */
  function Encode(s: seq<Unit>): seq<Byte> {
    if s == [] then [] else EncodeUnit(s[0]) + Encode(s[1..])
  }

  lemma {:induction false} EncodeSnoc(s: seq<Unit>, c: Unit)
    ensures Encode(s + [c]) == Encode(s) + EncodeUnit(c)
  {
    if s == [] {
      assert [c][1..] == [];
    } else {
      assert (s + [c])[1..] == s[1..] + [c];
      EncodeSnoc(s[1..], c);
    }
  }

  /** The encoder: the bytes of every unit, then a signed array of that
      length filled from them; its last pass writes one past the end, which
      a typed array ignores. */
  method StringToArrayBuffer(str: seq<Unit>) returns (int8: array<Int8>)
    ensures fresh(int8)
    ensures int8[..] == Int8sOf(Encode(str))
  {
    var bytes: seq<Byte> := [];
    var i := 0;
    while i < |str|
      invariant 0 <= i <= |str|
      invariant bytes == Encode(str[..i])
    {
      assert str[..i + 1] == str[..i] + [str[i]];
      EncodeSnoc(str[..i], str[i]);
      var c := str[i];
      if 0x1_0000 <= c <= 0x10_FFFF {
        // the four-byte form: a code unit never gets here
        assert false;
      } else if c >= 0x800 {
        bytes := bytes + [0xE0 + c / 0x1000, 0x80 + (c / 0x40) % 0x40, 0x80 + c % 0x40];
      } else if c >= 0x80 {
        bytes := bytes + [0xC0 + c / 0x40, 0x80 + c % 0x40];
      } else {
        bytes := bytes + [c];
      }
      i := i + 1;
    }
    assert str[..|str|] == str;
    int8 := new Int8[|bytes|];
    var j := 0;
    while j <= |bytes|
      invariant 0 <= j <= |bytes| + 1
      invariant forall k :: 0 <= k < j && k < int8.Length ==> int8[k] == ToInt8(bytes[k])
    {
      if j < int8.Length {
        int8[j] := ToInt8(bytes[j]);
      }
      j := j + 1;
    }
  }

  // ---- Decoding ----

  /** The byte at `i`, or 0 past the end: the bit operations read a
      missing element as 0. */
  function At(a: seq<Byte>, i: nat): Byte {
    if i < |a| then a[i] else 0
  }

  /** What is left after the first `n` bytes. */
  function Drop(a: seq<Byte>, n: nat): (r: seq<Byte>)
    ensures |r| < |a| || a == [] || n == 0
  {
    if n <= |a| then a[n..] else []
  }

  /** The unit of a two-byte sequence: five bits of the lead byte, six of
      the next. */
  function Unit2(c: Byte, c2: Byte): Unit {
    (c % 0x20) * 0x40 + c2 % 0x40
  }

  /** The unit of a three-byte sequence: four bits of the lead byte, six
      of each of the next two. */
  function Unit3(c: Byte, c2: Byte, c3: Byte): Unit {
    (c % 0x10) * 0x1000 + (c2 % 0x40) * 0x40 + c3 % 0x40
  }

  /** The code units read from `a`: a lead byte below 0x80 is a unit; a
      lead byte 0xC0-0xDF takes one more byte and 0xE0-0xEF two more, with
      the continuation bits taken unchecked; 0x80-0xBF and 0xF0-0xFF are
      consumed without output. */
  function Decode(a: seq<Byte>): (s: seq<Unit>)
    decreases |a|
  {
    if a == [] then []
    else
      var c := a[0];
      var high := c / 0x10;
      if high <= 7 then [c] + Decode(a[1..])
      else if high == 12 || high == 13 then [Unit2(c, At(a, 1))] + Decode(Drop(a, 2))
      else if high == 14 then [Unit3(c, At(a, 1), At(a, 2))] + Decode(Drop(a, 3))
      else Decode(a[1..])
  }

  /** Lead bytes 0x80-0xBF and 0xF0-0xFF are skipped. */
  lemma DecodeSkips(b: Byte, rest: seq<Byte>)
    requires 0x80 <= b < 0xC0 || 0xF0 <= b
    ensures Decode([b] + rest) == Decode(rest)
  {
    assert ([b] + rest)[1..] == rest;
  }

  /** The two-byte bit layout reassembles the unit. */
  lemma Unit2Inverse(c: Unit)
    requires 0x80 <= c < 0x800
    ensures Unit2(0xC0 + c / 0x40, 0x80 + c % 0x40) == c
  {
    assert (0xC0 + c / 0x40) % 0x20 == c / 0x40;
    assert (0x80 + c % 0x40) % 0x40 == c % 0x40;
  }

  /** The three-byte bit layout reassembles the unit. */
  lemma Unit3Inverse(c: Unit)
    requires 0x800 <= c
    ensures Unit3(0xE0 + c / 0x1000, 0x80 + (c / 0x40) % 0x40, 0x80 + c % 0x40) == c
  {
    assert (0xE0 + c / 0x1000) % 0x10 == c / 0x1000;
    assert (0x80 + (c / 0x40) % 0x40) % 0x40 == (c / 0x40) % 0x40;
    assert (0x80 + c % 0x40) % 0x40 == c % 0x40;
    assert (c / 0x1000) * 0x1000 + ((c / 0x40) % 0x40) * 0x40 + c % 0x40 == c;
  }

  /** Decoding undoes the encoding of one unit. */
  lemma DecodeUnit(c: Unit, rest: seq<Byte>)
    ensures Decode(EncodeUnit(c) + rest) == [c] + Decode(rest)
  {
    var bs := EncodeUnit(c);
    var a := bs + rest;
    if c >= 0x800 {
      assert a[0] == bs[0] && At(a, 1) == bs[1] && At(a, 2) == bs[2];
      assert Drop(a, 3) == rest;
      Unit3Inverse(c);
    } else if c >= 0x80 {
      assert a[0] == bs[0] && At(a, 1) == bs[1];
      assert Drop(a, 2) == rest;
      Unit2Inverse(c);
    } else {
      assert a[1..] == rest;
    }
  }

  /** The round trip: decoding the encoding of any string of code units
      gives the string back. */
  lemma {:induction false} DecodeEncode(s: seq<Unit>)
    ensures Decode(Encode(s)) == s
  {
    if s != [] {
      DecodeUnit(s[0], Encode(s[1..]));
      DecodeEncode(s[1..]);
    }
  }

  /** Decoding from position `i`: one step of `Decode` read off the whole
      buffer. */
  lemma DecodeAt(a: seq<Byte>, i: nat)
    requires i < |a|
    ensures var c := a[i];
      var high := c / 0x10;
      Decode(Drop(a, i))
        == if high <= 7 then [c] + Decode(Drop(a, i + 1))
           else if high == 12 || high == 13 then [Unit2(c, At(a, i + 1))] + Decode(Drop(a, i + 2))
           else if high == 14 then [Unit3(c, At(a, i + 1), At(a, i + 2))] + Decode(Drop(a, i + 3))
           else Decode(Drop(a, i + 1))
  {
    var d := Drop(a, i);
    assert d[0] == a[i] && d[1..] == Drop(a, i + 1);
    assert At(d, 1) == At(a, i + 1) && At(d, 2) == At(a, i + 2);
    assert Drop(d, 2) == Drop(a, i + 2) && Drop(d, 3) == Drop(a, i + 3);
  }

  /** Moving the units read in one round from the rest of the decoding to
      the output keeps their concatenation. */
  lemma DecodedPrefix(done: seq<Unit>, out: seq<Unit>, rest: seq<Unit>, next: seq<Unit>)
    requires |done| <= |out| && out[..|done|] == done && rest == out[|done|..] + next
    ensures out + next == done + rest
  {
    assert out == done + out[|done|..];
  }

  /** The decoder, reading one lead byte and its continuation bytes at a
      time. */
  method Uint8ArrayToString(bytes: seq<Byte>) returns (out: seq<Unit>)
    ensures out == Decode(bytes)
  {
    out := [];
    var len := |bytes|;
    var i := 0;
    while i < len
      invariant 0 <= i <= len + 2
      invariant out + Decode(Drop(bytes, i)) == Decode(bytes)
      decreases len - i
    {
      DecodeAt(bytes, i);
      ghost var done := out;
      ghost var rest := Decode(Drop(bytes, i));
      var c := bytes[i];
      i := i + 1;
      var high := c / 0x10;
      if high <= 7 {
        out := out + [c];
      } else if high == 12 || high == 13 {
        var char2 := At(bytes, i);
        i := i + 1;
        out := out + [Unit2(c, char2)];
      } else if high == 14 {
        var char2 := At(bytes, i);
        var char3 := At(bytes, i + 1);
        i := i + 2;
        out := out + [Unit3(c, char2, char3)];
      }
      DecodedPrefix(done, out, rest, Decode(Drop(bytes, i)));
    }
    assert Drop(bytes, i) == [];
  }

  /** Decoding a received buffer: its bytes read through an unsigned view. */
  method ArrayBufferToString(buffer: seq<Int8>) returns (msg: seq<Unit>)
    ensures msg == Decode(BytesOf(buffer))
  {
    msg := Uint8ArrayToString(BytesOf(buffer));
  }

  /** What one end sends, the other end reads back unchanged. */
  lemma WireRoundTrip(s: seq<Unit>)
    ensures Decode(BytesOf(Int8sOf(Encode(s)))) == s
  {
    ViewRoundTrip(Encode(s));
    DecodeEncode(s);
  }
}
