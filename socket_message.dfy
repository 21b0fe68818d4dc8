// The text frames a socket message exchanges with the server: a frame sent
// to the server is `name|payload`, a frame received from it is
// `name|code|payload`, and the fields are found by splitting on '|'.
module SocketMessage {
  import opened Common

  /** The data type a message class declares for its payload. */
  datatype DataType = Object | Array | Int | Float | Str | Boolean | Null

  /** A payload handed to `send`, as the three views `send` takes of it:
      whether it is truthy, its string conversion and its JSON text. */
  datatype Param = Param(truthy: bool, text: string, json: string)

  /** A parsed payload. `Json(src)` and `FloatOf(src)` stand for what the
      JSON parser and `parseFloat` make of `src`; neither is modelled
      further. */
  datatype Body =
    | Undefined
    | Bool(b: bool)
    | Num(n: int)
    | NaN
    | FloatOf(src: string)
    | Text(s: string)
    | Json(src: string)

  /** What `dispatch` does with a frame: store a payload, or report an
      error code (`None` for a code that is not a number). */
  datatype Outcome = Data(body: Body) | Error(code: Option<int>)

  // ---- Splitting on '|' ----

  predicate NoBar(s: string) {
    forall k :: 0 <= k < |s| ==> s[k] != '|'
  }

  /** The fields of `s` between the '|' separators; there is always at
      least one. */
  function Split(s: string): (r: seq<string>)
    ensures |r| >= 1
  {
    if s == [] then [[]]
    else if s[0] == '|' then [[]] + Split(s[1..])
    else
      var t := Split(s[1..]);
      [[s[0]] + t[0]] + t[1..]
  }

  /** The fields joined back with '|' between them. */
  function Join(parts: seq<string>): string
    requires |parts| >= 1
  {
    if |parts| == 1 then parts[0] else parts[0] + "|" + Join(parts[1..])
  }

  /** Splitting loses nothing: joining the fields gives the string back,
      and no field holds a separator. */
  lemma {:induction false} SplitJoin(s: string)
    ensures Join(Split(s)) == s
    ensures forall k :: 0 <= k < |Split(s)| ==> NoBar(Split(s)[k])
  {
    if s != [] {
      SplitJoin(s[1..]);
      var t := Split(s[1..]);
      if s[0] == '|' {
        assert Split(s) == [[]] + t;
        assert Split(s)[1..] == t;
      } else {
        var r := Split(s);
        assert r == [[s[0]] + t[0]] + t[1..];
        if |t| == 1 {
          assert Join(r) == [s[0]] + t[0] == [s[0]] + s[1..];
        } else {
          assert r[1..] == t[1..];
          assert Join(t) == t[0] + "|" + Join(t[1..]);
          assert Join(r) == ([s[0]] + t[0]) + "|" + Join(t[1..]);
        }
        assert s == [s[0]] + s[1..];
        forall k | 0 <= k < |r|
          ensures NoBar(r[k])
        {
          if k > 0 {
            assert r[k] == t[k];
          }
        }
      }
    }
  }

  /** A string without a separator is one field. */
  lemma {:induction false} SplitNoBar(a: string)
    requires NoBar(a)
    ensures Split(a) == [a]
  {
    if a != [] {
      SplitNoBar(a[1..]);
      assert [a[0]] + a[1..] == a;
    }
  }

  /** A field without a separator followed by '|' comes off the front. */
  lemma {:induction false} SplitCons(a: string, b: string)
    requires NoBar(a)
    ensures Split(a + "|" + b) == [a] + Split(b)
  {
    if a == [] {
      assert ("" + "|" + b)[1..] == b;
    } else {
      assert (a + "|" + b)[1..] == a[1..] + "|" + b;
      SplitCons(a[1..], b);
      assert [a[0]] + a[1..] == a;
    }
  }

  /** The field at `i`, or `None` past the last one. */
  function Field(parts: seq<string>, i: nat): (r: Option<string>)
    ensures r.Some? <==> i < |parts|
    ensures r.Some? ==> r.value == parts[i]
  {
    if i < |parts| then Some(parts[i]) else None
  }

  /** Fields without a separator, joined and split again, come back as
      they were. */
  lemma {:induction false} JoinSplit(ps: seq<string>)
    requires |ps| >= 1 && forall k :: 0 <= k < |ps| ==> NoBar(ps[k])
    ensures Split(Join(ps)) == ps
    decreases |ps|
  {
    if |ps| == 1 {
      SplitNoBar(ps[0]);
    } else {
      JoinSplit(ps[1..]);
      SplitCons(ps[0], Join(ps[1..]));
      assert [ps[0]] + ps[1..] == ps;
    }
  }

  /** The field a receiver reads at `i` from a frame built by joining
      separator-free fields is the field that was put there, and a receiver
      reads nothing past the last one. */
  lemma FieldOfJoin(ps: seq<string>, i: nat)
    requires |ps| >= 1 && forall k :: 0 <= k < |ps| ==> NoBar(ps[k])
    ensures Field(Split(Join(ps)), i) == if i < |ps| then Some(ps[i]) else None
  {
    JoinSplit(ps);
  }

  /** A missing field converted to a string. */
  function TextOf(f: Option<string>): string {
    match f
    case Some(s) => s
    case None => "undefined"
  }

  // ---- parseInt ----

  /** The white-space and line-terminator characters `parseInt` skips. */
  predicate IsSpace(c: char) {
    c == '\t' || c == '\n' || c == '\U{B}' || c == '\U{C}' || c == '\r' || c == ' '
    || c == '\U{A0}' || c == '\U{1680}' || ('\U{2000}' <= c <= '\U{200A}')
    || c == '\U{2028}' || c == '\U{2029}' || c == '\U{202F}' || c == '\U{205F}'
    || c == '\U{3000}' || c == '\U{FEFF}'
  }

  function TrimStart(s: string): (r: string)
    ensures r == [] || !IsSpace(r[0])
  {
    if s != [] && IsSpace(s[0]) then TrimStart(s[1..]) else s
  }

  /** The value of `c` as a digit, 36 when it is not a digit or letter. */
  function DigitValue(c: char): (d: nat)
    ensures d <= 36
  {
    if '0' <= c <= '9' then c as int - '0' as int
    else if 'a' <= c <= 'z' then c as int - 'a' as int + 10
    else if 'A' <= c <= 'Z' then c as int - 'A' as int + 10
    else 36
  }

  predicate IsDigit(c: char, radix: nat) {
    DigitValue(c) < radix
  }

  /** How many digits of the radix `s` starts with. */
  function DigitRun(s: string, radix: nat): (n: nat)
    ensures n <= |s|
    ensures forall k :: 0 <= k < n ==> IsDigit(s[k], radix)
    ensures n < |s| ==> !IsDigit(s[n], radix)
  {
    if s != [] && IsDigit(s[0], radix) then 1 + DigitRun(s[1..], radix) else 0
  }

  /** The number the digits `d` spell in the radix, most significant first. */
  function ValueOf(d: string, radix: nat): nat {
    if d == [] then 0
    else ValueOf(d[..|d| - 1], radix) * radix + (if DigitValue(d[|d| - 1]) < radix then DigitValue(d[|d| - 1]) else 0)
  }

  /** The digits after the sign: a "0x" or "0X" prefix selects radix 16
      (10 otherwise), then the longest run of digits counts; no digit at all
      gives `None`. */
  function Unsigned(u: string): (r: Option<nat>)
    ensures r.Some? ==> u != [] && IsDigit(u[0], 10)
    ensures r == None <== u == [] || !IsDigit(u[0], 10)
  {
    var hex := |u| >= 2 && u[0] == '0' && (u[1] == 'x' || u[1] == 'X');
    var radix := if hex then 16 else 10;
    var v := if hex then u[2..] else u;
    var n := DigitRun(v, radix);
    if n == 0 then None else Some(ValueOf(v[..n], radix))
  }

  /** `parseInt` with no radix: leading white space skipped, an optional
      sign, then the digits; `None` stands for the not-a-number result. */
  function ParseInt(s: string): (r: Option<int>) {
    Signed(TrimStart(s))
  }

  /** The number after an optional sign. */
  function Signed(t: string): (r: Option<int>) {
    if t != [] && t[0] == '-' then
      (match Unsigned(t[1..])
       case None => None
       case Some(m) => Some(-(m as int)))
    else if t != [] && t[0] == '+' then
      (match Unsigned(t[1..])
       case None => None
       case Some(m) => Some(m))
    else
      (match Unsigned(t)
       case None => None
       case Some(m) => Some(m))
  }

  /** A run of decimal digits is read as its decimal value. */
  lemma UnsignedDecimal(u: string)
    requires u != [] && forall k :: 0 <= k < |u| ==> '0' <= u[k] <= '9'
    ensures Unsigned(u) == Some(ValueOf(u, 10))
  {
    if |u| >= 2 {
      assert u[1] != 'x' && u[1] != 'X';
    }
    DigitRunAll(u);
    assert u[..|u|] == u;
  }

  /** The decimal digits of `n`, as a number's string conversion writes
      them. */
  function ShowNat(n: nat): (s: string)
    ensures |s| >= 1
    ensures forall k :: 0 <= k < |s| ==> '0' <= s[k] <= '9'
  {
    var c := ('0' as int + n % 10) as char;
    if n < 10 then [c] else ShowNat(n / 10) + [c]
  }

  /** The string conversion of an integer. */
  function Show(n: int): (s: string)
    ensures |s| >= 1 && (n < 0 <==> s[0] == '-')
  {
    if n < 0 then "-" + ShowNat(-n) else ShowNat(n)
  }

  lemma {:induction false} ValueOfShowNat(n: nat)
    ensures ValueOf(ShowNat(n), 10) == n
  {
    var c := ('0' as int + n % 10) as char;
    if n >= 10 {
      ValueOfShowNat(n / 10);
      var s := ShowNat(n / 10) + [c];
      assert s[..|s| - 1] == ShowNat(n / 10);
    }
  }

  lemma DigitRunAll(s: string)
    requires forall k :: 0 <= k < |s| ==> '0' <= s[k] <= '9'
    ensures DigitRun(s, 10) == |s|
  {
    if s != [] {
      DigitRunAll(s[1..]);
    }
  }

  /** The string conversion of an integer starts with no white space. */
  lemma TrimShow(n: int)
    ensures TrimStart(Show(n)) == Show(n)
  {
    var s := Show(n);
    assert s[0] == '-' || '0' <= s[0] <= '9';
    assert !IsSpace(s[0]);
  }

  /** Reading back the string conversion of an integer gives the integer. */
  lemma ParseIntShow(n: int)
    ensures ParseInt(Show(n)) == Some(n)
  {
    TrimShow(n);
    var m: nat := if n < 0 then -n else n;
    var d := ShowNat(m);
    UnsignedDecimal(d);
    ValueOfShowNat(m);
    if n < 0 {
      assert Show(n)[1..] == d;
    } else {
      assert Show(n) == d && d[0] != '-' && d[0] != '+';
    }
  }

  // ---- send ----

  /** The payload text `send` writes for a data type. */
  function Serialise(dt: DataType, p: Param): (s: string)
    ensures dt == Boolean ==> s == "true" || s == "false"
    ensures (dt == Object || dt == Array) ==> s == p.json
    ensures dt != Object && dt != Array && dt != Boolean ==> s == p.text
  {
    match dt
    case Object => p.json
    case Array => p.json
    case Boolean => if p.truthy then "true" else "false"
    case _ => p.text
  }

  /** The frame `send` hands to the socket: the message name, '|', the
      payload. */
  function Frame(name: string, dt: DataType, p: Param): (f: string)
    ensures |f| > |name| && f[..|name|] == name && f[|name|] == '|'
  {
    name + "|" + Serialise(dt, p)
  }

  // ---- dispatch ----

  /** The payload made of the third field for a data type. */
  function BodyOf(dt: DataType, f: Option<string>): Body {
    match dt
    case Object => Json(TextOf(f))
    case Array => Json(TextOf(f))
    case Boolean =>
      if f == Some("true") then Bool(true)
      else if f == Some("false") then Bool(false)
      else Undefined
    case Int =>
      (match ParseInt(TextOf(f))
       case Some(n) => Num(n)
       case None => NaN)
    case Float => FloatOf(TextOf(f))
    case _ =>
      (match f
       case Some(s) => Text(s)
       case None => Undefined)
  }

  /** What `dispatch` makes of a received frame: the second field read as
      an integer is the code; code 0 stores the payload of the third field,
      any other code (or none) is an error. */
  function Parse(dt: DataType, frame: string): (o: Outcome)
    ensures o.Data? <==> ParseInt(TextOf(Field(Split(frame), 1))) == Some(0)
    ensures o.Error? ==> o.code == ParseInt(TextOf(Field(Split(frame), 1)))
  {
    var parts := Split(frame);
    var code := ParseInt(TextOf(Field(parts, 1)));
    if code == Some(0) then Data(BodyOf(dt, Field(parts, 2)))
    else Error(code)
  }

  /** The fields of a server frame `name|code|payload`. */
  lemma ServerFields(name: string, code: string, payload: string)
    requires NoBar(name) && NoBar(code)
    ensures Split(name + "|" + code + "|" + payload) == [name, code] + Split(payload)
  {
    SplitCons(code, payload);
    assert name + "|" + code + "|" + payload == name + "|" + (code + "|" + payload);
    SplitCons(name, code + "|" + payload);
  }

  /** A server frame is read field by field: the code decides, and the
      payload is the first field of what follows the code. */
  lemma ParseServer(dt: DataType, name: string, code: string, payload: string)
    requires NoBar(name) && NoBar(code)
    ensures Parse(dt, name + "|" + code + "|" + payload)
      == if ParseInt(code) == Some(0) then Data(BodyOf(dt, Some(Split(payload)[0])))
         else Error(ParseInt(code))
  {
    ServerFields(name, code, payload);
  }

  lemma ParseZero()
    ensures ParseInt("0") == Some(0)
  {
    ParseIntShow(0);
    assert Show(0) == "0";
  }

  /** A string payload without a separator arrives unchanged. */
  lemma StringRoundTrip(name: string, s: string)
    requires NoBar(name) && NoBar(s)
    ensures Parse(Str, name + "|0|" + s) == Data(Text(s))
  {
    assert name + "|0|" + s == name + "|" + "0" + "|" + s;
    ParseZero();
    ParseServer(Str, name, "0", s);
    SplitNoBar(s);
  }

  /** A string payload is only the third field: whatever follows a '|' in
      it is lost. */
  lemma StringTruncated(name: string, a: string, b: string)
    requires NoBar(name) && NoBar(a)
    ensures Parse(Str, name + "|0|" + a + "|" + b) == Data(Text(a))
  {
    assert name + "|0|" + a + "|" + b == name + "|" + "0" + "|" + (a + "|" + b);
    ParseZero();
    ParseServer(Str, name, "0", a + "|" + b);
    SplitCons(a, b);
  }

  /** A boolean payload is true for "true", false for "false", and left
      undefined for any other text. */
  lemma BooleanBody(name: string, x: string)
    requires NoBar(name) && NoBar(x)
    ensures Parse(Boolean, name + "|0|" + x)
      == Data(if x == "true" then Bool(true) else if x == "false" then Bool(false) else Undefined)
  {
    assert name + "|0|" + x == name + "|" + "0" + "|" + x;
    ParseZero();
    ParseServer(Boolean, name, "0", x);
    SplitNoBar(x);
  }

  /** A boolean sent and echoed back with code 0 keeps its truth value. */
  lemma BooleanEcho(name: string, p: Param)
    requires NoBar(name)
    ensures Parse(Boolean, name + "|0|" + Serialise(Boolean, p)) == Data(Bool(p.truthy))
  {
    BooleanBody(name, Serialise(Boolean, p));
  }

  /** The string conversion of an integer holds no separator. */
  lemma ShowNoBar(n: int)
    ensures NoBar(Show(n))
  {
    var s := Show(n);
    forall k | 0 <= k < |s|
      ensures s[k] != '|'
    {
      if n < 0 && k > 0 {
        assert s[k] == ShowNat(-n)[k - 1];
      }
    }
  }

  /** An integer sent in its string conversion and echoed back with code 0
      reads back as the same integer. */
  lemma IntEcho(name: string, n: int, p: Param)
    requires NoBar(name) && p.text == Show(n)
    ensures Parse(Int, name + "|0|" + Serialise(Int, p)) == Data(Num(n))
  {
    var s := Show(n);
    ShowNoBar(n);
    assert name + "|0|" + s == name + "|" + "0" + "|" + s;
    ParseZero();
    ParseServer(Int, name, "0", s);
    SplitNoBar(s);
    ParseIntShow(n);
  }

  /** A nonzero code reports that code and stores nothing, whatever the
      data type. */
  lemma ErrorCode(dt: DataType, name: string, k: int, payload: string)
    requires NoBar(name) && k != 0
    ensures Parse(dt, name + "|" + Show(k) + "|" + payload) == Error(Some(k))
  {
    ShowNoBar(k);
    ParseServer(dt, name, Show(k), payload);
    ParseIntShow(k);
  }

  /** A frame with no code field is an error with no code. */
  lemma MissingCode(dt: DataType, name: string)
    requires NoBar(name)
    ensures Parse(dt, name) == Error(None)
  {
    SplitNoBar(name);
    assert !IsSpace('u') && DigitValue('u') >= 16;
  }

  /** The first field of a frame `send` builds is the message name, so the
      server can route it. */
  lemma FrameName(name: string, dt: DataType, p: Param)
    requires NoBar(name)
    ensures Split(Frame(name, dt, p))[0] == name
  {
    SplitCons(name, Serialise(dt, p));
  }
}
