/**
 The contract JSON reader and string escaper of `contracts/assembly/json.ts`, on UTF-16 code units.
 The reader is given twice: as functions on the remaining text, and as the recursive-descent object
 with a position and an error flag, proved to agree and to stay within the text on every input.
 */
module Json {
  import opened Bytes

  type Unit = u: int | 0 <= u < 0x1_0000
  type Text = seq<Unit>

  const QUOTE: Unit := 0x22
  const BACKSLASH: Unit := 0x5C
  const COMMA: Unit := 0x2C
  const COLON: Unit := 0x3A
  const LBRACE: Unit := 0x7B
  const RBRACE: Unit := 0x7D
  const LBRACKET: Unit := 0x5B
  const RBRACKET: Unit := 0x5D
  const MINUS: Unit := 0x2D

  const TRUE: Text := [0x74, 0x72, 0x75, 0x65]
  const FALSE: Text := [0x66, 0x61, 0x6C, 0x73, 0x65]
  const NULL: Text := [0x6E, 0x75, 0x6C, 0x6C]

  datatype Value =
    | Null
    | Bool(b: bool)
    | Number(n: int)
    | String(s: Text)
    | Array(items: seq<Value>)
    | Object(fields: map<Text, Value>)

  /** What reading yields: a result and the text behind it. */
  datatype Read<+T> = Fail | Ok(value: T, rest: Text)

  predicate IsSpace(c: Unit) {
    c == 0x20 || c == 0x09 || c == 0x0A || c == 0x0D
  }

  predicate IsDigit(c: Unit) {
    0x30 <= c <= 0x39
  }

  function SkipSpace(t: Text): (r: Text)
    ensures |r| <= |t| && (r != [] ==> !IsSpace(r[0]))
  {
    if t == [] || !IsSpace(t[0]) then t else SkipSpace(t[1..])
  }

  // ----- strings

  /** The unit a one-letter escape stands for. */
  function Unescaped(c: Unit): Option<Unit> {
    if c == QUOTE || c == BACKSLASH || c == 0x2F then Some(c)
    else if c == 0x62 then Some(0x08)
    else if c == 0x66 then Some(0x0C)
    else if c == 0x6E then Some(0x0A)
    else if c == 0x72 then Some(0x0D)
    else if c == 0x74 then Some(0x09)
    else None
  }

  function Cons(head: Text, r: Read<Text>): Read<Text> {
    if r.Fail? then Fail else Ok(head + r.value, r.rest)
  }

  /** The string whose opening quote has been consumed; `hex` reads the four digits of a `\\u` escape. */
  function StringBody(hex: Text -> Unit, t: Text): (r: Read<Text>)
    ensures r.Ok? ==> |r.rest| < |t|
    decreases |t|
  {
    if t == [] then Fail
    else if t[0] == QUOTE then Ok([], t[1..])
    else if t[0] == BACKSLASH then
      if |t| == 1 then Fail
      else if Unescaped(t[1]).Some? then Cons([Unescaped(t[1]).value], StringBody(hex, t[2..]))
      else if t[1] == 0x75 then
        if |t| < 6 then Fail else Cons([hex(t[2..6])], StringBody(hex, t[6..]))
      else Fail
    else if t[0] < 0x20 then Fail
    else Cons([t[0]], StringBody(hex, t[1..]))
  }

  function EscapedUnit(c: Unit): Text {
    if c == QUOTE then [BACKSLASH, QUOTE]
    else if c == BACKSLASH then [BACKSLASH, BACKSLASH]
    else if c == 0x0A then [BACKSLASH, 0x6E]
    else if c == 0x0D then [BACKSLASH, 0x72]
    else if c == 0x09 then [BACKSLASH, 0x74]
    else [c]
  }

  function Escaped(s: Text): Text {
    if s == [] then [] else EscapedUnit(s[0]) + Escaped(s[1..])
  }

  method EscapeUnit(c: Unit) returns (e: Text)
    ensures e == EscapedUnit(c)
  {
    if c == QUOTE {
      e := [BACKSLASH, QUOTE];
    } else if c == BACKSLASH {
      e := [BACKSLASH, BACKSLASH];
    } else if c == 0x0A {
      e := [BACKSLASH, 0x6E];
    } else if c == 0x0D {
      e := [BACKSLASH, 0x72];
    } else if c == 0x09 {
      e := [BACKSLASH, 0x74];
    } else {
      e := [c];
    }
  }

  method EscapeJsonString(s: Text) returns (res: Text)
    ensures res == Escaped(s)
  {
    hide EscapedUnit;
    res := [];
    for i := 0 to |s|
      invariant res + Escaped(s[i..]) == Escaped(s)
    {
      assert s[i..][0] == s[i] && s[i..][1..] == s[i + 1..];
      var e := EscapeUnit(s[i]);
      assert res + (e + Escaped(s[i + 1..])) == res + e + Escaped(s[i + 1..]);
      res := res + e;
    }
    assert s[|s|..] == [] && res + [] == res;
  }

  /** No control characters but tab, line feed and carriage return. */
  predicate Plain(s: Text) {
    forall i | 0 <= i < |s| :: PlainUnit(s[i])
  }

  predicate PlainUnit(c: Unit) {
    c >= 0x20 || c == 0x09 || c == 0x0A || c == 0x0D
  }

  lemma ReadUnit(hex: Text -> Unit, c: Unit, tail: Text)
    ensures StringBody(hex, EscapedUnit(c) + tail) == if PlainUnit(c) then Cons([c], StringBody(hex, tail)) else Fail
  {
    var t := EscapedUnit(c) + tail;
    if |EscapedUnit(c)| == 2 {
      assert t[0] == BACKSLASH && t[1] == EscapedUnit(c)[1] && t[2..] == tail;
    } else {
      assert t[0] == c && t[1..] == tail;
    }
  }

  /** Reading back an escaped string gives the string, exactly when it is plain. */
  lemma {:induction false} ReadEscaped(hex: Text -> Unit, s: Text, rest: Text)
    ensures StringBody(hex, Escaped(s) + [QUOTE] + rest) == if Plain(s) then Ok(s, rest) else Fail
  {
    hide StringBody, EscapedUnit;
    if s == [] {
      assert Escaped(s) + [QUOTE] + rest == [QUOTE] + rest;
      ReadQuote(hex, rest);
    } else {
      var tail := Escaped(s[1..]) + [QUOTE] + rest;
      assert Escaped(s) + [QUOTE] + rest == EscapedUnit(s[0]) + tail;
      ReadUnit(hex, s[0], tail);
      ReadEscaped(hex, s[1..], rest);
      assert s == [s[0]] + s[1..];
      assert forall i | 0 <= i < |s[1..]| :: s[1..][i] == s[i + 1];
      assert forall i | 1 <= i < |s| :: s[i] == s[1..][i - 1];
    }
  }

  lemma ReadQuote(hex: Text -> Unit, rest: Text)
    ensures StringBody(hex, [QUOTE] + rest) == Ok([], rest)
  {
    assert ([QUOTE] + rest)[1..] == rest;
  }

  // ----- numbers

  function Digits(t: Text): nat {
    if t == [] || !IsDigit(t[0]) then 0 else 1 + Digits(t[1..])
  }

  lemma {:induction false} DigitsBound(t: Text)
    ensures Digits(t) <= |t| && (forall i | 0 <= i < Digits(t) :: IsDigit(t[i]))
    ensures Digits(t) < |t| ==> !IsDigit(t[Digits(t)])
  {
    if t != [] && IsDigit(t[0]) { DigitsBound(t[1..]); }
  }

  /** The number written by the leading digits. */
  function DecimalValue(t: Text): nat {
    if t == [] then 0 else 10 * DecimalValue(t[..|t| - 1]) + (if IsDigit(t[|t| - 1]) then t[|t| - 1] - 0x30 else 0)
  }

  const TWO_63: int := 0x8000_0000_0000_0000

  /** Two's-complement wrap to 64 bits. */
  function Wrap64(n: int): int {
    (n + TWO_63) % (2 * TWO_63) - TWO_63
  }

  /** `I64.parseInt` on a decimal text: an optional minus sign and the digits that follow. */
  function ParseInt64(t: Text): int {
    var negative := t != [] && t[0] == MINUS;
    var body := if negative then t[1..] else t;
    DigitsBound(body);
    var n := DecimalValue(body[..Digits(body)]);
    if negative then Wrap64(-(n as int)) else Wrap64(n)
  }

  function ReadNumber(t: Text): (r: Read<Value>)
    ensures r.Ok? ==> |r.rest| < |t|
  {
    var sign := if t != [] && t[0] == MINUS then 1 else 0;
    DigitsBound(t[sign..]);
    var d := Digits(t[sign..]);
    if d == 0 then Fail else Ok(Number(ParseInt64(t[..sign + d])), t[sign + d..])
  }

  predicate StartsWith(t: Text, w: Text) {
    |w| <= |t| && t[..|w|] == w
  }

  // ----- values

  function ReadValue(hex: Text -> Unit, text: Text): (r: Read<Value>)
    ensures r.Ok? ==> |r.rest| < |text|
    decreases |text|, 1
  {
    var t := SkipSpace(text);
    if t == [] then Fail
    else if t[0] == LBRACE then
      var inner := SkipSpace(t[1..]);
      if inner != [] && inner[0] == RBRACE then Ok(Object(map[]), inner[1..]) else ReadFields(hex, inner, map[])
    else if t[0] == LBRACKET then
      var inner := SkipSpace(t[1..]);
      if inner != [] && inner[0] == RBRACKET then Ok(Array([]), inner[1..]) else ReadItems(hex, inner, [])
    else if t[0] == QUOTE then
      var s := StringBody(hex, t[1..]);
      if s.Fail? then Fail else Ok(String(s.value), s.rest)
    else if t[0] == 0x74 || t[0] == 0x66 then
      if StartsWith(t, TRUE) then Ok(Bool(true), t[4..])
      else if StartsWith(t, FALSE) then Ok(Bool(false), t[5..])
      else Fail
    else if t[0] == 0x6E then
      if StartsWith(t, NULL) then Ok(Null, t[4..]) else Fail
    else if t[0] == MINUS || IsDigit(t[0]) then ReadNumber(t)
    else Fail
  }

  /** A member's key and the colon behind it. */
  function ReadKey(hex: Text -> Unit, text: Text): (r: Read<Text>)
    ensures r.Ok? ==> |r.rest| < |text|
  {
    var t := SkipSpace(text);
    if t == [] || t[0] != QUOTE then Fail
    else
      var key := StringBody(hex, t[1..]);
      if key.Fail? then Fail
      else
        var colon := SkipSpace(key.rest);
        if colon == [] || colon[0] != COLON then Fail else Ok(key.value, colon[1..])
  }

  /** The members of an object from the next key on. */
  function ReadFields(hex: Text -> Unit, text: Text, fields: map<Text, Value>): (r: Read<Value>)
    ensures r.Ok? ==> |r.rest| < |text|
    decreases |text|, 0
  {
    var key := ReadKey(hex, text);
    if key.Fail? then Fail
    else
      var v := ReadValue(hex, key.rest);
      if v.Fail? then Fail
      else
        var next := SkipSpace(v.rest);
        var more := fields[key.value := v.value];
        if next == [] then Fail
        else if next[0] == RBRACE then Ok(Object(more), next[1..])
        else if next[0] == COMMA then ReadFields(hex, next[1..], more)
        else Fail
  }

  /** The items of an array from the next one on. */
  function ReadItems(hex: Text -> Unit, text: Text, items: seq<Value>): (r: Read<Value>)
    ensures r.Ok? ==> |r.rest| < |text|
    decreases |text|, 2
  {
    var v := ReadValue(hex, text);
    if v.Fail? then Fail
    else
      var next := SkipSpace(v.rest);
      if next == [] then Fail
      else if next[0] == RBRACKET then Ok(Array(items + [v.value]), next[1..])
      else if next[0] == COMMA then ReadItems(hex, next[1..], items + [v.value])
      else Fail
  }

  function Parse(hex: Text -> Unit, text: Text): Option<Value> {
    var v := ReadValue(hex, text);
    if v.Ok? && SkipSpace(v.rest) == [] then Some(v.value) else None
  }
}
