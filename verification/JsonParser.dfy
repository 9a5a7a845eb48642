/**
 The recursive-descent parser object of `contracts/assembly/json.ts`: a position and an error flag
 over a fixed text. Every method ends with `pos` inside the text, and reads what `Json` says.
 */
module JsonParser {
  import opened Bytes
  import opened Json

  class Parser {
    const str: Text
    const hex: Text -> Unit
    var pos: nat
    var hasError: bool

    constructor (text: Text, hex: Text -> Unit)
      ensures str == text && this.hex == hex && pos == 0 && !hasError
    {
      str, this.hex, pos, hasError := text, hex, 0, false;
    }

    /** The parser is where a read left it: past a result, or in error. */
    ghost predicate At<T>(r: Read<T>)
      reads this
    {
      pos <= |str| && (hasError <==> r.Fail?) && (r.Ok? ==> str[pos..] == r.rest)
    }

    method Fail()
      modifies this`hasError
      ensures hasError
    {
      hasError := true;
    }

    method SkipWhitespace()
      requires pos <= |str|
      modifies this`pos
      ensures old(pos) <= pos <= |str| && str[pos..] == SkipSpace(str[old(pos)..])
    {
      while pos < |str|
        invariant old(pos) <= pos <= |str| && SkipSpace(str[old(pos)..]) == SkipSpace(str[pos..])
      {
        assert str[pos..][1..] == str[pos + 1..];
        if IsSpace(str[pos]) {
          pos := pos + 1;
        } else {
          break;
        }
      }
    }

    /** Reads the string whose opening quote is at `pos`. */
    method ParseString() returns (s: Text)
      requires pos < |str| && !hasError
      modifies this`pos, this`hasError
      ensures At(StringBody(hex, str[old(pos) + 1..]))
      ensures !hasError ==> s == StringBody(hex, str[old(pos) + 1..]).value && pos > old(pos)
    {
      pos := pos + 1;
      var sb: Text := [];
      ghost var goal := StringBody(hex, str[pos..]);
      ConsNothing(goal);
      while pos < |str|
        invariant old(pos) < pos <= |str| && !hasError
        invariant goal == Cons(sb, StringBody(hex, str[pos..]))
        decreases |str| - pos
      {
        var c := str[pos];
        if c == QUOTE {
          assert str[pos..][1..] == str[pos + 1..] && sb + [] == sb;
          pos := pos + 1;
          return sb;
        } else if c == BACKSLASH {
          var done, piece := ParseEscape();
          if done { return []; }
          ConsTwice(sb, piece, StringBody(hex, str[pos..]));
          sb := sb + piece;
        } else if c < 0x20 {
          Fail();
          return [];
        } else {
          assert str[pos..][1..] == str[pos + 1..];
          ConsTwice(sb, [c], StringBody(hex, str[pos + 1..]));
          sb := sb + [c];
          pos := pos + 1;
        }
      }
      Fail();
      return [];
    }

    /** One escape sequence, backslash included. */
    method ParseEscape() returns (bad: bool, piece: Text)
      requires pos < |str| && !hasError && str[pos] == BACKSLASH
      modifies this`pos, this`hasError
      ensures bad == hasError && old(pos) < pos <= |str|
      ensures bad ==> StringBody(hex, str[old(pos)..]).Fail?
      ensures !bad ==> StringBody(hex, str[old(pos)..]) == Cons(piece, StringBody(hex, str[pos..]))
    {
      ghost var start := pos;
      pos := pos + 1;
      if pos >= |str| {
        Fail();
        return true, [];
      }
      var esc := str[pos];
      assert str[start..][1] == esc && str[start..][2..] == str[start + 2..];
      if Unescaped(esc).Some? {
        pos := pos + 1;
        return false, [Unescaped(esc).value];
      } else if esc == 0x75 {
        pos := pos + 1;
        if pos + 4 > |str| {
          Fail();
          return true, [];
        }
        assert str[start..][2..6] == str[pos..pos + 4] && str[start..][6..] == str[pos + 4..];
        piece := [hex(str[pos..pos + 4])];
        pos := pos + 4;
        return false, piece;
      } else {
        Fail();
        return true, [];
      }
    }

    method ParseNumber() returns (v: Option<Value>)
      requires pos < |str| && !hasError
      modifies this`pos, this`hasError
      ensures At(ReadNumber(str[old(pos)..]))
      ensures v == if hasError then None else Some(ReadNumber(str[old(pos)..]).value)
      ensures !hasError ==> pos > old(pos)
    {
      hide ParseInt64;
      var start := pos;
      if str[pos] == MINUS {
        pos := pos + 1;
      }
      var first := pos;
      SkipDigits();
      SliceTwice(str, start, first, pos);
      if pos == first {
        Fail();
        return None;
      }
      return Some(Number(ParseInt64(str[start..pos])));
    }

    method SkipDigits()
      requires pos <= |str|
      modifies this`pos
      ensures pos <= |str| && pos == old(pos) + Digits(str[old(pos)..])
    {
      DigitsBound(str[pos..]);
      while pos < |str|
        invariant old(pos) <= pos <= |str|
        invariant pos - old(pos) + Digits(str[pos..]) == Digits(str[old(pos)..])
      {
        assert str[pos..][1..] == str[pos + 1..];
        if IsDigit(str[pos]) {
          pos := pos + 1;
        } else {
          break;
        }
      }
    }

    method ParseWord(word: Text, v: Value) returns (r: Option<Value>)
      requires pos < |str| && !hasError && word != []
      modifies this`pos
      ensures old(pos) <= pos <= |str|
      ensures r == if StartsWith(str[old(pos)..], word) then Some(v) else None
      ensures pos == old(pos) + if r.Some? then |word| else 0
    {
      if pos + |word| <= |str| && str[pos..pos + |word|] == word {
        assert str[pos..][..|word|] == word;
        pos := pos + |word|;
        return Some(v);
      }
      assert pos + |word| <= |str| ==> str[pos..][..|word|] == str[pos..pos + |word|];
      return None;
    }

    method ParseValue() returns (v: Option<Value>)
      requires pos <= |str| && !hasError
      modifies this`pos, this`hasError
      ensures At(ReadValue(hex, str[old(pos)..]))
      ensures v == if hasError then None else Some(ReadValue(hex, str[old(pos)..]).value)
      ensures !hasError ==> pos > old(pos)
      decreases |str| - pos, 1
    {
      hide StringBody, ReadFields, ReadItems, ReadNumber, SkipSpace, StartsWith;
      SkipWhitespace();
      if pos >= |str| {
        Fail();
        return None;
      }
      var c := str[pos];
      ghost var t := str[pos..];
      assert t[0] == c && t[1..] == str[pos + 1..];
      if c == LBRACE {
        v := ParseObject();
      } else if c == LBRACKET {
        v := ParseArray();
      } else if c == QUOTE {
        var s := ParseString();
        if hasError { return None; }
        return Some(String(s));
      } else if c == 0x74 || c == 0x66 {
        ghost var here := pos;
        v := ParseWord(TRUE, Bool(true));
        if v.Some? {
          assert t[4..] == str[here + 4..];
          return;
        }
        v := ParseWord(FALSE, Bool(false));
        if v.Some? {
          assert t[5..] == str[here + 5..];
          return;
        }
        Fail();
      } else if c == 0x6E {
        ghost var here := pos;
        v := ParseWord(NULL, Null);
        if v.Some? {
          assert t[4..] == str[here + 4..];
          return;
        }
        Fail();
      } else if c == MINUS || IsDigit(c) {
        v := ParseNumber();
      } else {
        Fail();
        return None;
      }
    }

    method ParseObject() returns (v: Option<Value>)
      requires pos < |str| && !hasError
      modifies this`pos, this`hasError
      ensures var inner := SkipSpace(str[old(pos) + 1..]);
              var r := if inner != [] && inner[0] == RBRACE then Ok(Object(map[]), inner[1..])
                       else ReadFields(hex, inner, map[]);
              At(r) && v == (if hasError then None else Some(r.value))
      ensures !hasError ==> pos > old(pos)
      decreases |str| - pos, 0
    {
      hide ReadValue, ReadKey, SkipSpace;
      ghost var start := pos;
      pos := pos + 1;
      SkipWhitespace();
      ghost var inner := str[pos..];
      if pos < |str| && str[pos] == RBRACE {
        assert inner[1..] == str[pos + 1..];
        pos := pos + 1;
        return Some(Object(map[]));
      }
      var fields: map<Text, Value> := map[];
      while pos < |str|
        invariant start < pos <= |str| && !hasError
        invariant ReadFields(hex, inner, map[]) == ReadFields(hex, str[pos..], fields)
        decreases |str| - pos
      {
        ghost var text := str[pos..];
        var key, val, closed := ParseField(fields);
        if hasError { return None; }
        fields := fields[key := val];
        if closed { return Some(Object(fields)); }
      }
      SkipEmpty();
      Fail();
      return None;
    }

    /** One member and the comma or brace behind it. */
    method ParseField(ghost f: map<Text, Value>) returns (key: Text, val: Value, closed: bool)
      requires pos < |str| && !hasError
      modifies this`pos, this`hasError
      ensures pos <= |str| && (!hasError ==> pos > old(pos))
      ensures hasError ==> ReadFields(hex, str[old(pos)..], f).Fail?
      ensures !hasError && closed ==> ReadFields(hex, str[old(pos)..], f) == Ok(Object(f[key := val]), str[pos..])
      ensures !hasError && !closed ==> ReadFields(hex, str[old(pos)..], f) == ReadFields(hex, str[pos..], f[key := val])
      decreases |str| - pos, 0
    {
      hide ReadKey, ReadValue, SkipSpace;
      key, val, closed := [], Null, false;
      key := ParseKey();
      if hasError { return; }
      var v := ParseValue();
      if hasError { return; }
      val := v.value;
      SkipWhitespace();
      if pos >= |str| {
        Fail();
        return;
      }
      var next := str[pos];
      assert str[pos..][0] == next && str[pos..][1..] == str[pos + 1..];
      if next == RBRACE {
        pos := pos + 1;
        closed := true;
      } else if next == COMMA {
        pos := pos + 1;
      } else {
        Fail();
      }
    }

    method ParseKey() returns (key: Text)
      requires pos < |str| && !hasError
      modifies this`pos, this`hasError
      ensures At(ReadKey(hex, str[old(pos)..]))
      ensures !hasError ==> key == ReadKey(hex, str[old(pos)..]).value && pos > old(pos)
    {
      hide StringBody, SkipSpace;
      key := [];
      SkipWhitespace();
      if pos >= |str| || str[pos] != QUOTE {
        Fail();
        return;
      }
      assert str[pos..][0] == QUOTE && str[pos..][1..] == str[pos + 1..];
      key := ParseString();
      if hasError { return; }
      SkipWhitespace();
      if pos >= |str| || str[pos] != COLON {
        Fail();
        return;
      }
      assert str[pos..][0] == COLON && str[pos..][1..] == str[pos + 1..];
      pos := pos + 1;
    }

    method ParseArray() returns (v: Option<Value>)
      requires pos < |str| && !hasError
      modifies this`pos, this`hasError
      ensures var inner := SkipSpace(str[old(pos) + 1..]);
              var r := if inner != [] && inner[0] == RBRACKET then Ok(Array([]), inner[1..])
                       else ReadItems(hex, inner, []);
              At(r) && v == (if hasError then None else Some(r.value))
      ensures !hasError ==> pos > old(pos)
      decreases |str| - pos, 0
    {
      hide ReadValue, SkipSpace;
      ghost var start := pos;
      pos := pos + 1;
      SkipWhitespace();
      ghost var inner := str[pos..];
      if pos < |str| && str[pos] == RBRACKET {
        assert inner[1..] == str[pos + 1..];
        pos := pos + 1;
        return Some(Array([]));
      }
      var items: seq<Value> := [];
      while pos < |str|
        invariant start < pos <= |str| && !hasError
        invariant ReadItems(hex, inner, []) == ReadItems(hex, str[pos..], items)
        decreases |str| - pos
      {
        var val := ParseValue();
        if hasError { return None; }
        items := items + [val.value];
        SkipWhitespace();
        if pos >= |str| {
          Fail();
          return None;
        }
        var next := str[pos];
        assert str[pos..][0] == next && str[pos..][1..] == str[pos + 1..];
        if next == RBRACKET {
          pos := pos + 1;
          return Some(Array(items));
        } else if next == COMMA {
          pos := pos + 1;
        } else {
          Fail();
          return None;
        }
      }
      SkipEmpty();
      Fail();
      return None;
    }

    /** The whole text is one value, or the parse fails. */
    method ParseText() returns (v: Option<Value>)
      requires pos == 0 && !hasError
      modifies this`pos, this`hasError
      ensures pos <= |str| && v == Json.Parse(hex, str)
    {
      hide ReadValue, SkipSpace;
      assert str[0..] == str;
      SkipWhitespace();
      SkipTwice(str);
      ReadSkips(hex, str);
      if pos >= |str| {
        SkipEmpty();
        Fail();
        return None;
      }
      v := ParseValue();
      if hasError { return None; }
      SkipWhitespace();
      if pos < |str| {
        Fail();
        return None;
      }
    }
  }

  lemma SliceTwice(t: Text, a: nat, b: nat, c: nat)
    requires a <= b <= c <= |t|
    ensures t[a..][b - a..] == t[b..] && t[a..][..c - a] == t[a..c] && t[a..][c - a..] == t[c..]
  {
  }

  lemma ConsNothing(r: Read<Text>)
    ensures Cons([], r) == r
  {
    if r.Ok? { assert [] + r.value == r.value; }
  }

  lemma ConsTwice(a: Text, b: Text, r: Read<Text>)
    ensures Cons(a, Cons(b, r)) == Cons(a + b, r)
  {
    if r.Ok? { assert a + (b + r.value) == a + b + r.value; }
  }

  lemma SkipEmpty()
    ensures SkipSpace([]) == [] && forall hex: Text -> Unit :: ReadValue(hex, []).Fail?
  {
  }

  lemma {:induction false} SkipTwice(t: Text)
    ensures SkipSpace(SkipSpace(t)) == SkipSpace(t)
  {
    if t != [] && IsSpace(t[0]) { SkipTwice(t[1..]); }
  }

  lemma ReadSkips(hex: Text -> Unit, t: Text)
    ensures ReadValue(hex, SkipSpace(t)) == ReadValue(hex, t)
  {
    SkipTwice(t);
  }
}
