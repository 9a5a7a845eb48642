/**
 The fungible token contract (`contracts/assembly/sot.ts`, the SOT path of `entry.ts`). Its state
 travels between calls as JSON text; a run through that text refines the same run in memory.
 */
module Sot {
  import opened Bytes
  import opened Json

  const NAME: Text := [0x6E, 0x61, 0x6D, 0x65]
  const SYMBOL: Text := [0x73, 0x79, 0x6D, 0x62, 0x6F, 0x6C]
  const DECIMALS: Text := [0x64, 0x65, 0x63, 0x69, 0x6D, 0x61, 0x6C, 0x73]
  const LOCAL_SUPPLY: Text := [0x6C, 0x6F, 0x63, 0x61, 0x6C, 0x53, 0x75, 0x70, 0x70, 0x6C, 0x79]
  const TOTAL_SUPPLY: Text := [0x74, 0x6F, 0x74, 0x61, 0x6C, 0x53, 0x75, 0x70, 0x70, 0x6C, 0x79]
  const BALANCE: Text := [0x62, 0x61, 0x6C, 0x61, 0x6E, 0x63, 0x65]
  const OWNER: Text := [0x6F, 0x77, 0x6E, 0x65, 0x72]
  const TYPE: Text := [0x74, 0x79, 0x70, 0x65]
  const SOT: Text := [0x53, 0x4F, 0x54]
  const UTX20: Text := [0x55, 0x54, 0x58, 0x32, 0x30]
  const TO: Text := [0x74, 0x6F]
  const AMOUNT: Text := [0x61, 0x6D, 0x6F, 0x75, 0x6E, 0x74]
  const TRANSFER: Text := [0x74, 0x72, 0x61, 0x6E, 0x73, 0x66, 0x65, 0x72]
  const MINT: Text := [0x6D, 0x69, 0x6E, 0x74]
  const BURN: Text := [0x62, 0x75, 0x72, 0x6E]
  const BALANCE_OF: Text := [0x62, 0x61, 0x6C, 0x61, 0x6E, 0x63, 0x65, 0x4F, 0x66]

  type U64 = n: int | 0 <= n < 0x1_0000_0000_0000_0000
  type U8 = n: int | 0 <= n < 256

  // ----- the getters of a JSON object

  function Get(v: Value, key: Text): Option<Value> {
    if v.Object? && key in v.fields then Some(v.fields[key]) else None
  }

  function GetString(v: Value, key: Text): Text {
    match Get(v, key)
    case Some(String(s)) => s
    case _ => []
  }

  function TrimEnd(t: Text): Text {
    if t == [] || !IsSpace(t[|t| - 1]) then t else TrimEnd(t[..|t| - 1])
  }

  /** Numbers as they are, quoted numbers trimmed and parsed, anything else zero. */
  function GetInt(v: Value, key: Text): int {
    match Get(v, key)
    case Some(Number(n)) => n
    case Some(String(s)) => (var t := TrimEnd(SkipSpace(s)); if t == [] then 0 else ParseInt64(t))
    case _ => 0
  }

  function AsU64(n: int): U64 {
    n % 0x1_0000_0000_0000_0000
  }

  // ----- decimal text

  function Decimal(n: nat): (t: Text)
    ensures t != [] && forall i | 0 <= i < |t| :: IsDigit(t[i])
  {
    if n < 10 then [0x30 + n] else Decimal(n / 10) + [0x30 + n % 10]
  }

  lemma {:induction false} DecimalReads(n: nat)
    ensures DecimalValue(Decimal(n)) == n
  {
    var t := Decimal(n);
    if n < 10 {
      assert t[..0] == [];
    } else {
      DecimalReads(n / 10);
      assert t[..|t| - 1] == Decimal(n / 10);
    }
  }

  lemma {:induction false} DigitsOf(t: Text, rest: Text)
    requires (forall i | 0 <= i < |t| :: IsDigit(t[i])) && (rest == [] || !IsDigit(rest[0]))
    ensures Digits(t + rest) == |t|
  {
    if t == [] {
      assert t + rest == rest;
    } else {
      DigitsOf(t[1..], rest);
      assert (t + rest)[1..] == t[1..] + rest;
    }
  }

  /** The decimal text of a u64, read as a signed number and cast back, is the number; below 2^63 the cast is idle. */
  lemma ParseDecimal(n: U64)
    ensures AsU64(ParseInt64(Decimal(n))) == n && TrimEnd(SkipSpace(Decimal(n))) == Decimal(n)
    ensures n < TWO_63 ==> ParseInt64(Decimal(n)) == n
  {
    hide Decimal, Digits, DecimalValue, Wrap64;
    var t := Decimal(n);
    assert t + [] == t;
    DigitsOf(t, []);
    DecimalReads(n);
    WrapBack(n);
    assert t[..|t|] == t && t[0] != MINUS;
    assert IsDigit(t[0]) && IsDigit(t[|t| - 1]);
  }

  lemma WrapBack(n: U64)
    ensures AsU64(Wrap64(n)) == n && (n < TWO_63 ==> Wrap64(n) == n)
  {
  }

  // ----- writing objects

  /** A member to be written: its key, its text and the value that text stands for. */
  datatype Member = Member(key: Text, text: Text, value: Value)

  function MemberText(m: Member): Text {
    [QUOTE] + m.key + [QUOTE, COLON] + m.text
  }

  /** Members separated by commas and closed by a brace. */
  function MembersText(ms: seq<Member>): Text
    requires ms != []
  {
    if |ms| == 1 then MemberText(ms[0]) + [RBRACE] else MemberText(ms[0]) + [COMMA] + MembersText(ms[1..])
  }

  function Collect(ms: seq<Member>, fields: map<Text, Value>): map<Text, Value> {
    if ms == [] then fields else Collect(ms[1..], fields[ms[0].key := ms[0].value])
  }

  /** In front of a comma or a brace the text reads as the value. */
  ghost predicate Readable(hex: Text -> Unit, m: Member) {
    && (forall i | 0 <= i < |m.key| :: m.key[i] >= 0x20 && m.key[i] != QUOTE && m.key[i] != BACKSLASH)
    && (forall d: Unit, rest: Text | d == COMMA || d == RBRACE ::
        ReadValue(hex, m.text + [d] + rest) == Ok(m.value, [d] + rest))
  }

  lemma {:induction false} EscapedSame(key: Text)
    requires forall i | 0 <= i < |key| :: key[i] >= 0x20 && key[i] != QUOTE && key[i] != BACKSLASH
    ensures Escaped(key) == key && Plain(key)
  {
    if key != [] {
      EscapedSame(key[1..]);
      assert key == [key[0]] + key[1..];
    }
  }

  lemma ReadMemberKey(hex: Text -> Unit, key: Text, rest: Text)
    requires forall i | 0 <= i < |key| :: key[i] >= 0x20 && key[i] != QUOTE && key[i] != BACKSLASH
    ensures ReadKey(hex, [QUOTE] + key + [QUOTE, COLON] + rest) == Ok(key, rest)
  {
    hide StringBody, Escaped;
    var t := [QUOTE] + key + [QUOTE, COLON] + rest;
    EscapedSame(key);
    ReadEscaped(hex, key, [COLON] + rest);
    assert t[0] == QUOTE && t[1..] == Escaped(key) + [QUOTE] + ([COLON] + rest);
    assert ([COLON] + rest)[1..] == rest;
  }

  lemma ReadMember(hex: Text -> Unit, m: Member, d: Unit, rest: Text, fields: map<Text, Value>)
    requires Readable(hex, m) && (d == COMMA || d == RBRACE)
    ensures ReadFields(hex, MemberText(m) + [d] + rest, fields) ==
            if d == RBRACE then Ok(Object(fields[m.key := m.value]), rest)
            else ReadFields(hex, rest, fields[m.key := m.value])
  {
    hide ReadKey, ReadValue;
    assert MemberText(m) + [d] + rest == [QUOTE] + m.key + [QUOTE, COLON] + (m.text + [d] + rest);
    ReadMemberKey(hex, m.key, m.text + [d] + rest);
    assert ReadValue(hex, m.text + [d] + rest) == Ok(m.value, [d] + rest);
    assert SkipSpace([d] + rest) == [d] + rest && ([d] + rest)[1..] == rest;
  }

  lemma {:induction false} ReadMembers(hex: Text -> Unit, ms: seq<Member>, fields: map<Text, Value>)
    requires ms != [] && forall i | 0 <= i < |ms| :: Readable(hex, ms[i])
    ensures ReadFields(hex, MembersText(ms), fields) == Ok(Object(Collect(ms, fields)), [])
    decreases |ms|
  {
    hide ReadFields, Readable, MemberText;
    var more := fields[ms[0].key := ms[0].value];
    if |ms| == 1 {
      assert MemberText(ms[0]) + [RBRACE] + [] == MemberText(ms[0]) + [RBRACE];
      ReadMember(hex, ms[0], RBRACE, [], fields);
      assert ms[1..] == [];
    } else {
      ReadMember(hex, ms[0], COMMA, MembersText(ms[1..]), fields);
      ReadMembers(hex, ms[1..], more);
    }
  }

  lemma {:induction false} CollectKeeps(ms: seq<Member>, fields: map<Text, Value>, key: Text)
    requires forall i | 0 <= i < |ms| :: ms[i].key != key
    ensures Collect(ms, fields).Keys * {key} == fields.Keys * {key}
    ensures key in fields ==> key in Collect(ms, fields) && Collect(ms, fields)[key] == fields[key]
    ensures key !in fields ==> key !in Collect(ms, fields)
  {
    if ms != [] { CollectKeeps(ms[1..], fields[ms[0].key := ms[0].value], key); }
  }

  lemma {:induction false} CollectHas(ms: seq<Member>, fields: map<Text, Value>, i: nat)
    requires i < |ms| && forall j | i < j < |ms| :: ms[j].key != ms[i].key
    ensures ms[i].key in Collect(ms, fields) && Collect(ms, fields)[ms[i].key] == ms[i].value
  {
    if i == 0 {
      CollectKeeps(ms[1..], fields[ms[0].key := ms[0].value], ms[0].key);
    } else {
      CollectHas(ms[1..], fields[ms[0].key := ms[0].value], i - 1);
    }
  }

  // ----- the token and its text

  datatype Token = Token(name: Text, symbol: Text, decimals: U8, localSupply: U64, balance: U64, owner: Text)

  function Quoted(s: Text): Text {
    [QUOTE] + Escaped(s) + [QUOTE]
  }

  function QuotedMember(key: Text, s: Text): Member {
    Member(key, Quoted(s), String(s))
  }

  /** The members `toJson` writes, in order. */
  function Members(tok: Token): seq<Member> {
    [QuotedMember(NAME, tok.name),
     QuotedMember(SYMBOL, tok.symbol),
     Member(DECIMALS, Decimal(tok.decimals), Number(tok.decimals)),
     QuotedMember(LOCAL_SUPPLY, Decimal(tok.localSupply)),
     QuotedMember(TOTAL_SUPPLY, Decimal(tok.localSupply)),
     QuotedMember(BALANCE, Decimal(tok.balance)),
     QuotedMember(OWNER, tok.owner)]
  }

  function ToJson(tok: Token): Text {
    [LBRACE] + MembersText(Members(tok))
  }

  /** The token that a call rebuilds from the parsed state. */
  function TokenOf(v: Value): Token {
    var supply := if Get(v, LOCAL_SUPPLY).Some? then GetInt(v, LOCAL_SUPPLY) else GetInt(v, TOTAL_SUPPLY);
    Token(GetString(v, NAME), GetString(v, SYMBOL), GetInt(v, DECIMALS) % 256, AsU64(supply), AsU64(GetInt(v, BALANCE)),
          GetString(v, OWNER))
  }

  /** Strings that survive the text, and a symbol to be recognised by. */
  predicate Writable(tok: Token) {
    PlainToken(tok) && tok.symbol != []
  }

  predicate PlainToken(tok: Token) {
    Plain(tok.name) && Plain(tok.symbol) && Plain(tok.owner)
  }

  lemma QuotedReads(hex: Text -> Unit, s: Text, rest: Text)
    requires Plain(s)
    ensures ReadValue(hex, Quoted(s) + rest) == Ok(String(s), rest)
  {
    hide StringBody, Escaped;
    var t := Quoted(s) + rest;
    ReadEscaped(hex, s, rest);
    assert t[0] == QUOTE && t[1..] == Escaped(s) + [QUOTE] + rest;
    assert SkipSpace(t) == t;
  }

  lemma QuotedReadable(hex: Text -> Unit, key: Text, s: Text)
    requires Plain(s) && forall i | 0 <= i < |key| :: key[i] >= 0x20 && key[i] != QUOTE && key[i] != BACKSLASH
    ensures Readable(hex, QuotedMember(key, s))
  {
    hide ReadValue, Quoted;
    forall d: Unit, rest: Text | d == COMMA || d == RBRACE
      ensures ReadValue(hex, Quoted(s) + [d] + rest) == Ok(String(s), [d] + rest)
    {
      assert Quoted(s) + [d] + rest == Quoted(s) + ([d] + rest);
      QuotedReads(hex, s, [d] + rest);
    }
  }

  lemma NumberReadable(hex: Text -> Unit, n: nat)
    requires n < TWO_63
    ensures Readable(hex, Member(DECIMALS, Decimal(n), Number(n)))
  {
    forall d: Unit, rest: Text | d == COMMA || d == RBRACE
      ensures ReadValue(hex, Decimal(n) + [d] + rest) == Ok(Number(n), [d] + rest)
    {
      DecimalThen(hex, n, [d] + rest);
      assert Decimal(n) + [d] + rest == Decimal(n) + ([d] + rest);
    }
  }

  lemma DecimalThen(hex: Text -> Unit, n: nat, rest: Text)
    requires n < TWO_63 && (rest == [] || !IsDigit(rest[0]))
    ensures ReadValue(hex, Decimal(n) + rest) == Ok(Number(n), rest)
  {
    hide ParseInt64, Decimal;
    var t := Decimal(n) + rest;
    assert IsDigit(t[0]) && t[0] == Decimal(n)[0];
    DigitsOf(Decimal(n), rest);
    ParseDecimal(n);
    assert t[0..] == t && t[..|Decimal(n)|] == Decimal(n) && t[|Decimal(n)|..] == rest;
    assert SkipSpace(t) == t;
  }

  lemma DecimalPlain(n: nat)
    ensures Plain(Decimal(n))
  {
  }

  lemma MembersReadable(hex: Text -> Unit, tok: Token)
    requires PlainToken(tok)
    ensures forall i | 0 <= i < |Members(tok)| :: Readable(hex, Members(tok)[i])
  {
    hide Readable, Plain, Quoted, Decimal;
    DecimalPlain(tok.localSupply);
    DecimalPlain(tok.balance);
    QuotedReadable(hex, NAME, tok.name);
    QuotedReadable(hex, SYMBOL, tok.symbol);
    NumberReadable(hex, tok.decimals);
    QuotedReadable(hex, LOCAL_SUPPLY, Decimal(tok.localSupply));
    QuotedReadable(hex, TOTAL_SUPPLY, Decimal(tok.localSupply));
    QuotedReadable(hex, BALANCE, Decimal(tok.balance));
    QuotedReadable(hex, OWNER, tok.owner);
  }

  /** The text of a token parses to an object with the token's members. */
  lemma TextParses(hex: Text -> Unit, tok: Token)
    requires PlainToken(tok)
    ensures Parse(hex, ToJson(tok)) == Some(Object(Collect(Members(tok), map[])))
  {
    hide ReadFields, Members, Collect, PlainToken;
    var ms := Members(tok);
    var t := ToJson(tok);
    MembersNonempty(tok);
    MembersReadable(hex, tok);
    ReadMembers(hex, ms, map[]);
    MembersStart(ms);
    assert t[0] == LBRACE && t[1..] == MembersText(ms);
    assert SkipSpace(t) == t && SkipSpace(MembersText(ms)) == MembersText(ms);
  }

  lemma MembersNonempty(tok: Token)
    ensures Members(tok) != []
  {
  }

  lemma MembersStart(ms: seq<Member>)
    requires ms != []
    ensures MembersText(ms) != [] && MembersText(ms)[0] == QUOTE
  {
  }

  /** Rebuilding a token from its own text gives the token back. */
  lemma TextRestores(hex: Text -> Unit, tok: Token)
    requires PlainToken(tok)
    ensures var v := Parse(hex, ToJson(tok));
            && v.Some? && v.value.Object? && TokenOf(v.value) == tok
            && GetString(v.value, TYPE) == [] && GetString(v.value, SYMBOL) == tok.symbol
            && GetString(v.value, TOTAL_SUPPLY) == Decimal(tok.localSupply)
  {
    hide Parse, ToJson, TokenOf, Members, Collect, GetString;
    TextParses(hex, tok);
    MembersRestore(tok, Collect(Members(tok), map[]));
  }

  lemma MembersRestore(tok: Token, f: map<Text, Value>)
    requires f == Collect(Members(tok), map[])
    ensures TokenOf(Object(f)) == tok && GetString(Object(f), TYPE) == [] && GetString(Object(f), SYMBOL) == tok.symbol
    ensures GetString(Object(f), TOTAL_SUPPLY) == Decimal(tok.localSupply)
  {
    hide Collect, Decimal, ParseInt64, Quoted, SkipSpace, TrimEnd, Plain;
    MemberAt(tok, f, 0);
    MemberAt(tok, f, 1);
    MemberAt(tok, f, 2);
    MemberAt(tok, f, 3);
    MemberAt(tok, f, 4);
    MemberAt(tok, f, 5);
    MemberAt(tok, f, 6);
    NoType(tok);
    ParseDecimal(tok.localSupply);
    ParseDecimal(tok.balance);
  }

  lemma MemberAt(tok: Token, f: map<Text, Value>, i: nat)
    requires i < 7 && f == Collect(Members(tok), map[])
    ensures Members(tok)[i].key in f && f[Members(tok)[i].key] == Members(tok)[i].value
  {
    hide Collect, Quoted, Decimal;
    CollectHas(Members(tok), map[], i);
  }

  lemma NoType(tok: Token)
    ensures TYPE !in Collect(Members(tok), map[])
  {
    hide Collect, Quoted, Decimal;
    CollectKeeps(Members(tok), map[], TYPE);
  }

  // ----- the contract in memory

  datatype Request =
    | Transfer(recipient: Text, amount: U64)
    | Mint(recipient: Text, amount: U64)
    | Burn(amount: U64)
    | BalanceOf
    | Other

  /** A call either traps, returns an error code, or leaves a token. */
  datatype Outcome<T> = Trap | Code(code: int) | Next(state: T)

  /** `transfer`: the whole balance moves to the recipient. */
  function DoTransfer(tok: Token, caller: Text, recipient: Text, amount: U64): Outcome<Token> {
    if caller != tok.owner || amount != tok.balance || amount == 0 then Trap
    else Next(tok.(owner := recipient, balance := amount))
  }

  function DoMint(tok: Token, caller: Text, recipient: Text, amount: U64): Outcome<Token> {
    if caller != tok.owner || amount == 0 then Trap
    else Next(tok.(owner := recipient, localSupply := AsU64(tok.localSupply + amount), balance := amount))
  }

  function DoBurn(tok: Token, caller: Text, amount: U64): Outcome<Token> {
    if caller != tok.owner || tok.balance < amount || amount == 0 then Trap
    else Next(tok.(balance := tok.balance - amount, localSupply := AsU64(tok.localSupply - amount)))
  }

  function InMemory(tok: Token, caller: Text, r: Request): Outcome<Token> {
    match r
    case Transfer(recipient, amount) => DoTransfer(tok, caller, recipient, amount)
    case Mint(recipient, amount) => DoMint(tok, caller, recipient, amount)
    case Burn(amount) => DoBurn(tok, caller, amount)
    case BalanceOf => Code(0)
    case Other => Code(1)
  }

  class SmartObjectToken {
    var name: Text
    var symbol: Text
    var decimals: U8
    var localSupply: U64
    var balance: U64
    var owner: Text

    ghost function Abstract(): Token
      reads this
    {
      Token(name, symbol, decimals, localSupply, balance, owner)
    }

    constructor (name: Text, symbol: Text, decimals: U8, initialSupply: U64, owner: Text)
      ensures Abstract() == Token(name, symbol, decimals, initialSupply, initialSupply, owner)
    {
      this.name, this.symbol, this.decimals := name, symbol, decimals;
      localSupply, balance, this.owner := initialSupply, initialSupply, owner;
    }

    function ToText(): Text
      reads this
    {
      ToJson(Token(name, symbol, decimals, localSupply, balance, owner))
    }

    method TransferTo(caller: Text, recipient: Text, amount: U64) returns (r: Outcome<SmartObjectToken>)
      modifies this
      ensures match DoTransfer(old(Abstract()), caller, recipient, amount)
              case Trap => r == Trap && Abstract() == old(Abstract())
              case Code(_) => false
              case Next(tok) =>
                r.Next? && fresh(r.state) && r.state.Abstract() == tok &&
                Abstract() == old(Abstract()).(balance := 0)
    {
      if caller != owner || amount != balance || amount <= 0 { return Trap; }
      balance := 0;
      var next := new SmartObjectToken(name, symbol, decimals, localSupply, recipient);
      next.balance := amount;
      return Next(next);
    }

    method MintTo(caller: Text, recipient: Text, amount: U64) returns (r: Outcome<SmartObjectToken>)
      modifies this
      ensures match DoMint(old(Abstract()), caller, recipient, amount)
              case Trap => r == Trap && Abstract() == old(Abstract())
              case Code(_) => false
              case Next(tok) =>
                r.Next? && fresh(r.state) && r.state.Abstract() == tok &&
                Abstract() == old(Abstract()).(localSupply := tok.localSupply)
    {
      if caller != owner || amount <= 0 { return Trap; }
      localSupply := AsU64(localSupply + amount);
      var next := new SmartObjectToken(name, symbol, decimals, localSupply, recipient);
      next.balance := amount;
      return Next(next);
    }

    method BurnSome(caller: Text, amount: U64) returns (trapped: bool)
      modifies this
      ensures match DoBurn(old(Abstract()), caller, amount)
              case Trap => trapped && Abstract() == old(Abstract())
              case Code(_) => false
              case Next(tok) => !trapped && Abstract() == tok
    {
      if caller != owner || balance < amount || amount <= 0 { return true; }
      balance := balance - amount;
      localSupply := AsU64(localSupply - amount);
      return false;
    }
  }

  // ----- calls

  /** A call as it arrives: who makes it, the method's name and the text of its arguments. */
  datatype CallBy = CallBy(caller: Text, name: Text, args: Text)

  /** What the dispatcher reads from the name and the parsed arguments. */
  function RequestOf(name: Text, args: Value): Request {
    if name == TRANSFER then Transfer(GetString(args, TO), AsU64(GetInt(args, AMOUNT)))
    else if name == MINT then Mint(GetString(args, TO), AsU64(GetInt(args, AMOUNT)))
    else if name == BURN then Burn(AsU64(GetInt(args, AMOUNT)))
    else if name == BALANCE_OF then BalanceOf
    else Other
  }

  /** A call on the token itself; arguments that are no JSON object are an error. */
  function CallInMemory(hex: Text -> Unit, tok: Token, c: CallBy): Outcome<Token> {
    match Parse(hex, c.args)
    case None => Code(1)
    case Some(args) => if !args.Object? then Code(1) else InMemory(tok, c.caller, RequestOf(c.name, args))
  }

  // ----- the contract through its text

  /** The contract type that `restore_state` detects. */
  function Detected(v: Value): Text {
    if GetString(v, TYPE) != [] then GetString(v, TYPE) else if GetString(v, SYMBOL) != [] then SOT else []
  }

  /** The outcome of a call in terms of the text it leaves. */
  function AsText(o: Outcome<Token>): Outcome<Text> {
    match o
    case Trap => Trap
    case Code(c) => Code(c)
    case Next(tok) => Next(ToJson(tok))
  }

  /** `call` on a stored text of a known contract type; types other than the token's are an error here. */
  function CallOn(hex: Text -> Unit, text: Text, kind: Text, c: CallBy): Outcome<Text> {
    match Parse(hex, text)
    case None => Code(1)
    case Some(v) =>
      if !v.Object? || (kind != SOT && kind != UTX20) then Code(1) else AsText(CallInMemory(hex, TokenOf(v), c))
  }

  /** `restore_state` on the stored text, one call, and the text left behind. */
  function ThroughText(hex: Text -> Unit, text: Text, c: CallBy): Outcome<Text> {
    match Parse(hex, text)
    case None => Code(1)
    case Some(v) => CallOn(hex, text, Detected(v), c)
  }

  /** One call through the text is the call in memory if the token is writable; any other token is stuck. */
  lemma StepRefines(hex: Text -> Unit, tok: Token, c: CallBy)
    ensures ThroughText(hex, ToJson(tok), c) == if Writable(tok) then AsText(CallInMemory(hex, tok, c)) else Code(1)
  {
    hide Parse, ToJson, TokenOf, PlainToken, GetString;
    if PlainToken(tok) {
      TextRestores(hex, tok);
    } else {
      TextFails(hex, tok);
    }
  }

  // ----- a string with a control character breaks the text

  lemma BrokenMember(hex: Text -> Unit, key: Text, s: Text, rest: Text, fields: map<Text, Value>)
    requires !Plain(s) && forall i | 0 <= i < |key| :: key[i] >= 0x20 && key[i] != QUOTE && key[i] != BACKSLASH
    ensures ReadFields(hex, MemberText(QuotedMember(key, s)) + rest, fields) == Fail
  {
    hide ReadKey, StringBody, Escaped, Plain;
    var t := Quoted(s) + rest;
    assert MemberText(QuotedMember(key, s)) + rest == [QUOTE] + key + [QUOTE, COLON] + t;
    ReadMemberKey(hex, key, t);
    ReadEscaped(hex, s, rest);
    assert t[0] == QUOTE && t[1..] == Escaped(s) + [QUOTE] + rest;
    assert SkipSpace(t) == t;
  }

  /** Reading stops at the first member that is not readable. */
  lemma {:induction false} BrokenMembers(hex: Text -> Unit, ms: seq<Member>, k: nat, fields: map<Text, Value>)
    requires k < |ms| && forall i | 0 <= i < k :: Readable(hex, ms[i])
    requires forall rest: Text, f: map<Text, Value> :: ReadFields(hex, MemberText(ms[k]) + rest, f) == Fail
    ensures ReadFields(hex, MembersText(ms), fields) == Fail
    decreases |ms|
  {
    hide ReadFields, Readable, MemberText;
    if k == 0 {
      if |ms| > 1 {
        var rest := [COMMA] + MembersText(ms[1..]);
        assert MembersText(ms) == MemberText(ms[0]) + rest;
      }
    } else {
      ReadMember(hex, ms[0], COMMA, MembersText(ms[1..]), fields);
      BrokenMembers(hex, ms[1..], k - 1, fields[ms[0].key := ms[0].value]);
    }
  }

  /** The place of the first member that does not read back, among name, symbol and owner. */
  function Broken(tok: Token): nat {
    if !Plain(tok.name) then 0 else if !Plain(tok.symbol) then 1 else 6
  }

  lemma FrontReadable(hex: Text -> Unit, tok: Token)
    requires !PlainToken(tok)
    ensures forall i | 0 <= i < Broken(tok) :: Readable(hex, Members(tok)[i])
  {
    hide Readable, Plain, Quoted, Decimal;
    if Plain(tok.name) {
      QuotedReadable(hex, NAME, tok.name);
      if Plain(tok.symbol) {
        PlainBlank();
        MembersReadable(hex, tok.(owner := []));
        assert forall i | 0 <= i < 6 :: Members(tok.(owner := []))[i] == Members(tok)[i];
      }
    }
  }

  lemma PlainBlank()
    ensures Plain([])
  {
  }

  lemma BrokenReads(hex: Text -> Unit, tok: Token, rest: Text, fields: map<Text, Value>)
    requires !PlainToken(tok)
    ensures ReadFields(hex, MemberText(Members(tok)[Broken(tok)]) + rest, fields) == Fail
  {
    hide ReadFields, Plain, MemberText, Decimal;
    if !Plain(tok.name) {
      BrokenMember(hex, NAME, tok.name, rest, fields);
    } else if !Plain(tok.symbol) {
      BrokenMember(hex, SYMBOL, tok.symbol, rest, fields);
    } else {
      BrokenMember(hex, OWNER, tok.owner, rest, fields);
    }
  }

  lemma TextFails(hex: Text -> Unit, tok: Token)
    requires !PlainToken(tok)
    ensures Parse(hex, ToJson(tok)) == None
  {
    hide ReadFields, PlainToken, Members, MemberText, Readable;
    var ms := Members(tok);
    SevenMembers(tok);
    FrontReadable(hex, tok);
    forall rest: Text, f: map<Text, Value> ensures ReadFields(hex, MemberText(ms[Broken(tok)]) + rest, f) == Fail {
      BrokenReads(hex, tok, rest, f);
    }
    BrokenMembers(hex, ms, Broken(tok), map[]);
    OpensObject(hex, ms);
  }

  lemma SevenMembers(tok: Token)
    ensures |Members(tok)| == 7
  {
  }

  lemma OpensObject(hex: Text -> Unit, ms: seq<Member>)
    requires ms != []
    ensures ReadValue(hex, [LBRACE] + MembersText(ms)) == ReadFields(hex, MembersText(ms), map[])
  {
    hide ReadFields;
    var t := [LBRACE] + MembersText(ms);
    MembersStart(ms);
    assert t[0] == LBRACE && t[1..] == MembersText(ms);
    assert SkipSpace(t) == t && SkipSpace(MembersText(ms)) == MembersText(ms);
  }

  // ----- runs

  /** Failed calls leave the state as it was. */
  function RunInMemory(hex: Text -> Unit, tok: Token, calls: seq<CallBy>): Token {
    if calls == [] then tok
    else
      var before := RunInMemory(hex, tok, calls[..|calls| - 1]);
      match CallInMemory(hex, before, calls[|calls| - 1])
      case Next(next) => next
      case _ => before
  }

  function RunThroughText(hex: Text -> Unit, text: Text, calls: seq<CallBy>): Text {
    if calls == [] then text
    else
      var before := RunThroughText(hex, text, calls[..|calls| - 1]);
      match ThroughText(hex, before, calls[|calls| - 1])
      case Next(next) => next
      case _ => before
  }

  /** A call does not name a recipient with a control character in it. */
  predicate PlainCall(hex: Text -> Unit, c: CallBy) {
    match Parse(hex, c.args)
    case Some(args) => Plain(GetString(args, TO))
    case None => true
  }

  lemma CallStaysWritable(hex: Text -> Unit, tok: Token, c: CallBy)
    requires Writable(tok) && PlainCall(hex, c)
    ensures CallInMemory(hex, tok, c).Next? ==> Writable(CallInMemory(hex, tok, c).state)
  {
    hide Parse, Plain, GetString, GetInt;
  }

  lemma {:induction false} RunStaysWritable(hex: Text -> Unit, tok: Token, calls: seq<CallBy>)
    requires Writable(tok) && forall i | 0 <= i < |calls| :: PlainCall(hex, calls[i])
    ensures Writable(RunInMemory(hex, tok, calls))
  {
    hide CallInMemory, PlainCall, Writable;
    if calls != [] {
      RunStaysWritable(hex, tok, calls[..|calls| - 1]);
      CallStaysWritable(hex, RunInMemory(hex, tok, calls[..|calls| - 1]), calls[|calls| - 1]);
    }
  }

  /** Any run of calls with the state carried as text equals the run on the token itself. */
  lemma {:induction false} RunRefines(hex: Text -> Unit, tok: Token, calls: seq<CallBy>)
    requires Writable(tok) && forall i | 0 <= i < |calls| :: PlainCall(hex, calls[i])
    ensures RunThroughText(hex, ToJson(tok), calls) == ToJson(RunInMemory(hex, tok, calls))
  {
    hide ToJson, ThroughText, CallInMemory, Writable, PlainCall;
    if calls != [] {
      var init := calls[..|calls| - 1];
      RunRefines(hex, tok, init);
      RunStaysWritable(hex, tok, init);
      StepRefines(hex, RunInMemory(hex, tok, init), calls[|calls| - 1]);
    }
  }
}
