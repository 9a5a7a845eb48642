/**
 The contract's entry points (`contracts/assembly/entry.ts`): two globals, reassigned by restoring a state and by a
 call. The token path only; UTF-8 decoding of guest memory and event emission are left out.
 */
module Entry {
  import opened Bytes
  import opened Json
  import opened Sot
  import JsonParser

  class Contract {
    const hex: Text -> Unit
    var globalStateJson: Text
    var contractType: Text

    constructor (hex: Text -> Unit)
      ensures this.hex == hex && globalStateJson == [LBRACE, RBRACE] && contractType == []
    {
      this.hex, globalStateJson, contractType := hex, [LBRACE, RBRACE], [];
    }

    method ParseObject(text: Text) returns (v: Option<Value>)
      ensures v == match Parse(hex, text) case Some(o) => (if o.Object? then Some(o) else None) case None => None
    {
      var parser := new JsonParser.Parser(text, hex);
      v := parser.ParseText();
      if v.Some? && !v.value.Object? { v := None; }
    }

    /** A text that is no JSON object is refused; any other becomes the state and its type is detected anew. */
    method RestoreState(state: Text) returns (code: int)
      modifies this
      ensures var v := Parse(hex, state);
              if state != [] && v.Some? && v.value.Object? then
                code == 0 && globalStateJson == state && contractType == Detected(v.value) &&
                contractType == (if GetString(v.value, TYPE) != [] then GetString(v.value, TYPE)
                                 else if GetString(v.value, SYMBOL) != [] then SOT else [])
              else
                code == (if state == [] then 0 else 1) &&
                globalStateJson == old(globalStateJson) && contractType == old(contractType)
    {
      if state == [] { return 0; }
      var parsed := ParseObject(state);
      if parsed.None? { return 1; }
      globalStateJson := state;
      contractType := GetString(parsed.value, TYPE);
      if contractType == [] {
        if GetString(parsed.value, SYMBOL) != [] { contractType := SOT; }
      }
      return 0;
    }

    /** A call does to the global state what `CallOn` says of its text, and nothing if it traps or fails. */
    method Call(c: CallBy) returns (outcome: Outcome<Text>)
      modifies this`globalStateJson
      ensures outcome == CallOn(hex, old(globalStateJson), contractType, c)
      ensures globalStateJson == if outcome.Next? then outcome.state else old(globalStateJson)
    {
      hide Parse;
      var args := ParseObject(c.args);
      if args.None? { return Code(1); }
      var state := ParseObject(globalStateJson);
      if state.None? { return Code(1); }
      if contractType != SOT && contractType != UTX20 { return Code(1); }
      outcome := CallSot(c, state.value, args.value);
    }

    /** The token is rebuilt from the state, its method called, and the resulting token printed. */
    method CallSot(c: CallBy, state: Value, args: Value) returns (outcome: Outcome<Text>)
      modifies this`globalStateJson
      ensures outcome == AsText(InMemory(TokenOf(state), c.caller, RequestOf(c.name, args)))
      ensures globalStateJson == if outcome.Next? then outcome.state else old(globalStateJson)
    {
      hide ToJson, TokenOf, GetString, GetInt, DoTransfer, DoMint, DoBurn;
      var t := TokenOf(state);
      var token := new SmartObjectToken(t.name, t.symbol, t.decimals, t.localSupply, t.owner);
      token.balance := t.balance;
      assert token.Abstract() == t;
      if c.name == TRANSFER {
        var r := token.TransferTo(c.caller, GetString(args, TO), AsU64(GetInt(args, AMOUNT)));
        if r.Trap? { return Trap; }
        globalStateJson := r.state.ToText();
      } else if c.name == MINT {
        var r := token.MintTo(c.caller, GetString(args, TO), AsU64(GetInt(args, AMOUNT)));
        if r.Trap? { return Trap; }
        globalStateJson := r.state.ToText();
      } else if c.name == BURN {
        var trapped := token.BurnSome(c.caller, AsU64(GetInt(args, AMOUNT)));
        if trapped { return Trap; }
        globalStateJson := token.ToText();
      } else if c.name == BALANCE_OF {
        return Code(0);
      } else {
        return Code(1);
      }
      return Next(globalStateJson);
    }

    /** Restoring a token's text and calling it is one step of the run through the text. */
    method RestoreAndCall(text: Text, c: CallBy) returns (outcome: Outcome<Text>)
      requires text != []
      modifies this
      ensures outcome == ThroughText(hex, text, c)
    {
      var code := RestoreState(text);
      if code != 0 { return Code(1); }
      outcome := Call(c);
    }
  }
}
