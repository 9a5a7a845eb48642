/**
 Who may do what with a token: which calls succeed and what they change, told on the token and the parsed
 arguments, and what follows over runs with the state carried as text.
 */
module Authority {
  import opened Bytes
  import opened Json
  import opened Sot

  /** The arguments of a call, if they are a JSON object. */
  predicate ArgsAre(hex: Text -> Unit, c: CallBy, args: Value) {
    Parse(hex, c.args) == Some(args) && args.Object?
  }

  /** A call with arguments that are no JSON object is an error. */
  lemma BadArgs(hex: Text -> Unit, tok: Token, c: CallBy)
    requires forall args :: !ArgsAre(hex, c, args)
    ensures CallInMemory(hex, tok, c) == Code(1)
  {
    hide Parse;
    if Parse(hex, c.args).Some? { assert !ArgsAre(hex, c, Parse(hex, c.args).value); }
  }

  /** A transfer succeeds exactly for the owner, with the whole balance, which is not zero; only the owner changes. */
  lemma TransferDecided(hex: Text -> Unit, tok: Token, c: CallBy, args: Value)
    requires ArgsAre(hex, c, args) && c.name == TRANSFER
    ensures var (amount, after) := (AsU64(GetInt(args, AMOUNT)), CallInMemory(hex, tok, c));
            && (after.Next? <==> c.caller == tok.owner && amount == tok.balance && amount > 0)
            && (after.Next? ==> after.state == tok.(owner := GetString(args, TO)))
            && (!after.Next? ==> after == Trap)
  {
    hide Parse, GetString, GetInt;
  }

  /**
   A mint succeeds exactly for the owner with an amount above zero; the recipient holds it, the supply grows by it.
   */
  lemma MintDecided(hex: Text -> Unit, tok: Token, c: CallBy, args: Value)
    requires ArgsAre(hex, c, args) && c.name == MINT
    ensures var (amount, after) := (AsU64(GetInt(args, AMOUNT)), CallInMemory(hex, tok, c));
            && (after.Next? <==> c.caller == tok.owner && amount > 0)
            && (after.Next? ==>
                  after.state == tok.(owner := GetString(args, TO), balance := amount,
                                      localSupply := (tok.localSupply + amount) % 0x1_0000_0000_0000_0000))
            && (!after.Next? ==> after == Trap)
  {
    hide Parse, GetString, GetInt;
    NamesDiffer();
  }

  /**
   A burn succeeds exactly for the owner with an amount above zero within the balance; balance and supply fall by it.
   */
  lemma BurnDecided(hex: Text -> Unit, tok: Token, c: CallBy, args: Value)
    requires ArgsAre(hex, c, args) && c.name == BURN
    ensures var (amount, after) := (AsU64(GetInt(args, AMOUNT)), CallInMemory(hex, tok, c));
            && (after.Next? <==> c.caller == tok.owner && 0 < amount <= tok.balance)
            && (after.Next? ==>
                  after.state == tok.(balance := tok.balance - amount,
                                      localSupply := (tok.localSupply - amount) % 0x1_0000_0000_0000_0000))
            && (!after.Next? ==> after == Trap)
  {
    hide Parse, GetString, GetInt;
    NamesDiffer();
  }

  /** Reading the balance and unknown methods change nothing. */
  lemma OthersDecided(hex: Text -> Unit, tok: Token, c: CallBy, args: Value)
    requires ArgsAre(hex, c, args) && c.name != TRANSFER && c.name != MINT && c.name != BURN
    ensures CallInMemory(hex, tok, c) == Code(if c.name == BALANCE_OF then 0 else 1)
  {
    hide Parse;
  }

  lemma NamesDiffer()
    ensures TRANSFER != MINT && TRANSFER != BURN && MINT != BURN
  {
    assert TRANSFER[0] != MINT[0] && TRANSFER[0] != BURN[0] && MINT[0] != BURN[0];
  }

  // ----- authority

  /** Nobody but the owner changes a token. */
  lemma OnlyOwnerChanges(hex: Text -> Unit, tok: Token, c: CallBy)
    ensures CallInMemory(hex, tok, c).Next? ==> c.caller == tok.owner
  {
    hide Parse, GetString, GetInt;
  }

  /** Whatever strangers call, the text of a token, readable or not, stays the text of that token. */
  lemma {:induction false} StrangersChangeNothing(hex: Text -> Unit, tok: Token, calls: seq<CallBy>)
    requires forall i | 0 <= i < |calls| :: calls[i].caller != tok.owner
    ensures RunThroughText(hex, ToJson(tok), calls) == ToJson(tok)
  {
    hide ToJson, ThroughText, CallInMemory, Writable;
    if calls != [] {
      var init, last := calls[..|calls| - 1], calls[|calls| - 1];
      StrangersChangeNothing(hex, tok, init);
      StepRefines(hex, tok, last);
      OnlyOwnerChanges(hex, tok, last);
    }
  }

  /** Over any run, a token that ends up with another owner was handed on by a call of the owner it started with. */
  lemma OwnerLetsGo(hex: Text -> Unit, tok: Token, calls: seq<CallBy>)
    requires RunInMemory(hex, tok, calls).owner != tok.owner
    ensures exists i :: 0 <= i < |calls| && calls[i].caller == tok.owner
  {
    hide RunInMemory;
    if forall i | 0 <= i < |calls| :: calls[i].caller != tok.owner {
      UntouchedInMemory(hex, tok, calls);
    }
  }

  lemma {:induction false} UntouchedInMemory(hex: Text -> Unit, tok: Token, calls: seq<CallBy>)
    requires forall i | 0 <= i < |calls| :: calls[i].caller != tok.owner
    ensures RunInMemory(hex, tok, calls) == tok
  {
    hide CallInMemory;
    if calls != [] {
      UntouchedInMemory(hex, tok, calls[..|calls| - 1]);
      OnlyOwnerChanges(hex, tok, calls[|calls| - 1]);
    }
  }

  // ----- amounts

  /** What the supply counts beyond the balance. */
  function Elsewhere(tok: Token): U64 {
    (tok.localSupply - tok.balance) % 0x1_0000_0000_0000_0000
  }

  lemma CallConserves(hex: Text -> Unit, tok: Token, c: CallBy)
    requires c.name != MINT
    ensures var after := CallInMemory(hex, tok, c);
            after.Next? ==> Elsewhere(after.state) == Elsewhere(tok) && after.state.balance <= tok.balance
  {
    hide Parse, GetString, GetInt;
  }

  /** Without mints a run makes no tokens: the balance never grows, and the supply falls exactly as the balance does. */
  lemma {:induction false} RunConserves(hex: Text -> Unit, tok: Token, calls: seq<CallBy>)
    requires forall i | 0 <= i < |calls| :: calls[i].name != MINT
    ensures var end := RunInMemory(hex, tok, calls);
            && Elsewhere(end) == Elsewhere(tok) && end.balance <= tok.balance
            && end.name == tok.name && end.symbol == tok.symbol && end.decimals == tok.decimals
  {
    hide CallInMemory, Elsewhere;
    if calls != [] {
      var init, last := calls[..|calls| - 1], calls[|calls| - 1];
      RunConserves(hex, tok, init);
      CallConserves(hex, RunInMemory(hex, tok, init), last);
      CallKeepsNames(hex, RunInMemory(hex, tok, init), last);
    }
  }

  lemma CallKeepsNames(hex: Text -> Unit, tok: Token, c: CallBy)
    ensures var after := CallInMemory(hex, tok, c);
            after.Next? ==>
              after.state.name == tok.name && after.state.symbol == tok.symbol && after.state.decimals == tok.decimals
  {
    hide Parse, GetString, GetInt;
  }

  // ----- which states are tokens

  /** A stored JSON object of type SOT or UTX20 answers as the token read from it; any other stored text is an error. */
  lemma TypesDecided(hex: Text -> Unit, text: Text, kind: Text, c: CallBy)
    ensures var v := Parse(hex, text);
            CallOn(hex, text, kind, c) ==
            if v.Some? && v.value.Object? && (kind == SOT || kind == UTX20)
            then AsText(CallInMemory(hex, TokenOf(v.value), c)) else Code(1)
  {
    hide Parse, CallInMemory, TokenOf;
  }

  /** A state without a local supply is read with its total supply, and one with a local supply never is. */
  lemma SupplyRead(fields: map<Text, Value>)
    ensures LOCAL_SUPPLY !in fields ==>
              TokenOf(Object(fields)).localSupply == AsU64(GetInt(Object(fields), TOTAL_SUPPLY))
    ensures LOCAL_SUPPLY in fields ==>
              TokenOf(Object(fields)).localSupply == AsU64(GetInt(Object(fields), LOCAL_SUPPLY))
  {
    hide GetInt, GetString;
  }
}
