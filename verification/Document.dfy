/**
 JSON texts as syntax trees (RFC 8259), with their white space and any legal escapes. The reader of
 `contracts/assembly/json.ts` reads every such text as what it means, whoever wrote it, and reads nothing else.
 */
module Document {
  import opened Bytes
  import opened Json

  // ----- syntax

  /** A unit of a string: as it is, as a two-unit escape, or as `\u` with four digits. */
  datatype Piece = Raw(c: Unit) | Short(c: Unit) | Long(digits: Text)

  /** A string literal between its quotes. */
  type Literal = seq<Piece>

  datatype Doc =
    | DNull
    | DBool(b: bool)
    | DNumber(negative: bool, digits: Text)
    | DString(literal: Literal)
    | DEmptyArray(blank: Text)
    | DArray(items: seq<Slot>)
    | DEmptyObject(blank: Text)
    | DObject(members: seq<Member>)

  /** A value with the white space around it. */
  datatype Slot = Slot(before: Text, doc: Doc, after: Text)

  datatype Member = Member(before: Text, key: Literal, gap: Text, slot: Slot)

  predicate Blank(t: Text) {
    forall i | 0 <= i < |t| :: IsSpace(t[i])
  }

  // ----- strings

  /** The letter that escapes a unit, as section 7 of RFC 8259 lists them. */
  function Letter(c: Unit): Option<Unit> {
    match c
    case 0x22 => Some(0x22)
    case 0x5C => Some(0x5C)
    case 0x2F => Some(0x2F)
    case 0x08 => Some(0x62)
    case 0x0C => Some(0x66)
    case 0x0A => Some(0x6E)
    case 0x0D => Some(0x72)
    case 0x09 => Some(0x74)
    case _ => None
  }

  predicate LegalPiece(p: Piece) {
    match p
    case Raw(c) => c >= 0x20 && c != QUOTE && c != BACKSLASH
    case Short(c) => Letter(c).Some?
    case Long(digits) => |digits| == 4
  }

  predicate LegalLiteral(l: Literal) {
    forall i | 0 <= i < |l| :: LegalPiece(l[i])
  }

  function PieceText(p: Piece): Text {
    match p
    case Raw(c) => [c]
    case Short(c) => [BACKSLASH, if Letter(c).Some? then Letter(c).value else 0]
    case Long(digits) => [BACKSLASH, 0x75] + digits
  }

  function LiteralText(l: Literal): Text {
    if l == [] then [QUOTE] else PieceText(l[0]) + LiteralText(l[1..])
  }

  function PieceUnit(hex: Text -> Unit, p: Piece): Unit {
    match p
    case Raw(c) => c
    case Short(c) => c
    case Long(digits) => hex(digits)
  }

  function LiteralUnits(hex: Text -> Unit, l: Literal): Text {
    if l == [] then [] else [PieceUnit(hex, l[0])] + LiteralUnits(hex, l[1..])
  }

  lemma ReadPiece(hex: Text -> Unit, p: Piece, tail: Text)
    requires LegalPiece(p)
    ensures StringBody(hex, PieceText(p) + tail) == Cons([PieceUnit(hex, p)], StringBody(hex, tail))
  {
    var t := PieceText(p) + tail;
    match p
    case Raw(c) => assert t[0] == c && t[1..] == tail;
    case Short(c) => assert t[0] == BACKSLASH && t[1] == Letter(c).value && t[2..] == tail;
    case Long(digits) => assert t[0] == BACKSLASH && t[1] == 0x75 && t[2..6] == digits && t[6..] == tail;
  }

  /** Every legal literal, whichever escapes it uses, reads as its units. */
  lemma {:induction false} ReadLiteral(hex: Text -> Unit, l: Literal, rest: Text)
    requires LegalLiteral(l)
    ensures StringBody(hex, LiteralText(l) + rest) == Ok(LiteralUnits(hex, l), rest)
  {
    hide StringBody, PieceText, PieceUnit, LegalPiece;
    if l == [] {
      ReadQuote(hex, rest);
    } else {
      assert LiteralText(l) + rest == PieceText(l[0]) + (LiteralText(l[1..]) + rest);
      ReadPiece(hex, l[0], LiteralText(l[1..]) + rest);
      ReadLiteral(hex, l[1..], rest);
    }
  }

  // ----- documents

  predicate Legal(doc: Doc)
    decreases doc
  {
    match doc
    case DNull => true
    case DBool(_) => true
    case DNumber(_, digits) => digits != [] && forall i | 0 <= i < |digits| :: IsDigit(digits[i])
    case DString(l) => LegalLiteral(l)
    case DEmptyArray(blank) => Blank(blank)
    case DArray(items) => items != [] && forall s | s in items :: LegalSlot(s)
    case DEmptyObject(blank) => Blank(blank)
    case DObject(members) => members != [] && forall m | m in members :: LegalMember(m)
  }

  predicate LegalSlot(s: Slot)
    decreases s
  {
    Blank(s.before) && Legal(s.doc) && Blank(s.after)
  }

  predicate LegalMember(m: Member)
    decreases m
  {
    Blank(m.before) && LegalLiteral(m.key) && Blank(m.gap) && LegalSlot(m.slot)
  }

  function DocText(doc: Doc): Text
    decreases doc
  {
    match doc
    case DNull => NULL
    case DBool(b) => if b then TRUE else FALSE
    case DNumber(negative, digits) => Signed(negative, digits)
    case DString(l) => [QUOTE] + LiteralText(l)
    case DEmptyArray(blank) => [LBRACKET] + (blank + [RBRACKET])
    case DArray(items) => [LBRACKET] + ItemsText(items)
    case DEmptyObject(blank) => [LBRACE] + (blank + [RBRACE])
    case DObject(members) => [LBRACE] + MembersText(members)
  }

  function SlotText(s: Slot): Text
    decreases s
  {
    s.before + (DocText(s.doc) + s.after)
  }

  function ItemsText(items: seq<Slot>): Text
    decreases items, 1
  {
    if items == [] then [] else SlotText(items[0]) + BehindItem(items)
  }

  /** What comes behind the first item. */
  function BehindItem(items: seq<Slot>): Text
    requires items != []
    decreases items, 0
  {
    if |items| == 1 then [RBRACKET] else [COMMA] + ItemsText(items[1..])
  }

  function MemberText(m: Member): Text
    decreases m
  {
    m.before + ([QUOTE] + (LiteralText(m.key) + (m.gap + ([COLON] + SlotText(m.slot)))))
  }

  function MembersText(members: seq<Member>): Text
    decreases members, 1
  {
    if members == [] then [] else MemberText(members[0]) + BehindMember(members)
  }

  function BehindMember(members: seq<Member>): Text
    requires members != []
    decreases members, 0
  {
    if |members| == 1 then [RBRACE] else [COMMA] + MembersText(members[1..])
  }

  // ----- meaning

  /** Numbers are read modulo 2^64 as signed words; of a repeated key the last member counts. */
  function Meaning(hex: Text -> Unit, doc: Doc): Value
    decreases doc
  {
    match doc
    case DNull => Null
    case DBool(b) => Bool(b)
    case DNumber(negative, digits) =>
      Number(Wrap64(if negative then -(DecimalValue(digits) as int) else DecimalValue(digits)))
    case DString(l) => String(LiteralUnits(hex, l))
    case DEmptyArray(_) => Array([])
    case DArray(items) => Array(ItemsMeaning(hex, items))
    case DEmptyObject(_) => Object(map[])
    case DObject(members) => Object(MembersMeaning(hex, members, map[]))
  }

  function ItemsMeaning(hex: Text -> Unit, items: seq<Slot>): seq<Value>
    decreases items
  {
    if items == [] then [] else [Meaning(hex, items[0].doc)] + ItemsMeaning(hex, items[1..])
  }

  function MembersMeaning(hex: Text -> Unit, members: seq<Member>, fields: map<Text, Value>): map<Text, Value>
    decreases members
  {
    if members == [] then fields
    else
      MembersMeaning(hex, members[1..],
                     fields[LiteralUnits(hex, members[0].key) := Meaning(hex, members[0].slot.doc)])
  }

  // ----- every document reads as it means

  lemma {:induction false} SkipBlank(blank: Text, t: Text)
    requires Blank(blank) && (t == [] || !IsSpace(t[0]))
    ensures SkipSpace(blank + t) == t
  {
    if blank == [] {
      assert blank + t == t;
    } else {
      assert (blank + t)[0] == blank[0] && (blank + t)[1..] == blank[1..] + t;
      SkipBlank(blank[1..], t);
    }
  }

  lemma DocStarts(doc: Doc)
    requires Legal(doc)
    ensures DocText(doc) != [] && !IsSpace(DocText(doc)[0])
  {
  }

  lemma ReadBehindBlank(hex: Text -> Unit, blank: Text, t: Text)
    requires Blank(blank) && (t == [] || !IsSpace(t[0]))
    ensures ReadValue(hex, blank + t) == ReadValue(hex, t)
  {
    hide ReadFields, ReadItems, ReadNumber, StringBody;
    SkipBlank(blank, t);
    SkipBlank([], t);
    assert [] + t == t;
  }

  /** The text after a value does not go on with a digit. */
  predicate Ends(t: Text) {
    t == [] || !IsDigit(t[0])
  }

  lemma {:induction false} CountDigits(digits: Text, rest: Text)
    requires (forall i | 0 <= i < |digits| :: IsDigit(digits[i])) && Ends(rest)
    ensures Digits(digits + rest) == |digits|
  {
    if digits == [] {
      assert digits + rest == rest;
    } else {
      CountDigits(digits[1..], rest);
      assert (digits + rest)[1..] == digits[1..] + rest;
    }
  }

  function Signed(negative: bool, digits: Text): Text {
    if negative then [MINUS] + digits else digits
  }

  lemma ParseDigits(negative: bool, digits: Text)
    requires digits != [] && forall i | 0 <= i < |digits| :: IsDigit(digits[i])
    ensures ParseInt64(Signed(negative, digits)) ==
            Wrap64(if negative then -(DecimalValue(digits) as int) else DecimalValue(digits))
  {
    hide Wrap64, DecimalValue, Digits;
    assert digits + [] == digits && digits[..|digits|] == digits;
    CountDigits(digits, []);
    if negative {
      assert ([MINUS] + digits)[1..] == digits;
    } else {
      assert IsDigit(digits[0]);
    }
  }

  lemma ReadDigits(negative: bool, digits: Text, rest: Text)
    requires digits != [] && (forall i | 0 <= i < |digits| :: IsDigit(digits[i])) && Ends(rest)
    ensures ReadNumber(Signed(negative, digits) + rest) == Ok(Number(ParseInt64(Signed(negative, digits))), rest)
  {
    hide ParseInt64, Digits;
    var (text, t) := (Signed(negative, digits), Signed(negative, digits) + rest);
    var sign := if negative then 1 else 0;
    CountDigits(digits, rest);
    assert IsDigit(digits[0]);
    assert t[0] == text[0] && t[sign..] == digits + rest;
    assert t[..|text|] == text && t[|text|..] == rest;
  }

  lemma ReadWord(hex: Text -> Unit, word: Text, rest: Text)
    requires word == TRUE || word == FALSE || word == NULL
    ensures ReadValue(hex, word + rest) ==
            Ok(if word == TRUE then Bool(true) else if word == FALSE then Bool(false) else Null, rest)
  {
    var t := word + rest;
    assert t[0] == word[0] && t[..|word|] == word && t[|word|..] == rest;
    assert SkipSpace(t) == t;
    assert TRUE[0] == 0x74 && FALSE[0] == 0x66 && NULL[0] == 0x6E;
  }

  lemma ReadNumberDoc(hex: Text -> Unit, doc: Doc, rest: Text)
    requires doc.DNumber? && Legal(doc) && Ends(rest)
    ensures ReadValue(hex, DocText(doc) + rest) == Ok(Meaning(hex, doc), rest)
  {
    hide ReadNumber, Wrap64, DecimalValue, ParseInt64;
    var t := Signed(doc.negative, doc.digits) + rest;
    assert t[0] == if doc.negative then MINUS else doc.digits[0];
    assert SkipSpace(t) == t;
    ReadDigits(doc.negative, doc.digits, rest);
    ParseDigits(doc.negative, doc.digits);
  }

  lemma ReadStringDoc(hex: Text -> Unit, doc: Doc, rest: Text)
    requires doc.DString? && Legal(doc)
    ensures ReadValue(hex, DocText(doc) + rest) == Ok(Meaning(hex, doc), rest)
  {
    hide StringBody, LiteralText, LiteralUnits, LegalLiteral;
    var t := [QUOTE] + LiteralText(doc.literal) + rest;
    assert t[1..] == LiteralText(doc.literal) + rest;
    assert SkipSpace(t) == t;
    ReadLiteral(hex, doc.literal, rest);
  }

  lemma ReadEmpty(hex: Text -> Unit, doc: Doc, rest: Text)
    requires (doc.DEmptyArray? || doc.DEmptyObject?) && Legal(doc)
    ensures ReadValue(hex, DocText(doc) + rest) == Ok(Meaning(hex, doc), rest)
  {
    hide ReadFields, ReadItems, Blank;
    var (open, close) := if doc.DEmptyArray? then (LBRACKET, RBRACKET) else (LBRACE, RBRACE);
    var t := DocText(doc) + rest;
    assert t[0] == open && t[1..] == doc.blank + ([close] + rest);
    assert SkipSpace(t) == t;
    SkipBlank(doc.blank, [close] + rest);
    assert ([close] + rest)[1..] == rest;
  }

  /** Every document reads as its meaning, and reading stops right behind it. */
  lemma {:induction false} ReadDoc(hex: Text -> Unit, doc: Doc, rest: Text)
    requires Legal(doc) && Ends(rest)
    ensures ReadValue(hex, DocText(doc) + rest) == Ok(Meaning(hex, doc), rest)
    decreases doc
  {
    match doc
    case DNull => ReadWord(hex, NULL, rest);
    case DBool(b) => ReadWord(hex, if b then TRUE else FALSE, rest); WordsDiffer();
    case DNumber(_, _) => ReadNumberDoc(hex, doc, rest);
    case DString(_) => ReadStringDoc(hex, doc, rest);
    case DEmptyArray(_) => ReadEmpty(hex, doc, rest);
    case DEmptyObject(_) => ReadEmpty(hex, doc, rest);
    case DArray(items) =>
      ReadItemsDoc(hex, items, [], rest);
      assert [] + ItemsMeaning(hex, items) == ItemsMeaning(hex, items);
      OpenArray(hex, items, rest);
    case DObject(members) =>
      ReadMembersDoc(hex, members, map[], rest);
      OpenObject(hex, members, rest);
  }

  lemma WordsDiffer()
    ensures TRUE != FALSE && TRUE != NULL && FALSE != NULL
  {
    assert TRUE[0] != FALSE[0] && TRUE[0] != NULL[0] && FALSE[0] != NULL[0];
  }

  /** Inside a bracket the reader goes on with the first item, which does not start with a closing bracket. */
  lemma OpenArray(hex: Text -> Unit, items: seq<Slot>, rest: Text)
    requires items != [] && LegalSlot(items[0])
    ensures ReadValue(hex, [LBRACKET] + ItemsText(items) + rest) == ReadItems(hex, ItemsText(items) + rest, [])
  {
    hide ReadFields, ReadItems, SlotText, Blank, Legal, DocText, ItemsText, Meaning, ItemsMeaning;
    var inner := ItemsText(items) + rest;
    ItemsSplit(items, rest);
    SlotStarts(items[0], BehindItem(items) + rest);
    ItemsBehindBlank(hex, inner, []);
    assert [LBRACKET] + ItemsText(items) + rest == [LBRACKET] + inner;
    BracketOpens(hex, inner);
  }

  lemma BracketOpens(hex: Text -> Unit, inner: Text)
    requires SkipSpace(inner) != [] && SkipSpace(inner)[0] != RBRACKET
    ensures ReadValue(hex, [LBRACKET] + inner) == ReadItems(hex, SkipSpace(inner), [])
  {
    hide ReadFields, ReadItems;
    var t := [LBRACKET] + inner;
    assert t[0] == LBRACKET && t[1..] == inner;
    assert SkipSpace(t) == t;
  }

  lemma OpenObject(hex: Text -> Unit, members: seq<Member>, rest: Text)
    requires members != [] && LegalMember(members[0])
    ensures ReadValue(hex, [LBRACE] + MembersText(members) + rest) ==
            ReadFields(hex, MembersText(members) + rest, map[])
  {
    hide ReadFields, ReadItems, SlotText, Blank, LiteralText, LegalLiteral, LegalSlot, BehindMember;
    var t := [LBRACE] + MembersText(members) + rest;
    var inner := MembersText(members) + rest;
    assert t[0] == LBRACE && t[1..] == inner;
    assert SkipSpace(t) == t;
    var m := members[0];
    var tail :=
      [QUOTE] + (LiteralText(m.key) + (m.gap + ([COLON] + SlotText(m.slot)))) + (BehindMember(members) + rest);
    var quoted := [QUOTE] + (LiteralText(m.key) + (m.gap + ([COLON] + SlotText(m.slot))));
    Regroup(MemberText(m), BehindMember(members), rest);
    Regroup(m.before, quoted, BehindMember(members) + rest);
    assert inner == m.before + tail;
    SkipBlank(m.before, tail);
    FieldsBehindBlank(hex, inner, map[]);
  }

  /** A slot starts, behind its white space, with its value, which is no closing bracket. */
  lemma SlotStarts(s: Slot, tail: Text)
    requires LegalSlot(s)
    ensures var t := SkipSpace(SlotText(s) + tail);
            t != [] && t[0] != RBRACKET && t == DocText(s.doc) + (s.after + tail)
  {
    hide Blank, DocText, Legal;
    var t := DocText(s.doc) + (s.after + tail);
    DocStarts(s.doc);
    DocOpens(s.doc);
    assert SlotText(s) + tail == s.before + t;
    SkipBlank(s.before, t);
  }

  lemma DocOpens(doc: Doc)
    requires Legal(doc)
    ensures DocText(doc) != [] && DocText(doc)[0] != RBRACKET
  {
  }

  lemma SkipTwice(t: Text)
    ensures SkipSpace(SkipSpace(t)) == SkipSpace(t)
  {
  }

  lemma ItemsBehindBlank(hex: Text -> Unit, t: Text, items: seq<Value>)
    ensures ReadItems(hex, SkipSpace(t), items) == ReadItems(hex, t, items)
  {
    hide SkipSpace, ReadFields, ReadNumber, StringBody;
    SkipTwice(t);
    ValueBehindBlank(hex, t);
  }

  lemma ValueBehindBlank(hex: Text -> Unit, t: Text)
    ensures ReadValue(hex, SkipSpace(t)) == ReadValue(hex, t)
  {
    hide SkipSpace, ReadFields, ReadItems, ReadNumber, StringBody;
    SkipTwice(t);
  }

  lemma FieldsBehindBlank(hex: Text -> Unit, t: Text, fields: map<Text, Value>)
    ensures ReadFields(hex, SkipSpace(t), fields) == ReadFields(hex, t, fields)
  {
    hide SkipSpace, ReadValue;
    SkipTwice(t);
  }

  /** A slot reads as its value; what is left is its white space and the text behind. */
  lemma {:induction false} ReadSlot(hex: Text -> Unit, s: Slot, tail: Text)
    requires LegalSlot(s) && tail != [] && !IsSpace(tail[0]) && !IsDigit(tail[0])
    ensures ReadValue(hex, SlotText(s) + tail) == Ok(Meaning(hex, s.doc), s.after + tail)
    ensures SkipSpace(s.after + tail) == tail
    decreases s
  {
    hide ReadValue, DocText, Meaning;
    assert s.after != [] ==> IsSpace(s.after[0]);
    SkipBlank(s.after, tail);
    SlotStarts(s, tail);
    ValueBehindBlank(hex, SlotText(s) + tail);
    ReadDoc(hex, s.doc, s.after + tail);
  }

  lemma {:induction false} ReadItemsDoc(hex: Text -> Unit, items: seq<Slot>, read: seq<Value>, rest: Text)
    requires items != [] && forall s | s in items :: LegalSlot(s)
    ensures ReadItems(hex, ItemsText(items) + rest, read) == Ok(Array(read + ItemsMeaning(hex, items)), rest)
    decreases items
  {
    hide ReadValue, ReadItems, SlotText, Meaning, LegalSlot, ItemsText, ItemsMeaning;
    var (s, v, tail) := (items[0], Meaning(hex, items[0].doc), BehindItem(items) + rest);
    assert items[0] in items;
    ItemsSplit(items, rest);
    ItemsMean(hex, items, read);
    BehindItemEnds(items, rest);
    ReadSlot(hex, s, tail);
    ReadItem(hex, SlotText(s) + tail, read, v, s.after + tail, tail);
    if |items| > 1 { ReadItemsDoc(hex, items[1..], read + [v], rest); }
  }

  lemma BehindItemEnds(items: seq<Slot>, rest: Text)
    requires items != []
    ensures var tail := BehindItem(items) + rest;
            && tail != [] && tail[0] == (if |items| == 1 then RBRACKET else COMMA)
            && tail[1..] == (if |items| == 1 then rest else ItemsText(items[1..]) + rest)
  {
    hide ItemsText;
    var tail := BehindItem(items) + rest;
    assert tail[1..] == (if |items| == 1 then rest else ItemsText(items[1..]) + rest);
  }

  lemma ItemsSplit(items: seq<Slot>, rest: Text)
    requires items != []
    ensures ItemsText(items) + rest == SlotText(items[0]) + (BehindItem(items) + rest)
  {
    hide SlotText, BehindItem;
    Regroup(SlotText(items[0]), BehindItem(items), rest);
  }

  lemma Regroup(x: Text, y: Text, z: Text)
    ensures x + y + z == x + (y + z)
  {
  }

  lemma ItemsMean(hex: Text -> Unit, items: seq<Slot>, read: seq<Value>)
    requires items != []
    ensures var v := Meaning(hex, items[0].doc);
            read + ItemsMeaning(hex, items) ==
            if |items| == 1 then read + [v] else read + [v] + ItemsMeaning(hex, items[1..])
  {
    hide Meaning;
    var (v, others) := (Meaning(hex, items[0].doc), ItemsMeaning(hex, items[1..]));
    assert ItemsMeaning(hex, items) == [v] + others;
    assert read + ([v] + others) == read + [v] + others;
    if |items| == 1 { assert others == []; }
  }

  /** One turn of the item loop. */
  lemma ReadItem(hex: Text -> Unit, t: Text, read: seq<Value>, v: Value, left: Text, next: Text)
    requires ReadValue(hex, t) == Ok(v, left) && SkipSpace(left) == next && next != []
    requires next[0] == RBRACKET || next[0] == COMMA
    ensures ReadItems(hex, t, read) ==
            if next[0] == RBRACKET then Ok(Array(read + [v]), next[1..]) else ReadItems(hex, next[1..], read + [v])
  {
    hide ReadValue, SkipSpace;
  }

  /** The key of a member and the colon behind it. */
  lemma ReadMemberKey(hex: Text -> Unit, m: Member, tail: Text)
    requires LegalMember(m)
    ensures ReadKey(hex, MemberText(m) + tail) == Ok(LiteralUnits(hex, m.key), SlotText(m.slot) + tail)
  {
    hide StringBody, LiteralText, LiteralUnits, LegalLiteral, LegalSlot, SlotText, Blank;
    var colon := [COLON] + (SlotText(m.slot) + tail);
    var quoted := [QUOTE] + (LiteralText(m.key) + (m.gap + colon));
    assert MemberText(m) + tail == m.before + quoted;
    SkipBlank(m.before, quoted);
    assert quoted[1..] == LiteralText(m.key) + (m.gap + colon);
    ReadLiteral(hex, m.key, m.gap + colon);
    SkipBlank(m.gap, colon);
    assert colon[1..] == SlotText(m.slot) + tail;
  }

  lemma {:induction false} ReadMembersDoc(hex: Text -> Unit, members: seq<Member>, fields: map<Text, Value>, rest: Text)
    requires members != [] && forall m | m in members :: LegalMember(m)
    ensures ReadFields(hex, MembersText(members) + rest, fields) ==
            Ok(Object(MembersMeaning(hex, members, fields)), rest)
    decreases members
  {
    hide ReadValue, ReadKey, ReadFields, SlotText, Meaning, MemberText, LiteralUnits, MembersText, MembersMeaning;
    var (m, tail) := (members[0], BehindMember(members) + rest);
    assert members[0] in members;
    var more := fields[LiteralUnits(hex, m.key) := Meaning(hex, m.slot.doc)];
    MembersSplit(hex, members, fields, rest);
    BehindMemberEnds(members, rest);
    ReadMemberKey(hex, m, tail);
    ReadSlot(hex, m.slot, tail);
    ReadOneMember(hex, MemberText(m) + tail, fields, LiteralUnits(hex, m.key), SlotText(m.slot) + tail,
                  Meaning(hex, m.slot.doc), m.slot.after + tail, tail);
    if |members| > 1 { ReadMembersDoc(hex, members[1..], more, rest); }
  }

  lemma MembersSplit(hex: Text -> Unit, members: seq<Member>, fields: map<Text, Value>, rest: Text)
    requires members != []
    ensures MembersText(members) + rest == MemberText(members[0]) + (BehindMember(members) + rest)
    ensures var more := fields[LiteralUnits(hex, members[0].key) := Meaning(hex, members[0].slot.doc)];
            MembersMeaning(hex, members, fields) ==
            if |members| == 1 then more else MembersMeaning(hex, members[1..], more)
  {
    hide MemberText, BehindMember, LiteralUnits, Meaning;
    Regroup(MemberText(members[0]), BehindMember(members), rest);
  }

  lemma BehindMemberEnds(members: seq<Member>, rest: Text)
    requires members != []
    ensures var tail := BehindMember(members) + rest;
            && tail != [] && tail[0] == (if |members| == 1 then RBRACE else COMMA)
            && tail[1..] == (if |members| == 1 then rest else MembersText(members[1..]) + rest)
  {
    hide MembersText;
    var tail := BehindMember(members) + rest;
    assert tail[1..] == (if |members| == 1 then rest else MembersText(members[1..]) + rest);
  }

  /** One turn of the member loop. */
  lemma ReadOneMember(hex: Text -> Unit, t: Text, fields: map<Text, Value>, key: Text, text: Text, v: Value, left: Text,
                      next: Text)
    requires ReadKey(hex, t) == Ok(key, text) && ReadValue(hex, text) == Ok(v, left) && SkipSpace(left) == next
    requires next != [] && (next[0] == RBRACE || next[0] == COMMA)
    ensures ReadFields(hex, t, fields) ==
            if next[0] == RBRACE then Ok(Object(fields[key := v]), next[1..])
            else ReadFields(hex, next[1..], fields[key := v])
  {
    hide ReadValue, SkipSpace, ReadKey;
  }

  /** A document with white space around it parses to its meaning. */
  lemma ParseDoc(hex: Text -> Unit, s: Slot)
    requires LegalSlot(s)
    ensures Parse(hex, SlotText(s)) == Some(Meaning(hex, s.doc))
  {
    hide ReadValue, DocText, Meaning, Legal;
    assert SlotText(s) + [] == SlotText(s) && s.after + [] == s.after;
    SlotStarts(s, []);
    ValueBehindBlank(hex, SlotText(s));
    assert s.after != [] ==> IsSpace(s.after[0]);
    ReadDoc(hex, s.doc, s.after);
    SkipBlank(s.after, []);
  }

  // ----- and nothing but documents is read

  lemma {:induction false} FindBlank(t: Text) returns (blank: Text)
    ensures Blank(blank) && t == blank + SkipSpace(t)
  {
    blank := [];
    if t != [] && IsSpace(t[0]) {
      var more := FindBlank(t[1..]);
      blank := [t[0]] + more;
      assert t == [t[0]] + t[1..];
    }
  }

  /** What the reader takes for one unit of a string is a legal piece. */
  lemma FindPiece(hex: Text -> Unit, t: Text) returns (p: Piece, tail: Text)
    requires StringBody(hex, t).Ok? && t[0] != QUOTE
    ensures LegalPiece(p) && t == PieceText(p) + tail && |tail| < |t|
  {
    if t[0] != BACKSLASH {
      p, tail := Raw(t[0]), t[1..];
    } else if t[1] == 0x75 {
      p, tail := Long(t[2..6]), t[6..];
      assert t == [t[0], t[1]] + t[2..6] + t[6..];
    } else {
      p, tail := Short(Unescaped(t[1]).value), t[2..];
      assert t == [t[0], t[1]] + t[2..];
    }
  }

  lemma {:induction false} FindLiteral(hex: Text -> Unit, t: Text) returns (l: Literal)
    requires StringBody(hex, t).Ok?
    ensures LegalLiteral(l) && t == LiteralText(l) + StringBody(hex, t).rest &&
            StringBody(hex, t).value == LiteralUnits(hex, l)
    decreases |t|
  {
    hide PieceText, PieceUnit, LegalPiece;
    StringNonempty(hex, t);
    if t[0] == QUOTE {
      l := [];
      QuoteReads(hex, t);
    } else {
      var p, tail := FindPiece(hex, t);
      ReadPiece(hex, p, tail);
      ConsOk([PieceUnit(hex, p)], StringBody(hex, tail));
      var more := FindLiteral(hex, tail);
      l := [p] + more;
      assert l[1..] == more;
      Regroup(PieceText(p), LiteralText(more), StringBody(hex, tail).rest);
    }
  }

  lemma StringNonempty(hex: Text -> Unit, t: Text)
    requires StringBody(hex, t).Ok?
    ensures t != []
  {
  }

  lemma QuoteReads(hex: Text -> Unit, t: Text)
    requires t != [] && t[0] == QUOTE
    ensures StringBody(hex, t) == Ok([], t[1..]) && t == [QUOTE] + t[1..]
  {
  }

  lemma ConsOk(head: Text, r: Read<Text>)
    ensures Cons(head, r).Ok? <==> r.Ok?
    ensures r.Ok? ==> Cons(head, r) == Ok(head + r.value, r.rest)
  {
  }

  /** A number that is read is a sign and digits. */
  lemma FindNumber(t: Text) returns (doc: Doc)
    requires ReadNumber(t).Ok?
    ensures doc.DNumber? && Legal(doc) && t == DocText(doc) + ReadNumber(t).rest
    ensures ReadNumber(t).value == Number(ParseInt64(DocText(doc)))
  {
    hide ParseInt64, Digits;
    var negative := t != [] && t[0] == MINUS;
    var sign := if negative then 1 else 0;
    DigitsBound(t[sign..]);
    var digits := t[sign..][..Digits(t[sign..])];
    doc := DNumber(negative, digits);
    assert t[..sign + |digits|] == Signed(negative, digits);
    assert t == t[..sign + |digits|] + t[sign + |digits|..];
  }

  /** The values that are no array and no object. */
  lemma FindScalar(hex: Text -> Unit, t: Text) returns (doc: Doc)
    requires ReadValue(hex, t).Ok? && SkipSpace(t) == t && t != [] && t[0] != LBRACE && t[0] != LBRACKET
    ensures Legal(doc) && t == DocText(doc) + ReadValue(hex, t).rest && ReadValue(hex, t).value == Meaning(hex, doc)
  {
    hide StringBody, LiteralText, LiteralUnits, LegalLiteral, ReadNumber, ParseInt64;
    if t[0] == QUOTE {
      var l := FindLiteral(hex, t[1..]);
      doc := DString(l);
      assert t == [QUOTE] + t[1..];
    } else if t[0] == 0x74 || t[0] == 0x66 {
      doc := DBool(StartsWith(t, TRUE));
      assert t == t[..4] + t[4..];
      assert !StartsWith(t, TRUE) ==> t == t[..5] + t[5..];
    } else if t[0] == 0x6E {
      doc := DNull;
      assert t == t[..4] + t[4..];
    } else {
      doc := FindNumber(t);
      ParseDigits(doc.negative, doc.digits);
    }
  }

  lemma EmptyBrackets(hex: Text -> Unit, t: Text, blank: Text) returns (doc: Doc)
    requires t != [] && (t[0] == LBRACE || t[0] == LBRACKET) && Blank(blank)
    requires var inner := SkipSpace(t[1..]);
             && t[1..] == blank + inner && inner != []
             && inner[0] == (if t[0] == LBRACE then RBRACE else RBRACKET)
    ensures ReadValue(hex, t).Ok?
    ensures Legal(doc) && t == DocText(doc) + ReadValue(hex, t).rest && ReadValue(hex, t).value == Meaning(hex, doc)
  {
    hide ReadFields, ReadItems, Blank, ReadValue, SkipSpace;
    var inner := SkipSpace(t[1..]);
    doc := if t[0] == LBRACE then DEmptyObject(blank) else DEmptyArray(blank);
    EmptyReads(hex, t);
    assert t == [t[0]] + t[1..] && inner == [inner[0]] + inner[1..];
    Regroup(blank, [inner[0]], inner[1..]);
    Regroup([t[0]], blank + [inner[0]], inner[1..]);
  }

  lemma EmptyReads(hex: Text -> Unit, t: Text)
    requires t != [] && (t[0] == LBRACE || t[0] == LBRACKET)
    requires var inner := SkipSpace(t[1..]); inner != [] && inner[0] == (if t[0] == LBRACE then RBRACE else RBRACKET)
    ensures ReadValue(hex, t) == Ok(if t[0] == LBRACE then Object(map[]) else Array([]), SkipSpace(t[1..])[1..])
  {
    hide ReadFields, ReadItems;
    assert SkipSpace(t) == t;
  }

  /** Whatever is read, the text before the rest is white space and a document, and the value is its meaning. */
  lemma {:induction false} FindDoc(hex: Text -> Unit, text: Text) returns (before: Text, doc: Doc)
    requires ReadValue(hex, text).Ok?
    ensures Blank(before) && Legal(doc)
    ensures text == before + (DocText(doc) + ReadValue(hex, text).rest)
    ensures ReadValue(hex, text).value == Meaning(hex, doc)
    decreases |text|, 1
  {
    hide DocText, Meaning, Legal, Blank, ReadFields, ReadItems;
    var t := SkipSpace(text);
    before := FindBlank(text);
    ValueBehindBlank(hex, text);
    SkipTwice(text);
    ValueNonempty(hex, t);
    if t[0] == LBRACE || t[0] == LBRACKET {
      var blank := FindBlank(t[1..]);
      var inner := SkipSpace(t[1..]);
      if inner != [] && inner[0] == (if t[0] == LBRACE then RBRACE else RBRACKET) {
        doc := EmptyBrackets(hex, t, blank);
      } else {
        doc := FindInside(hex, t);
      }
    } else {
      doc := FindScalar(hex, t);
    }
  }

  lemma ValueNonempty(hex: Text -> Unit, t: Text)
    requires ReadValue(hex, t).Ok?
    ensures SkipSpace(t) != []
  {
    hide ReadFields, ReadItems;
  }

  lemma {:induction false} FindInside(hex: Text -> Unit, t: Text) returns (doc: Doc)
    requires ReadValue(hex, t).Ok? && t != [] && (t[0] == LBRACE || t[0] == LBRACKET)
    requires var inner := SkipSpace(t[1..]); inner == [] || inner[0] != (if t[0] == LBRACE then RBRACE else RBRACKET)
    ensures Legal(doc) && t == DocText(doc) + ReadValue(hex, t).rest && ReadValue(hex, t).value == Meaning(hex, doc)
    decreases |t|, 0
  {
    hide ReadFields, ReadItems, ItemsText, MembersText, ItemsMeaning, MembersMeaning, LegalSlot, LegalMember, Blank;
    assert SkipSpace(t) == t;
    assert t == [t[0]] + t[1..];
    if t[0] == LBRACE {
      FieldsBehindBlank(hex, t[1..], map[]);
      var members := FindMembers(hex, t[1..], map[]);
      doc := DObject(members);
    } else {
      ItemsBehindBlank(hex, t[1..], []);
      var items := FindItems(hex, t[1..], []);
      assert [] + ItemsMeaning(hex, items) == ItemsMeaning(hex, items);
      doc := DArray(items);
    }
  }

  lemma {:induction false} FindItems(hex: Text -> Unit, text: Text, read: seq<Value>) returns (items: seq<Slot>)
    requires ReadItems(hex, text, read).Ok?
    ensures items != [] && forall s | s in items :: LegalSlot(s)
    ensures text == ItemsText(items) + ReadItems(hex, text, read).rest
    ensures ReadItems(hex, text, read).value == Array(read + ItemsMeaning(hex, items))
    decreases |text|, 2
  {
    hide ReadValue, DocText, Meaning, Legal, Blank, ReadItems, ItemsText, ItemsMeaning, SlotText;
    var left, next := ItemRead(hex, text, read);
    var before, doc := FindDoc(hex, text);
    var after := FindBlank(left);
    var slot := Slot(before, doc, after);
    SlotIs(slot, text, left, next);
    var more: seq<Slot> := [];
    if next[0] == COMMA { more := FindItems(hex, next[1..], read + [Meaning(hex, doc)]); }
    items := [slot] + more;
    assert items[1..] == more && |items| == 1 + |more|;
    assert forall s | s in items :: s == slot || s in more;
    var rest := ReadItems(hex, text, read).rest;
    ItemsSplit(items, rest);
    ItemsMean(hex, items, read);
    BehindItemIs(items, next, rest);
  }

  lemma ItemRead(hex: Text -> Unit, text: Text, read: seq<Value>) returns (left: Text, next: Text)
    requires ReadItems(hex, text, read).Ok?
    ensures ReadValue(hex, text).Ok? && left == ReadValue(hex, text).rest && next == SkipSpace(left) && next != []
    ensures next[0] == RBRACKET || next[0] == COMMA
    ensures ReadItems(hex, text, read) ==
            if next[0] == RBRACKET then Ok(Array(read + [ReadValue(hex, text).value]), next[1..])
            else ReadItems(hex, next[1..], read + [ReadValue(hex, text).value])
    ensures |next| < |text|
  {
    hide ReadValue, SkipSpace;
    left := ReadValue(hex, text).rest;
    next := SkipSpace(left);
  }

  lemma SlotIs(s: Slot, text: Text, left: Text, next: Text)
    requires text == s.before + (DocText(s.doc) + left) && left == s.after + next
    ensures text == SlotText(s) + next
  {
    hide DocText;
    Regroup(DocText(s.doc), s.after, next);
    Regroup(s.before, DocText(s.doc) + s.after, next);
  }

  lemma BehindItemIs(items: seq<Slot>, next: Text, rest: Text)
    requires items != [] && next != []
    requires if |items| == 1 then next[0] == RBRACKET && next[1..] == rest
             else next[0] == COMMA && next[1..] == ItemsText(items[1..]) + rest
    ensures BehindItem(items) + rest == next
  {
    hide ItemsText;
    assert next == [next[0]] + next[1..];
  }

  lemma FindKey(hex: Text -> Unit, text: Text) returns (before: Text, key: Literal, gap: Text)
    requires ReadKey(hex, text).Ok?
    ensures Blank(before) && LegalLiteral(key) && Blank(gap)
    ensures text == before + ([QUOTE] + (LiteralText(key) + (gap + ([COLON] + ReadKey(hex, text).rest))))
    ensures ReadKey(hex, text).value == LiteralUnits(hex, key)
  {
    hide StringBody, LiteralText, LiteralUnits, LegalLiteral, Blank, SkipSpace, ReadKey;
    KeyRead(hex, text);
    var t := SkipSpace(text);
    before := FindBlank(text);
    key := FindLiteral(hex, t[1..]);
    gap := FindBlank(StringBody(hex, t[1..]).rest);
  }

  lemma KeyRead(hex: Text -> Unit, text: Text)
    requires ReadKey(hex, text).Ok?
    ensures var t := SkipSpace(text);
            && t != [] && t == [QUOTE] + t[1..] && StringBody(hex, t[1..]).Ok?
            && ReadKey(hex, text).value == StringBody(hex, t[1..]).value
            && SkipSpace(StringBody(hex, t[1..]).rest) == [COLON] + ReadKey(hex, text).rest
  {
    hide StringBody, SkipSpace;
    var t := SkipSpace(text);
    var colon := SkipSpace(StringBody(hex, t[1..]).rest);
    assert t == [t[0]] + t[1..] && colon == [colon[0]] + colon[1..];
  }

  lemma {:induction false} FindMembers(hex: Text -> Unit, text: Text, fields: map<Text, Value>)
    returns (members: seq<Member>)
    requires ReadFields(hex, text, fields).Ok?
    ensures members != [] && forall m | m in members :: LegalMember(m)
    ensures text == MembersText(members) + ReadFields(hex, text, fields).rest
    ensures ReadFields(hex, text, fields).value == Object(MembersMeaning(hex, members, fields))
    decreases |text|, 0
  {
    hide ReadValue, ReadKey, DocText, Meaning, Legal, Blank, LegalLiteral, ReadFields, MembersText, MembersMeaning,
         SlotText, MemberText, LiteralUnits;
    var inside, left, next := MemberRead(hex, text, fields);
    var before, key, gap := FindKey(hex, text);
    var inner, doc := FindDoc(hex, inside);
    var after := FindBlank(left);
    var m := Member(before, key, gap, Slot(inner, doc, after));
    SlotIs(m.slot, inside, left, next);
    MemberIs(m, text, inside, next);
    var more: seq<Member> := [];
    if next[0] == COMMA { more := FindMembers(hex, next[1..], fields[LiteralUnits(hex, key) := Meaning(hex, doc)]); }
    members := [m] + more;
    assert members[1..] == more && |members| == 1 + |more|;
    assert forall x | x in members :: x == m || x in more;
    var rest := ReadFields(hex, text, fields).rest;
    MembersSplit(hex, members, fields, rest);
    BehindMemberIs(members, next, rest);
  }

  lemma MemberRead(hex: Text -> Unit, text: Text, fields: map<Text, Value>)
    returns (inside: Text, left: Text, next: Text)
    requires ReadFields(hex, text, fields).Ok?
    ensures ReadKey(hex, text).Ok? && inside == ReadKey(hex, text).rest && |inside| < |text|
    ensures ReadValue(hex, inside).Ok? && left == ReadValue(hex, inside).rest && next == SkipSpace(left) && next != []
    ensures next[0] == RBRACE || next[0] == COMMA
    ensures var more := fields[ReadKey(hex, text).value := ReadValue(hex, inside).value];
            ReadFields(hex, text, fields) ==
            if next[0] == RBRACE then Ok(Object(more), next[1..]) else ReadFields(hex, next[1..], more)
    ensures |next| < |text|
  {
    hide ReadValue, ReadKey, SkipSpace;
    inside := ReadKey(hex, text).rest;
    left := ReadValue(hex, inside).rest;
    next := SkipSpace(left);
  }

  lemma MemberIs(m: Member, text: Text, inside: Text, next: Text)
    requires text == m.before + ([QUOTE] + (LiteralText(m.key) + (m.gap + ([COLON] + inside))))
    requires inside == SlotText(m.slot) + next
    ensures text == MemberText(m) + next
  {
    hide LiteralText, SlotText;
    var colon := [COLON] + SlotText(m.slot);
    Regroup([COLON], SlotText(m.slot), next);
    Regroup(m.gap, colon, next);
    Regroup(LiteralText(m.key), m.gap + colon, next);
    Regroup([QUOTE], LiteralText(m.key) + (m.gap + colon), next);
    Regroup(m.before, [QUOTE] + (LiteralText(m.key) + (m.gap + colon)), next);
  }

  lemma BehindMemberIs(members: seq<Member>, next: Text, rest: Text)
    requires members != [] && next != []
    requires if |members| == 1 then next[0] == RBRACE && next[1..] == rest
             else next[0] == COMMA && next[1..] == MembersText(members[1..]) + rest
    ensures BehindMember(members) + rest == next
  {
    hide MembersText;
    assert next == [next[0]] + next[1..];
  }

  /** A text parses to a value exactly when it is a document of that meaning with white space around it. */
  lemma ParseIff(hex: Text -> Unit, text: Text, v: Value)
    ensures Parse(hex, text) == Some(v) <==>
            exists s: Slot :: LegalSlot(s) && SlotText(s) == text && Meaning(hex, s.doc) == v
  {
    hide ReadValue, Meaning, DocText, Legal, Blank, SlotText;
    forall s: Slot | LegalSlot(s) && SlotText(s) == text && Meaning(hex, s.doc) == v
      ensures Parse(hex, text) == Some(v)
    {
      ParseDoc(hex, s);
    }
    if Parse(hex, text) == Some(v) {
      var before, doc := FindDoc(hex, text);
      var rest := ReadValue(hex, text).rest;
      var after := FindBlank(rest);
      var s := Slot(before, doc, after);
      assert after + [] == after;
      SlotIs(s, text, rest, []);
      assert SlotText(s) + [] == SlotText(s);
      assert LegalSlot(s) && SlotText(s) == text && Meaning(hex, s.doc) == v;
    }
  }
}
