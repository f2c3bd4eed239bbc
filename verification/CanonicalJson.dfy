/** The canonical JSON text that confirmation tokens are bound to. */
module CanonicalJson {
  import opened Prelude
  import opened JsText

  /** A JavaScript value. `Unsupported` stands for undefined, functions and the like; object keys are in insertion order. */
  datatype Json =
    | Null
    | Bool(value: bool)
    | Number(number: int)
    | NotFinite
    | Str(text: Text)
    | Array(items: seq<Json>)
    | Object(members: seq<Member>)
    | Unsupported

  datatype Member = Member(key: Text, value: Json)

  // ---- characters ----

  const QUOTE: CodeUnit := 34
  const COMMA: CodeUnit := 44
  const MINUS: CodeUnit := 45
  const ZERO: CodeUnit := 48
  const COLON: CodeUnit := 58
  const OPEN_BRACKET: CodeUnit := 91
  const BACKSLASH: CodeUnit := 92
  const CLOSE_BRACKET: CodeUnit := 93
  const LETTER_U: CodeUnit := 117
  const OPEN_BRACE: CodeUnit := 123
  const CLOSE_BRACE: CodeUnit := 125

  const NULL_TEXT: Text := [110, 117, 108, 108]
  const TRUE_TEXT: Text := [116, 114, 117, 101]
  const FALSE_TEXT: Text := [102, 97, 108, 115, 101]

  predicate IsDigit(c: CodeUnit) {
    ZERO <= c < ZERO + 10
  }

  // ---- JSON.stringify of a string ----

  predicate IsHigh(c: CodeUnit) { 0xD800 <= c < 0xDC00 }

  predicate IsLow(c: CodeUnit) { 0xDC00 <= c < 0xE000 }

  function HexDigit(n: nat): CodeUnit
    requires n < 16
  {
    if n < 10 then ZERO + n else 87 + n
  }

  function Hex(c: CodeUnit): Text {
    [HexDigit(c / 4096), HexDigit(c / 256 % 16), HexDigit(c / 16 % 16), HexDigit(c % 16)]
  }

  /** The letter of a two-character escape, if the unit has one. */
  function ShortEscape(c: CodeUnit): Option<CodeUnit> {
    if c == QUOTE || c == BACKSLASH then Some(c)
    else if c == 8 then Some(98)
    else if c == 9 then Some(116)
    else if c == 10 then Some(110)
    else if c == 12 then Some(102)
    else if c == 13 then Some(114)
    else None
  }

  /** One unit that is not half of a surrogate pair. */
  function EscapeUnit(c: CodeUnit): Text {
    if ShortEscape(c).Some? then [BACKSLASH, ShortEscape(c).value]
    else if c < 32 || IsHigh(c) || IsLow(c) then [BACKSLASH, LETTER_U] + Hex(c)
    else [c]
  }

  function Escape(s: Text): Text {
    if s == [] then []
    else if |s| >= 2 && IsHigh(s[0]) && IsLow(s[1]) then s[..2] + Escape(s[2..])
    else EscapeUnit(s[0]) + Escape(s[1..])
  }

  function Quoted(s: Text): Text {
    [QUOTE] + Escape(s) + [QUOTE]
  }

  // ---- numbers ----

  function Decimal(n: nat): Text {
    if n < 10 then [ZERO + n] else Decimal(n / 10) + [ZERO + n % 10]
  }

  function Integer(n: int): Text {
    if n < 0 then [MINUS] + Decimal(-n) else Decimal(n)
  }

  // ---- canonicalize ----

  function Keys(members: seq<Member>): (keys: seq<Text>)
    ensures |keys| == |members| && forall i :: 0 <= i < |members| ==> keys[i] == members[i].key
  {
    seq(|members|, i requires 0 <= i < |members| => members[i].key)
  }

  function IndexOf(members: seq<Member>, key: Text): (i: nat)
    requires key in Keys(members)
    ensures i < |members| && members[i].key == key
  {
    if members[0].key == key then 0 else
    assert Keys(members)[1..] == Keys(members[1..]);
    1 + IndexOf(members[1..], key)
  }

  function Joined(parts: seq<Text>): Text {
    if parts == [] then [] else if |parts| == 1 then parts[0] else parts[0] + [COMMA] + Joined(parts[1..])
  }

  /** Whether `canonicalize` returns a text; on every other value it throws `confirmation_payload_invalid`. */
  predicate Printable(v: Json) {
    match v
    case NotFinite => false
    case Unsupported => false
    case Array(items) => forall i :: 0 <= i < |items| ==> Printable(items[i])
    case Object(members) => forall i :: 0 <= i < |members| ==> Printable(members[i].value)
    case _ => true
  }

  function Render(v: Json): Text
    decreases v, 1
  {
    match v
    case Null => NULL_TEXT
    case Bool(value) => if value then TRUE_TEXT else FALSE_TEXT
    case Number(number) => Integer(number)
    case Str(text) => Quoted(text)
    case Array(items) => [OPEN_BRACKET] + Joined(ItemTexts(items)) + [CLOSE_BRACKET]
    case Object(members) =>
      SortElements(Keys(members));
      [OPEN_BRACE] + Joined(MemberTexts(members, Sort(Keys(members)))) + [CLOSE_BRACE]
    case NotFinite => []
    case Unsupported => []
  }

  function ItemTexts(items: seq<Json>): (parts: seq<Text>)
    ensures |parts| == |items|
    decreases items, 0
  {
    seq(|items|, i requires 0 <= i < |items| => Render(items[i]))
  }

  function MemberTexts(members: seq<Member>, keys: seq<Text>): (parts: seq<Text>)
    requires forall key :: key in keys ==> key in Keys(members)
    ensures |parts| == |keys|
    decreases members, 0
  {
    seq(|keys|, i requires 0 <= i < |keys| => Quoted(keys[i]) + [COLON] + Render(members[IndexOf(members, keys[i])].value))
  }

  function Canonicalize(v: Json): Result<Text> {
    if Printable(v) then Ok(Render(v)) else Err("confirmation_payload_invalid")
  }

  lemma SortElements(keys: seq<Text>)
    ensures forall key :: key in Sort(keys) <==> key in keys
  {
    SortSorts(keys);
    assert forall key :: key in Sort(keys) <==> key in multiset(Sort(keys));
    assert forall key :: key in keys <==> key in multiset(keys);
  }
}
