/** A parser that undoes the canonical printer, and what that says about canonical texts. */
module CanonicalRoundTrip {
  import opened Prelude
  import opened JsText
  import opened CanonicalJson

  // ---- values up to key order ----

  /** A JavaScript object has each key once. */
  ghost predicate WellFormed(v: Json) {
    match v
    case Array(items) => forall i :: 0 <= i < |items| ==> WellFormed(items[i])
    case Object(members) => NoDup(Keys(members)) && forall i :: 0 <= i < |members| ==> WellFormed(members[i].value)
    case _ => true
  }

  /** The same JSON value, whatever the order of object keys. */
  ghost predicate Same(a: Json, b: Json) {
    match a
    case Array(items) =>
      b.Array? && |items| == |b.items| && forall i :: 0 <= i < |items| ==> Same(items[i], b.items[i])
    case Object(members) =>
      b.Object? && Elements(Keys(members)) == Elements(Keys(b.members))
      && forall i, j :: 0 <= i < |members| && 0 <= j < |b.members| && members[i].key == b.members[j].key
           ==> Same(members[i].value, b.members[j].value)
    case _ => a == b
  }

  /** The value with every object's keys in sorted order. */
  function Normal(v: Json): Json
    decreases v, 1
  {
    match v
    case Array(items) => Array(NormalItems(items))
    case Object(members) =>
      SortElements(Keys(members));
      Object(NormalMembers(members, Sort(Keys(members))))
    case _ => v
  }

  function NormalItems(items: seq<Json>): (normal: seq<Json>)
    ensures |normal| == |items|
    decreases items, 0
  {
    seq(|items|, i requires 0 <= i < |items| => Normal(items[i]))
  }

  function NormalMembers(members: seq<Member>, keys: seq<Text>): (normal: seq<Member>)
    requires forall key :: key in keys ==> key in Keys(members)
    ensures |normal| == |keys|
    decreases members, 0
  {
    seq(|keys|, i requires 0 <= i < |keys| => Member(keys[i], Normal(members[IndexOf(members, keys[i])].value)))
  }

  // ---- the parser ----

  function HexValue(c: CodeUnit): Option<nat> {
    if IsDigit(c) then Some(c - ZERO) else if 97 <= c < 103 then Some(c - 87) else None
  }

  function ShortUnescape(c: CodeUnit): Option<CodeUnit> {
    if c == QUOTE || c == BACKSLASH then Some(c)
    else if c == 98 then Some(8)
    else if c == 116 then Some(9)
    else if c == 110 then Some(10)
    else if c == 102 then Some(12)
    else if c == 114 then Some(13)
    else None
  }

  function HexUnit(t: Text): Option<CodeUnit>
    requires |t| >= 4
  {
    var a, b, c, d := HexValue(t[0]), HexValue(t[1]), HexValue(t[2]), HexValue(t[3]);
    if a.Some? && b.Some? && c.Some? && d.Some? && a.value < 16 && b.value < 16 && c.value < 16 && d.value < 16
    then Some(a.value * 4096 + b.value * 256 + c.value * 16 + d.value) else None
  }

  function Prepend(c: CodeUnit, parsed: Option<(Text, Text)>): Option<(Text, Text)> {
    if parsed.None? then None else Some(([c] + parsed.value.0, parsed.value.1))
  }

  /** A string after its opening quote. */
  function ParseString(t: Text): (parsed: Option<(Text, Text)>)
    ensures parsed.Some? ==> |parsed.value.1| < |t|
    decreases |t|
  {
    if t == [] then None
    else if t[0] == QUOTE then Some(([], t[1..]))
    else if t[0] != BACKSLASH then Prepend(t[0], ParseString(t[1..]))
    else if |t| < 2 then None
    else if t[1] != LETTER_U then
      if ShortUnescape(t[1]).None? then None else Prepend(ShortUnescape(t[1]).value, ParseString(t[2..]))
    else if |t| < 6 || HexUnit(t[2..]).None? then None
    else Prepend(HexUnit(t[2..]).value, ParseString(t[6..]))
  }

  function DigitPrefix(t: Text): (n: nat)
    ensures n <= |t|
  {
    if t == [] || !IsDigit(t[0]) then 0 else 1 + DigitPrefix(t[1..])
  }

  function DecimalValue(digits: Text): int {
    if digits == [] then 0 else DecimalValue(digits[..|digits| - 1]) * 10 + (digits[|digits| - 1] - ZERO)
  }

  function ParseNumber(t: Text): Option<(Json, Text)> {
    var negative := t != [] && t[0] == MINUS;
    var from := if negative then t[1..] else t;
    var n := DigitPrefix(from);
    if n == 0 then None else
    Some((Number(if negative then -DecimalValue(from[..n]) else DecimalValue(from[..n])), from[n..]))
  }

  function ParseValue(t: Text): (parsed: Option<(Json, Text)>)
    ensures parsed.Some? ==> |parsed.value.1| < |t|
    decreases |t|, 1
  {
    if t == [] then None
    else if t[0] == QUOTE then
      var s := ParseString(t[1..]);
      if s.None? then None else Some((Str(s.value.0), s.value.1))
    else if t[0] == OPEN_BRACKET then
      if |t| >= 2 && t[1] == CLOSE_BRACKET then Some((Array([]), t[2..])) else
      var items := ParseItems(t[1..]);
      if items.None? then None else Some((Array(items.value.0), items.value.1))
    else if t[0] == OPEN_BRACE then
      if |t| >= 2 && t[1] == CLOSE_BRACE then Some((Object([]), t[2..])) else
      var members := ParseMembers(t[1..]);
      if members.None? then None else Some((Object(members.value.0), members.value.1))
    else if NULL_TEXT <= t then Some((Null, t[4..]))
    else if TRUE_TEXT <= t then Some((Bool(true), t[4..]))
    else if FALSE_TEXT <= t then Some((Bool(false), t[5..]))
    else ParseNumber(t)
  }

  /** One or more items and the closing bracket. */
  function ParseItems(t: Text): (parsed: Option<(seq<Json>, Text)>)
    ensures parsed.Some? ==> |parsed.value.1| < |t|
    decreases |t|, 2
  {
    var first := ParseValue(t);
    if first.None? || first.value.1 == [] then None else
    var rest := first.value.1;
    if rest[0] == CLOSE_BRACKET then Some(([first.value.0], rest[1..])) else
    if rest[0] != COMMA then None else
    var more := ParseItems(rest[1..]);
    if more.None? then None else Some(([first.value.0] + more.value.0, more.value.1))
  }

  /** One or more members and the closing brace. */
  function ParseMembers(t: Text): (parsed: Option<(seq<Member>, Text)>)
    ensures parsed.Some? ==> |parsed.value.1| < |t|
    decreases |t|, 2
  {
    if t == [] || t[0] != QUOTE then None else
    var key := ParseString(t[1..]);
    if key.None? || key.value.1 == [] || key.value.1[0] != COLON then None else
    var value := ParseValue(key.value.1[1..]);
    if value.None? || value.value.1 == [] then None else
    var rest := value.value.1;
    var member := Member(key.value.0, value.value.0);
    if rest[0] == CLOSE_BRACE then Some(([member], rest[1..])) else
    if rest[0] != COMMA then None else
    var more := ParseMembers(rest[1..]);
    if more.None? then None else Some(([member] + more.value.0, more.value.1))
  }

  // ---- strings ----

  lemma HexRoundTrip(c: CodeUnit, t: Text)
    ensures HexUnit(Hex(c) + t) == Some(c)
  {
    HexDigits(c / 4096, c / 256 % 16, c / 16 % 16, c % 16, t);
    HexParts(c);
  }

  lemma HexParts(c: CodeUnit)
    ensures c / 4096 * 4096 + c / 256 % 16 * 256 + c / 16 % 16 * 16 + c % 16 == c
  {
    var p, q, r := c / 16, c / 256, c / 4096;
    assert q == p / 16 && r == q / 16;
    assert c == p * 16 + c % 16 && p == q * 16 + p % 16 && q == r * 16 + q % 16;
  }

  lemma HexDigits(a: nat, b: nat, c: nat, d: nat, t: Text)
    requires a < 16 && b < 16 && c < 16 && d < 16
    ensures HexUnit([HexDigit(a), HexDigit(b), HexDigit(c), HexDigit(d)] + t) == Some(a * 4096 + b * 256 + c * 16 + d)
  {
    HexDigitValue(a);
    HexDigitValue(b);
    HexDigitValue(c);
    HexDigitValue(d);
  }

  lemma HexDigitValue(n: nat)
    requires n < 16
    ensures HexValue(HexDigit(n)) == Some(n)
  {
  }

  /** Reading one escaped unit gives the unit back. */
  lemma UnitRoundTrip(c: CodeUnit, t: Text)
    ensures ParseString(EscapeUnit(c) + t) == Prepend(c, ParseString(t))
  {
    var u := EscapeUnit(c) + t;
    if ShortEscape(c).Some? {
      assert u[0] == BACKSLASH && u[1] == ShortEscape(c).value && u[2..] == t;
    } else if c < 32 || IsHigh(c) || IsLow(c) {
      assert u[0] == BACKSLASH && u[1] == LETTER_U;
      assert u[2..] == Hex(c) + t && u[6..] == t;
      HexRoundTrip(c, t);
    } else {
      assert u[0] == c && u[1..] == t;
    }
  }

  lemma Associative(a: Text, b: Text, c: Text)
    ensures (a + b) + c == a + (b + c)
  {
  }

  lemma LiteralUnit(c: CodeUnit, t: Text)
    requires c != QUOTE && c != BACKSLASH
    ensures ParseString([c] + t) == Prepend(c, ParseString(t))
  {
    assert ([c] + t)[1..] == t;
  }

  lemma EscapePair(s: Text)
    requires |s| >= 2 && IsHigh(s[0]) && IsLow(s[1])
    ensures Escape(s) == [s[0]] + ([s[1]] + Escape(s[2..]))
  {
    TwoUnits(s, Escape(s[2..]));
  }

  lemma TwoUnits(s: Text, t: Text)
    requires |s| >= 2
    ensures s[..2] + t == [s[0]] + ([s[1]] + t)
  {
  }

  lemma EscapeSingle(s: Text)
    requires s != [] && !(|s| >= 2 && IsHigh(s[0]) && IsLow(s[1]))
    ensures Escape(s) == EscapeUnit(s[0]) + Escape(s[1..])
  {
  }

  lemma PrependFirst(c: CodeUnit, s: Text, rest: Text)
    requires s != [] && s[0] == c
    ensures Prepend(c, Some((s[1..], rest))) == Some((s, rest))
  {
    assert [c] + s[1..] == s;
  }

  lemma {:induction false} StringRoundTrip(s: Text, rest: Text)
    ensures ParseString(Escape(s) + ([QUOTE] + rest)) == Some((s, rest))
    decreases |s|
  {
    var tail := [QUOTE] + rest;
    if s == [] {
      assert Escape(s) + tail == tail;
      assert tail[1..] == rest;
    } else if |s| >= 2 && IsHigh(s[0]) && IsLow(s[1]) {
      StringRoundTrip(s[2..], rest);
      PairRoundTrip(s, tail);
      PrependFirst(s[1], s[1..], rest);
      PrependFirst(s[0], s, rest);
      assert s[1..][1..] == s[2..];
    } else {
      StringRoundTrip(s[1..], rest);
      SingleRoundTrip(s, tail);
      PrependFirst(s[0], s, rest);
    }
  }

  lemma PairRoundTrip(s: Text, tail: Text)
    requires |s| >= 2 && IsHigh(s[0]) && IsLow(s[1])
    ensures ParseString(Escape(s) + tail) == Prepend(s[0], Prepend(s[1], ParseString(Escape(s[2..]) + tail)))
  {
    var body := Escape(s[2..]) + tail;
    EscapePair(s);
    assert Escape(s) + tail == [s[0]] + ([s[1]] + body);
    LiteralUnit(s[0], [s[1]] + body);
    LiteralUnit(s[1], body);
  }

  lemma SingleRoundTrip(s: Text, tail: Text)
    requires s != [] && !(|s| >= 2 && IsHigh(s[0]) && IsLow(s[1]))
    ensures ParseString(Escape(s) + tail) == Prepend(s[0], ParseString(Escape(s[1..]) + tail))
  {
    EscapeSingle(s);
    Associative(EscapeUnit(s[0]), Escape(s[1..]), tail);
    UnitRoundTrip(s[0], Escape(s[1..]) + tail);
  }

  // ---- numbers ----

  lemma {:induction false} DecimalDigits(n: nat)
    ensures Decimal(n) != [] && forall i :: 0 <= i < |Decimal(n)| ==> IsDigit(Decimal(n)[i])
    ensures DecimalValue(Decimal(n)) == n
  {
    if n < 10 {
      assert DecimalValue([ZERO + n]) == DecimalValue([]) * 10 + n;
    } else {
      DecimalDigits(n / 10);
      assert Decimal(n)[..|Decimal(n)| - 1] == Decimal(n / 10);
    }
  }

  lemma {:induction false} DigitPrefixExact(digits: Text, rest: Text)
    requires forall i :: 0 <= i < |digits| ==> IsDigit(digits[i])
    requires rest == [] || !IsDigit(rest[0])
    ensures DigitPrefix(digits + rest) == |digits|
  {
    if digits == [] {
      assert digits + rest == rest;
    } else {
      assert (digits + rest)[1..] == digits[1..] + rest;
      DigitPrefixExact(digits[1..], rest);
    }
  }

  lemma NumberRoundTrip(n: int, rest: Text)
    requires Ends(rest)
    ensures ParseNumber(Integer(n) + rest) == Some((Number(n), rest))
  {
    var magnitude := if n < 0 then -n else n;
    var digits := Decimal(magnitude);
    DecimalDigits(magnitude);
    DigitPrefixExact(digits, rest);
    assert (digits + rest)[..|digits|] == digits && (digits + rest)[|digits|..] == rest;
    if n < 0 {
      assert Integer(n) + rest == [MINUS] + (digits + rest);
      assert ([MINUS] + (digits + rest))[1..] == digits + rest;
    }
  }

  // ---- whole values ----

  /** What may follow a value: nothing, or a separator or closing mark. */
  predicate Ends(rest: Text) {
    rest == [] || rest[0] == COMMA || rest[0] == CLOSE_BRACKET || rest[0] == CLOSE_BRACE
  }

  lemma RenderStarts(v: Json)
    requires Printable(v)
    ensures Render(v) != [] && Render(v)[0] != CLOSE_BRACKET && Render(v)[0] != CLOSE_BRACE
  {
    if v.Number? {
      DecimalDigits(if v.number < 0 then -v.number else v.number);
    }
  }

  lemma StringStep(text: Text, rest: Text)
    ensures ParseValue(Quoted(text) + rest) == Some((Str(text), rest))
  {
    StringRoundTrip(text, rest);
    assert (Quoted(text) + rest)[1..] == Escape(text) + ([QUOTE] + rest);
  }

  lemma NumberStep(n: int, rest: Text)
    requires Ends(rest)
    ensures ParseValue(Integer(n) + rest) == Some((Number(n), rest))
  {
    var t := Integer(n) + rest;
    DecimalDigits(if n < 0 then -n else n);
    NumberRoundTrip(n, rest);
    assert t[0] == MINUS || IsDigit(t[0]);
    assert !(NULL_TEXT <= t) && !(TRUE_TEXT <= t) && !(FALSE_TEXT <= t);
  }

  lemma ArrayStep(body: Text, items: seq<Json>, rest: Text)
    requires ParseItems(body) == Some((items, rest)) && body != [] && body[0] != CLOSE_BRACKET
    ensures ParseValue([OPEN_BRACKET] + body) == Some((Array(items), rest))
  {
    assert ([OPEN_BRACKET] + body)[1..] == body;
  }

  lemma ObjectStep(body: Text, members: seq<Member>, rest: Text)
    requires ParseMembers(body) == Some((members, rest)) && body != [] && body[0] != CLOSE_BRACE
    ensures ParseValue([OPEN_BRACE] + body) == Some((Object(members), rest))
  {
    assert ([OPEN_BRACE] + body)[1..] == body;
  }

  lemma LastItem(t: Text, v: Json, rest: Text)
    requires ParseValue(t) == Some((v, [CLOSE_BRACKET] + rest))
    ensures ParseItems(t) == Some(([v], rest))
  {
    assert ([CLOSE_BRACKET] + rest)[1..] == rest;
  }

  lemma NextItem(t: Text, v: Json, more: Text, items: seq<Json>, rest: Text)
    requires ParseValue(t) == Some((v, [COMMA] + more)) && ParseItems(more) == Some((items, rest))
    ensures ParseItems(t) == Some(([v] + items, rest))
  {
    assert ([COMMA] + more)[1..] == more;
  }

  lemma LastMember(key: Text, t: Text, v: Json, rest: Text)
    requires ParseValue(t) == Some((v, [CLOSE_BRACE] + rest))
    ensures ParseMembers(Quoted(key) + ([COLON] + t)) == Some(([Member(key, v)], rest))
  {
    KeyStep(key, t);
    assert ([CLOSE_BRACE] + rest)[1..] == rest;
  }

  lemma NextMember(key: Text, t: Text, v: Json, more: Text, members: seq<Member>, rest: Text)
    requires ParseValue(t) == Some((v, [COMMA] + more)) && ParseMembers(more) == Some((members, rest))
    ensures ParseMembers(Quoted(key) + ([COLON] + t)) == Some(([Member(key, v)] + members, rest))
  {
    KeyStep(key, t);
    assert ([COMMA] + more)[1..] == more;
  }

  lemma KeyStep(key: Text, t: Text)
    ensures (Quoted(key) + ([COLON] + t))[0] == QUOTE
    ensures ParseString((Quoted(key) + ([COLON] + t))[1..]) == Some((key, [COLON] + t))
    ensures ([COLON] + t)[1..] == t
  {
    var after := [COLON] + t;
    StringRoundTrip(key, after);
    assert (Quoted(key) + after)[1..] == Escape(key) + ([QUOTE] + after);
  }

  /** Parsing the printed text gives the value with sorted keys, and leaves what follows untouched. */
  lemma {:induction false} RoundTrip(v: Json, rest: Text)
    requires Printable(v) && Ends(rest)
    ensures ParseValue(Render(v) + rest) == Some((Normal(v), rest))
    decreases v, 1
  {
    match v {
      case Null => assert (NULL_TEXT + rest)[4..] == rest;
      case Bool(value) =>
        assert (TRUE_TEXT + rest)[4..] == rest;
        assert (FALSE_TEXT + rest)[5..] == rest;
      case Number(number) => NumberStep(number, rest);
      case Str(text) => StringStep(text, rest);
      case Array(items) => ArrayRoundTrip(items, rest);
      case Object(members) => ObjectRoundTrip(members, rest);
    }
  }

  lemma {:induction false} ArrayRoundTrip(items: seq<Json>, rest: Text)
    requires Printable(Array(items)) && Ends(rest)
    ensures ParseValue(Render(Array(items)) + rest) == Some((Normal(Array(items)), rest))
    decreases items, 1
  {
    var body := Joined(ItemTexts(items)) + ([CLOSE_BRACKET] + rest);
    assert Render(Array(items)) + rest == [OPEN_BRACKET] + body;
    if items == [] {
      assert body == [CLOSE_BRACKET] + rest;
      assert ([OPEN_BRACKET] + body)[2..] == rest;
    } else {
      ItemsRoundTrip(items, rest);
      JoinedStarts(items);
      assert body[0] == Joined(ItemTexts(items))[0];
      ArrayStep(body, NormalItems(items), rest);
    }
  }

  lemma {:induction false} ObjectRoundTrip(members: seq<Member>, rest: Text)
    requires Printable(Object(members)) && Ends(rest)
    ensures ParseValue(Render(Object(members)) + rest) == Some((Normal(Object(members)), rest))
    decreases members, 1
  {
    var keys := Sort(Keys(members));
    SortElements(Keys(members));
    var body := Joined(MemberTexts(members, keys)) + ([CLOSE_BRACE] + rest);
    assert Render(Object(members)) + rest == [OPEN_BRACE] + body;
    if members == [] {
      assert keys == [];
      assert body == [CLOSE_BRACE] + rest;
      assert ([OPEN_BRACE] + body)[2..] == rest;
    } else {
      assert Keys(members)[0] in keys;
      MembersRoundTrip(members, keys, rest);
      MembersStart(members, keys);
      assert body[0] == Joined(MemberTexts(members, keys))[0];
      ObjectStep(body, NormalMembers(members, keys), rest);
    }
  }

  lemma JoinedStarts(items: seq<Json>)
    requires items != [] && Printable(items[0])
    ensures Joined(ItemTexts(items)) != [] && Joined(ItemTexts(items))[0] == Render(items[0])[0]
    ensures Render(items[0])[0] != CLOSE_BRACKET
  {
    RenderStarts(items[0]);
    assert ItemTexts(items)[0] == Render(items[0]);
  }

  lemma MembersStart(members: seq<Member>, keys: seq<Text>)
    requires keys != [] && forall key :: key in keys ==> key in Keys(members)
    ensures Joined(MemberTexts(members, keys)) != [] && Joined(MemberTexts(members, keys))[0] == QUOTE
  {
    assert MemberTexts(members, keys)[0][0] == QUOTE;
  }

  lemma {:induction false} ItemsRoundTrip(items: seq<Json>, rest: Text)
    requires items != [] && Ends(rest)
    requires forall i :: 0 <= i < |items| ==> Printable(items[i])
    ensures ParseItems(Joined(ItemTexts(items)) + ([CLOSE_BRACKET] + rest)) == Some((NormalItems(items), rest))
    decreases items, 0
  {
    var close := [CLOSE_BRACKET] + rest;
    var first := Render(items[0]);
    if |items| == 1 {
      RoundTrip(items[0], close);
      LastItem(first + close, Normal(items[0]), rest);
      OneItem(items);
    } else {
      var more := Joined(ItemTexts(items[1..])) + close;
      JoinedItems(items, close);
      RoundTrip(items[0], [COMMA] + more);
      ItemsRoundTrip(items[1..], rest);
      NextItem(first + ([COMMA] + more), Normal(items[0]), more, NormalItems(items[1..]), rest);
      MoreItems(items);
    }
  }

  lemma MoreItems(items: seq<Json>)
    requires items != []
    ensures NormalItems(items) == [Normal(items[0])] + NormalItems(items[1..])
  {
  }

  lemma OneItem(items: seq<Json>)
    requires |items| == 1
    ensures Joined(ItemTexts(items)) == Render(items[0]) && NormalItems(items) == [Normal(items[0])]
  {
  }

  lemma JoinedItems(items: seq<Json>, close: Text)
    requires |items| > 1
    ensures Joined(ItemTexts(items)) + close == Render(items[0]) + ([COMMA] + (Joined(ItemTexts(items[1..])) + close))
  {
    var texts := ItemTexts(items);
    assert texts[1..] == ItemTexts(items[1..]);
    RegroupItems(texts[0], Joined(texts[1..]), close);
  }

  lemma RegroupItems(first: Text, joined: Text, close: Text)
    ensures first + [COMMA] + joined + close == first + ([COMMA] + (joined + close))
  {
  }

  /** The text of the members from the first of `keys` on. */
  lemma JoinedMembers(members: seq<Member>, keys: seq<Text>, close: Text)
    requires keys != [] && forall key :: key in keys ==> key in Keys(members)
    ensures Joined(MemberTexts(members, keys)) + close
         == Quoted(keys[0]) + ([COLON] + (Render(members[IndexOf(members, keys[0])].value) + MembersTail(members, keys, close)))
  {
    var texts := MemberTexts(members, keys);
    var key, value := Quoted(keys[0]), Render(members[IndexOf(members, keys[0])].value);
    assert texts[0] == key + [COLON] + value;
    if |keys| == 1 {
      RegroupLast(key, value, close);
    } else {
      assert texts[1..] == MemberTexts(members, keys[1..]);
      RegroupNext(key, value, Joined(texts[1..]), close);
    }
  }

  lemma RegroupLast(key: Text, value: Text, close: Text)
    ensures key + [COLON] + value + close == key + ([COLON] + (value + close))
  {
  }

  lemma RegroupNext(key: Text, value: Text, joined: Text, close: Text)
    ensures (key + [COLON] + value) + [COMMA] + joined + close == key + ([COLON] + (value + ([COMMA] + (joined + close))))
  {
  }

  function MembersTail(members: seq<Member>, keys: seq<Text>, close: Text): Text
    requires keys != [] && forall key :: key in keys ==> key in Keys(members)
  {
    if |keys| == 1 then close else [COMMA] + (Joined(MemberTexts(members, keys[1..])) + close)
  }

  lemma {:induction false} MembersRoundTrip(members: seq<Member>, keys: seq<Text>, rest: Text)
    requires keys != [] && Ends(rest) && forall key :: key in keys ==> key in Keys(members)
    requires forall i :: 0 <= i < |members| ==> Printable(members[i].value)
    ensures ParseMembers(Joined(MemberTexts(members, keys)) + ([CLOSE_BRACE] + rest)) == Some((NormalMembers(members, keys), rest))
    decreases members, 0, |keys|
  {
    var close := [CLOSE_BRACE] + rest;
    var value := members[IndexOf(members, keys[0])].value;
    var tail := MembersTail(members, keys, close);
    JoinedMembers(members, keys, close);
    RoundTrip(value, tail);
    FirstNormal(members, keys);
    if |keys| == 1 {
      LastMember(keys[0], Render(value) + tail, Normal(value), rest);
    } else {
      MembersRoundTrip(members, keys[1..], rest);
      var more := Joined(MemberTexts(members, keys[1..])) + close;
      assert tail == [COMMA] + more;
      NextMember(keys[0], Render(value) + tail, Normal(value), more, NormalMembers(members, keys[1..]), rest);
    }
  }

  lemma FirstNormal(members: seq<Member>, keys: seq<Text>)
    requires keys != [] && forall key :: key in keys ==> key in Keys(members)
    ensures NormalMembers(members, keys)
         == [Member(keys[0], Normal(members[IndexOf(members, keys[0])].value))] + NormalMembers(members, keys[1..])
    ensures |keys| == 1 ==> NormalMembers(members, keys) == [Member(keys[0], Normal(members[IndexOf(members, keys[0])].value))]
  {
  }

  // ---- faithfulness ----

  lemma IndexOfUnique(members: seq<Member>, i: nat)
    requires i < |members| && NoDup(Keys(members))
    ensures members[i].key in Keys(members) && IndexOf(members, members[i].key) == i
  {
    assert Keys(members)[i] == members[i].key;
    var j := IndexOf(members, members[i].key);
    assert Keys(members)[j] == Keys(members)[i];
  }

  /** Values that differ only in key order have equal sorted forms, and conversely. */
  lemma {:induction false} NormalSameIff(a: Json, b: Json)
    requires WellFormed(a) && WellFormed(b)
    ensures Normal(a) == Normal(b) <==> Same(a, b)
    decreases a
  {
    if a.Array? && b.Array? && |a.items| == |b.items| {
      var m, n := a.items, b.items;
      forall i | 0 <= i < |m| ensures NormalItems(m)[i] == NormalItems(n)[i] <==> Same(m[i], n[i]) {
        NormalSameIff(m[i], n[i]);
      }
      if Same(a, b) {
        assert NormalItems(m) == NormalItems(n);
      }
      if Normal(a) == Normal(b) {
        assert Normal(a).items == NormalItems(m) && Normal(b).items == NormalItems(n);
        assert forall i :: 0 <= i < |m| ==> Same(m[i], n[i]);
      }
    } else if a.Object? && b.Object? {
      ObjectsSameIff(a, b);
    }
  }

  ghost predicate ValuesAgree(m: seq<Member>, n: seq<Member>) {
    forall i, j :: 0 <= i < |m| && 0 <= j < |n| && m[i].key == n[j].key ==> Normal(m[i].value) == Normal(n[j].value)
  }

  lemma {:induction false} ObjectsSameIff(a: Json, b: Json)
    requires a.Object? && b.Object? && WellFormed(a) && WellFormed(b)
    ensures Normal(a) == Normal(b) <==> Same(a, b)
    decreases a, 0
  {
    var m, n := a.members, b.members;
    forall i, j | 0 <= i < |m| && 0 <= j < |n| && m[i].key == n[j].key
      ensures Normal(m[i].value) == Normal(n[j].value) <==> Same(m[i].value, n[j].value)
    {
      assert m[i] in a.members && m[i].value < a;
      NormalSameIff(m[i].value, n[j].value);
    }
    assert Same(a, b) <==> Elements(Keys(m)) == Elements(Keys(n)) && ValuesAgree(m, n);
    SortElements(Keys(m));
    SortElements(Keys(n));
    assert Normal(a) == Object(NormalMembers(m, Sort(Keys(m)))) && Normal(b) == Object(NormalMembers(n, Sort(Keys(n))));
    MembersAgreeIff(m, n);
  }

  lemma MembersAgreeIff(m: seq<Member>, n: seq<Member>)
    requires NoDup(Keys(m)) && NoDup(Keys(n))
    requires forall key :: key in Sort(Keys(m)) <==> key in Keys(m)
    requires forall key :: key in Sort(Keys(n)) <==> key in Keys(n)
    ensures NormalMembers(m, Sort(Keys(m))) == NormalMembers(n, Sort(Keys(n)))
       <==> Elements(Keys(m)) == Elements(Keys(n)) && ValuesAgree(m, n)
  {
    var keys, others := Sort(Keys(m)), Sort(Keys(n));
    SortSameIff(Keys(m), Keys(n));
    if NormalMembers(m, keys) == NormalMembers(n, others) {
      NormalKeys(m, keys);
      NormalKeys(n, others);
      MembersAgree(m, n, keys);
    }
    if Elements(Keys(m)) == Elements(Keys(n)) && ValuesAgree(m, n) {
      forall k | 0 <= k < |keys| ensures NormalMembers(m, keys)[k] == NormalMembers(n, others)[k] {
        assert keys[k] in Keys(m) && keys[k] in others;
        var i, j := IndexOf(m, keys[k]), IndexOf(n, keys[k]);
        assert m[i].key == n[j].key;
      }
    }
  }

  lemma MembersAgree(m: seq<Member>, n: seq<Member>, keys: seq<Text>)
    requires NoDup(Keys(m)) && NoDup(Keys(n))
    requires forall key :: key in keys <==> key in Keys(m)
    requires forall key :: key in keys ==> key in Keys(n)
    requires NormalMembers(m, keys) == NormalMembers(n, keys)
    ensures ValuesAgree(m, n)
  {
    forall i, j | 0 <= i < |m| && 0 <= j < |n| && m[i].key == n[j].key
      ensures Normal(m[i].value) == Normal(n[j].value)
    {
      IndexOfUnique(m, i);
      IndexOfUnique(n, j);
      var k :| 0 <= k < |keys| && keys[k] == m[i].key;
      assert NormalMembers(m, keys)[k] == NormalMembers(n, keys)[k];
    }
  }

  lemma NormalKeys(members: seq<Member>, keys: seq<Text>)
    requires forall key :: key in keys ==> key in Keys(members)
    ensures Keys(NormalMembers(members, keys)) == keys
  {
  }

  /** Values with equal sorted forms print alike. */
  lemma {:induction false} NormalPrints(v: Json)
    requires WellFormed(v)
    ensures Render(Normal(v)) == Render(v)
    decreases v
  {
    match v {
      case Array(items) =>
        forall i | 0 <= i < |items| ensures Render(NormalItems(items)[i]) == Render(items[i]) {
          NormalPrints(items[i]);
        }
        assert ItemTexts(NormalItems(items)) == ItemTexts(items);
      case Object(members) => ObjectPrints(v);
      case _ =>
    }
  }

  lemma ObjectPrints(v: Json)
    requires v.Object? && WellFormed(v)
    ensures Render(Normal(v)) == Render(v)
    decreases v, 0
  {
    var members := v.members;
    var keys := Sort(Keys(members));
    SortElements(Keys(members));
    SortNoDup(Keys(members));
    SortSorts(Keys(members));
    var normal := NormalMembers(members, keys);
    NormalKeys(members, keys);
    SortSorts(keys);
    SortedUnique(Sort(keys), keys);
    forall k | 0 <= k < |keys| ensures Render(normal[k].value) == Render(members[IndexOf(members, keys[k])].value) {
      var i := IndexOf(members, keys[k]);
      assert members[i] in v.members && members[i].value < v;
      NormalPrints(members[i].value);
    }
    SameTexts(normal, members, keys);
  }

  lemma SameTexts(normal: seq<Member>, members: seq<Member>, keys: seq<Text>)
    requires NoDup(keys) && Keys(normal) == keys && forall key :: key in keys ==> key in Keys(members)
    requires forall k :: 0 <= k < |keys| ==> Render(normal[k].value) == Render(members[IndexOf(members, keys[k])].value)
    ensures MemberTexts(normal, keys) == MemberTexts(members, keys)
  {
    forall k | 0 <= k < |keys| ensures MemberTexts(normal, keys)[k] == MemberTexts(members, keys)[k] {
      assert Keys(normal)[k] == keys[k];
      IndexOfUnique(normal, k);
    }
  }

  /** The canonical text is faithful: two printable values have the same text exactly when they are the same value up to key order. */
  lemma CanonicalSameIff(a: Json, b: Json)
    requires WellFormed(a) && WellFormed(b) && Printable(a) && Printable(b)
    ensures Canonicalize(a) == Canonicalize(b) <==> Same(a, b)
  {
    RoundTrip(a, []);
    RoundTrip(b, []);
    assert Render(a) + [] == Render(a) && Render(b) + [] == Render(b);
    NormalSameIff(a, b);
    NormalPrints(a);
    NormalPrints(b);
  }

  // ---- the format ----

  /** The text of {"b": [true, null, -20], "a": "\u0001\"x"}: keys in order, no spaces, digits in lower case. */
  lemma CanonicalExample(members: seq<Member>)
    requires members == [Member([98], Array([Bool(true), Null, Number(-20)])), Member([97], Str([1, 34, 120]))]
    ensures
      Canonicalize(Object(members))
      == Ok([123] + ([34, 97, 34, 58] + [34, 92, 117, 48, 48, 48, 49, 92, 34, 120, 34] + [44]
                     + ([34, 98, 34, 58] + [91, 116, 114, 117, 101, 44, 110, 117, 108, 108, 44, 45, 50, 48, 93])) + [125])
  {
    var items := [Bool(true), Null, Number(-20)];
    ExampleItems(items);
    ExampleString();
    ExampleKeys(members);
    ExampleMembers(members, items);
    ExamplePrintable(members, items);
  }

  lemma ExamplePrintable(members: seq<Member>, items: seq<Json>)
    requires members == [Member([98], Array(items)), Member([97], Str([1, 34, 120]))] && Printable(Array(items))
    ensures forall key :: key in Sort(Keys(members)) ==> key in Keys(members)
    ensures Printable(Object(members)) && Render(Object(members)) == [123] + Joined(MemberTexts(members, Sort(Keys(members)))) + [125]
  {
    SortElements(Keys(members));
  }

  lemma ExampleMembers(members: seq<Member>, items: seq<Json>)
    requires members == [Member([98], Array(items)), Member([97], Str([1, 34, 120]))]
    requires Sort(Keys(members)) == [[97], [98]] && [97] in Keys(members) && [98] in Keys(members)
    requires IndexOf(members, [97]) == 1 && IndexOf(members, [98]) == 0
    ensures forall key :: key in [[97], [98]] ==> key in Keys(members)
    ensures Joined(MemberTexts(members, [[97], [98]]))
         == [34, 97, 34, 58] + Render(Str([1, 34, 120])) + [44] + ([34, 98, 34, 58] + Render(Array(items)))
  {
    ExampleNames();
    var parts := MemberTexts(members, [[97], [98]]);
    assert parts[0] == Quoted([97]) + [58] + Render(Str([1, 34, 120]));
    assert parts[1] == Quoted([98]) + [58] + Render(Array(items));
    JoinTwo(parts);
  }

  lemma ExampleNames()
    ensures Quoted([97]) + [58] == [34, 97, 34, 58] && Quoted([98]) + [58] == [34, 98, 34, 58]
  {
    assert Escape([97]) == [97] && Escape([98]) == [98];
  }

  lemma JoinTwo(parts: seq<Text>)
    requires |parts| == 2
    ensures Joined(parts) == parts[0] + [44] + parts[1]
  {
    assert parts[1..] == [parts[1]] && Joined([parts[1]]) == parts[1];
  }

  lemma ExampleItems(items: seq<Json>)
    requires items == [Bool(true), Null, Number(-20)]
    ensures Printable(Array(items))
    ensures Render(Array(items)) == [91, 116, 114, 117, 101, 44, 110, 117, 108, 108, 44, 45, 50, 48, 93]
  {
    assert Decimal(2) == [50] && Decimal(20) == [50, 48];
    var parts := ItemTexts(items);
    assert parts[0] == Render(Bool(true)) == TRUE_TEXT;
    assert parts[1] == Render(Null) == NULL_TEXT;
    assert parts[2] == Render(Number(-20)) == [MINUS] + Decimal(20) == [45, 50, 48];
    assert parts == [[116, 114, 117, 101], [110, 117, 108, 108], [45, 50, 48]];
    assert Joined([parts[2]]) == parts[2] && parts[1..] == [parts[1], parts[2]] && parts[1..][1..] == [parts[2]];
    assert Joined(parts[1..]) == parts[1] + [44] + parts[2];
  }

  lemma ExampleString()
    ensures Render(Str([1, 34, 120])) == [34, 92, 117, 48, 48, 48, 49, 92, 34, 120, 34]
  {
    assert Escape([120]) == [120];
    assert [34, 120][1..] == [120] && Escape([34, 120]) == [92, 34, 120];
    assert [1, 34, 120][1..] == [34, 120];
    assert Hex(1) == [48, 48, 48, 49];
  }

  lemma ExampleKeys(members: seq<Member>)
    requires |members| == 2 && members[0].key == [98] && members[1].key == [97]
    ensures Sort(Keys(members)) == [[97], [98]] && [97] in Keys(members) && [98] in Keys(members)
    ensures IndexOf(members, [97]) == 1 && IndexOf(members, [98]) == 0
  {
    var keys := Keys(members);
    assert keys == [[98], [97]];
    assert Less([97], [98]) && !Less([98], [97]);
    SortSorts(keys);
    assert Sorted([[97], [98]]) by {
      LessIrreflexive([97]);
      LessIrreflexive([98]);
    }
    assert multiset(keys) == multiset([[97], [98]]);
    SortedUnique(Sort(keys), [[97], [98]]);
    assert Keys(members)[1..] == Keys(members[1..]);
  }
}
