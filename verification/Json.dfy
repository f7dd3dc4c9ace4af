/**
 JSON documents as ordered member lists, the canonical printer (members sorted by key,
 no white space) in its Python and JavaScript spellings, and the proof that the printed
 text determines the value: canonical texts are equal exactly when the values are equal
 as mathematical JSON values, whatever the order in which members were inserted.
 */
module Json {
  import opened Prelude

  /** A code point, or a UTF-16 code unit on the JavaScript side. */
  type Unit = u: int | 0 <= u < 0x11_0000
  type Text = seq<Unit>

  const QUOTE: Unit := 34
  const COMMA: Unit := 44
  const MINUS: Unit := 45
  const COLON: Unit := 58
  const OPEN_BRACKET: Unit := 91
  const BACKSLASH: Unit := 92
  const CLOSE_BRACKET: Unit := 93
  const LETTER_U: Unit := 117
  const OPEN_BRACE: Unit := 123
  const CLOSE_BRACE: Unit := 125

  function Ascii(s: string): (t: Text)
    ensures |t| == |s|
    ensures forall i :: 0 <= i < |s| ==> t[i] == s[i] as int
  {
    seq(|s|, i requires 0 <= i < |s| => s[i] as int)
  }

  datatype Doc =
    | Null
    | Bool(b: bool)
    | Num(token: Text)
    | Str(s: Text)
    | Arr(items: seq<Doc>)
    | Obj(members: seq<Member<Doc>>)

  datatype Member<+V> = Member(key: Text, value: V)

  /** Two printers differ in one point: JavaScript escapes lone surrogates, Python leaves them. */
  datatype Dialect = Python | JavaScript

  // ------------------------------------------------------------------ well-formed documents

  predicate Digit(u: Unit) { 48 <= u <= 57 }

  predicate NumberUnit(u: Unit) {
    Digit(u) || u == MINUS || u == 43 || u == 46 || u == 69 || u == 101
  }

  /** The tokens `repr` and `Number::toString` print for finite numbers. */
  predicate IsNumberToken(t: Text) {
    && t != []
    && (Digit(t[0]) || t[0] == MINUS)
    && forall i :: 0 <= i < |t| ==> NumberUnit(t[i])
  }

  predicate DistinctKeys<V>(ms: seq<Member<V>>) {
    forall i, j :: 0 <= i < j < |ms| ==> ms[i].key != ms[j].key
  }

  /** Numbers are printed tokens and no object repeats a key, as in a Python dict or a JavaScript object. */
  predicate ValidDoc(d: Doc) {
    match d
    case Num(token) => IsNumberToken(token)
    case Arr(items) => forall i :: 0 <= i < |items| ==> ValidDoc(items[i])
    case Obj(ms) => DistinctKeys(ms) && forall i :: 0 <= i < |ms| ==> ValidDoc(ms[i].value)
    case _ => true
  }

  type JsonDoc = d: Doc | ValidDoc(d) witness Null

  function Lookup(ms: seq<Member<Doc>>, key: Text): (v: Option<Doc>)
    ensures v.Some? ==> Member(key, v.value) in ms
  {
    if ms == [] then None
    else if ms[0].key == key then Some(ms[0].value)
    else Lookup(ms[1..], key)
  }

  // ------------------------------------------------------------------ string escapes

  predicate HighSurrogate(u: Unit) { 0xD800 <= u <= 0xDBFF }

  predicate LowSurrogate(u: Unit) { 0xDC00 <= u <= 0xDFFF }

  predicate Surrogate(u: Unit) { 0xD800 <= u <= 0xDFFF }

  function HexDigit(n: int): Unit
    requires 0 <= n < 16
  {
    if n < 10 then 48 + n else 87 + n
  }

  function HexValue(u: Unit): int {
    if Digit(u) then u - 48 else if 97 <= u <= 102 then u - 87 else 0
  }

  function Hex4(u: Unit): Text
    requires u < 0x1_0000
  {
    [HexDigit(u / 4096), HexDigit(u / 256 % 16), HexDigit(u / 16 % 16), HexDigit(u % 16)]
  }

  function EscapeUnit(d: Dialect, u: Unit): Text {
    if u == QUOTE || u == BACKSLASH then [BACKSLASH, u]
    else if u == 8 then [BACKSLASH, 98]
    else if u == 9 then [BACKSLASH, 116]
    else if u == 10 then [BACKSLASH, 110]
    else if u == 12 then [BACKSLASH, 102]
    else if u == 13 then [BACKSLASH, 114]
    else if u < 32 || (d.JavaScript? && Surrogate(u)) then [BACKSLASH, LETTER_U] + Hex4(u)
    else [u]
  }

  /** The escaped string followed by `rest`. */
  function Escape(d: Dialect, s: Text, rest: Text): Text {
    if s == [] then rest
    else if d.JavaScript? && |s| >= 2 && HighSurrogate(s[0]) && LowSurrogate(s[1]) then
      [s[0]] + ([s[1]] + Escape(d, s[2..], rest))
    else EscapeUnit(d, s[0]) + Escape(d, s[1..], rest)
  }

  function ShortEscape(u: Unit): Unit {
    if u == 98 then 8
    else if u == 116 then 9
    else if u == 110 then 10
    else if u == 102 then 12
    else if u == 114 then 13
    else u
  }

  function HexUnit(t: Text): (u: Unit)
    requires |t| == 4
  {
    4096 * HexValue(t[0]) + 256 * HexValue(t[1]) + 16 * HexValue(t[2]) + HexValue(t[3])
  }

  /** Reads a string body up to its closing quote; gives the string and what follows the quote. */
  function ReadString(t: Text): (r: Option<(Text, Text)>)
    decreases |t|
  {
    if t == [] then None
    else if t[0] == QUOTE then Some(([], t[1..]))
    else if t[0] != BACKSLASH then
      var (s, rest) :- ReadString(t[1..]);
      Some(([t[0]] + s, rest))
    else if |t| >= 2 && t[1] != LETTER_U then
      var (s, rest) :- ReadString(t[2..]);
      Some(([ShortEscape(t[1])] + s, rest))
    else if |t| >= 6 then
      var (s, rest) :- ReadString(t[6..]);
      Some(([HexUnit(t[2..6])] + s, rest))
    else None
  }

  lemma HexRoundTrip(u: Unit)
    requires u < 0x1_0000
    ensures HexUnit(Hex4(u)) == u
  {
    var a, b, c, e := u / 4096, u / 256 % 16, u / 16 % 16, u % 16;
    Nibbles(u);
    forall n | 0 <= n < 16 ensures HexValue(HexDigit(n)) == n {}
    hide HexDigit, HexValue;
    var t := Hex4(u);
    assert HexValue(t[0]) == a && HexValue(t[1]) == b && HexValue(t[2]) == c && HexValue(t[3]) == e;
  }

  lemma Nibbles(u: Unit)
    requires u < 0x1_0000
    ensures u == 4096 * (u / 4096) + 256 * (u / 256 % 16) + 16 * (u / 16 % 16) + u % 16 && u / 4096 < 16
  {
    assert u / 16 == 16 * (u / 256) + u / 16 % 16;
    assert u / 256 == 16 * (u / 4096) + u / 256 % 16;
  }

  lemma ReadPlain(u: Unit, t: Text)
    requires u != QUOTE && u != BACKSLASH && ReadString(t).Some?
    ensures ReadString([u] + t) == Some(([u] + ReadString(t).value.0, ReadString(t).value.1))
  {
    assert ([u] + t)[1..] == t;
  }

  lemma ReadShort(x: Unit, t: Text)
    requires x != LETTER_U && ReadString(t).Some?
    ensures ReadString([BACKSLASH, x] + t) == Some(([ShortEscape(x)] + ReadString(t).value.0, ReadString(t).value.1))
  {
    assert ([BACKSLASH, x] + t)[2..] == t;
  }

  lemma ReadHex(h: Text, t: Text)
    requires |h| == 4 && ReadString(t).Some?
    ensures ReadString([BACKSLASH, LETTER_U] + h + t) == Some(([HexUnit(h)] + ReadString(t).value.0, ReadString(t).value.1))
  {
    hide HexUnit;
    var whole := [BACKSLASH, LETTER_U] + h + t;
    assert whole[6..] == t && whole[2..6] == h;
  }

  lemma ReadEscapedUnit(d: Dialect, u: Unit, t: Text)
    requires ReadString(t).Some?
    ensures ReadString(EscapeUnit(d, u) + t) == Some(([u] + ReadString(t).value.0, ReadString(t).value.1))
  {
    hide HexUnit, HexDigit, ReadString;
    if u == QUOTE || u == BACKSLASH || u == 8 || u == 9 || u == 10 || u == 12 || u == 13 {
      ReadShort(EscapeUnit(d, u)[1], t);
    } else if u < 32 || (d.JavaScript? && Surrogate(u)) {
      HexRoundTrip(u);
      ReadHex(Hex4(u), t);
    } else {
      ReadPlain(u, t);
    }
  }

  /** Reading back an escaped string recovers it and leaves the rest of the text alone. */
  lemma {:induction false} ReadEscaped(d: Dialect, s: Text, rest: Text)
    ensures ReadString(Escape(d, s, [QUOTE] + rest)) == Some((s, rest))
    decreases |s|
  {
    if s == [] {
      assert ([QUOTE] + rest)[1..] == rest;
    } else if d.JavaScript? && |s| >= 2 && HighSurrogate(s[0]) && LowSurrogate(s[1]) {
      ReadEscaped(d, s[2..], rest);
      var t := Escape(d, s[2..], [QUOTE] + rest);
      ReadEscapedUnit(Python, s[1], t);
      ReadEscapedUnit(Python, s[0], [s[1]] + t);
      assert s == [s[0]] + ([s[1]] + s[2..]);
    } else {
      ReadEscaped(d, s[1..], rest);
      ReadEscapedUnit(d, s[0], Escape(d, s[1..], [QUOTE] + rest));
      assert s == [s[0]] + s[1..];
    }
  }

  // ------------------------------------------------------------------ the printer

  function PrintString(d: Dialect, s: Text, rest: Text): Text {
    [QUOTE] + Escape(d, s, [QUOTE] + rest)
  }

  /** The printed document followed by `rest`. */
  function PrintBefore(d: Dialect, doc: Doc, rest: Text): Text
    decreases doc, 1
  {
    match doc
    case Null => Ascii("null") + rest
    case Bool(b) => (if b then Ascii("true") else Ascii("false")) + rest
    case Num(token) => token + rest
    case Str(s) => PrintString(d, s, rest)
    case Arr(items) => [OPEN_BRACKET] + PrintItems(d, items, true, rest)
    case Obj(members) => [OPEN_BRACE] + PrintMembers(d, members, true, rest)
  }

  /** The comma-separated items, the closing bracket, then `rest`. */
  function PrintItems(d: Dialect, items: seq<Doc>, first: bool, rest: Text): Text
    decreases items, 0
  {
    if items == [] then [CLOSE_BRACKET] + rest
    else Separator(first) + PrintBefore(d, items[0], PrintItems(d, items[1..], false, rest))
  }

  function PrintMembers(d: Dialect, ms: seq<Member<Doc>>, first: bool, rest: Text): Text
    decreases ms, 0
  {
    if ms == [] then [CLOSE_BRACE] + rest
    else Separator(first) + PrintMember(d, ms, rest)
  }

  function PrintMember(d: Dialect, ms: seq<Member<Doc>>, rest: Text): Text
    requires ms != []
    decreases ms, 0, 0
  {
    PrintString(d, ms[0].key,
      [COLON] + PrintBefore(d, ms[0].value, PrintMembers(d, ms[1..], false, rest)))
  }

  function Separator(first: bool): Text {
    if first then [] else [COMMA]
  }

  function Print(d: Dialect, doc: Doc): Text {
    PrintBefore(d, doc, [])
  }

  // ------------------------------------------------------------------ printed text determines the document

  /** What can follow a value: nothing, or a unit that cannot continue a number. */
  predicate Delimited(t: Text) {
    t == [] || !NumberUnit(t[0])
  }

  function FirstUnit(doc: Doc): Unit
    requires ValidDoc(doc)
  {
    match doc
    case Null => 110
    case Bool(b) => if b then 116 else 102
    case Num(token) => token[0]
    case Str(_) => QUOTE
    case Arr(_) => OPEN_BRACKET
    case Obj(_) => OPEN_BRACE
  }

  lemma PrintStarts(d: Dialect, doc: Doc, rest: Text)
    requires ValidDoc(doc)
    ensures |PrintBefore(d, doc, rest)| > 0 && PrintBefore(d, doc, rest)[0] == FirstUnit(doc)
  {
  }

  lemma TokensEqual(a: Text, b: Text, r: Text, s: Text)
    requires IsNumberToken(a) && IsNumberToken(b) && Delimited(r) && Delimited(s)
    requires a + r == b + s
    ensures a == b && r == s
  {
    var whole := a + r;
    assert forall k :: 0 <= k < |a| ==> NumberUnit(whole[k]);
    assert forall k :: 0 <= k < |b| ==> NumberUnit((b + s)[k]);
    assert |a| < |whole| ==> !NumberUnit(whole[|a|]);
    assert |b| < |whole| ==> !NumberUnit((b + s)[|b|]);
    assert a == (a + r)[..|a|] && b == (b + s)[..|b|];
    SplitAfter(a, r, s);
  }

  lemma SplitAfter(p: Text, a: Text, b: Text)
    requires p + a == p + b
    ensures a == b
  {
    assert (p + a)[|p|..] == a;
    assert (p + b)[|p|..] == b;
  }

  lemma StringsEqual(d: Dialect, a: Text, b: Text, r: Text, s: Text)
    requires PrintString(d, a, r) == PrintString(d, b, s)
    ensures a == b && r == s
  {
    SplitAfter([QUOTE], Escape(d, a, [QUOTE] + r), Escape(d, b, [QUOTE] + s));
    ReadEscaped(d, a, r);
    ReadEscaped(d, b, s);
  }

  /** Unique reading: a printed value followed by a delimiter can only be read back as itself. */
  lemma {:induction false} UniqueReading(d: Dialect, a: Doc, b: Doc, r: Text, s: Text)
    requires ValidDoc(a) && ValidDoc(b) && Delimited(r) && Delimited(s)
    requires PrintBefore(d, a, r) == PrintBefore(d, b, s)
    ensures a == b && r == s
    decreases a, 1
  {
    PrintStarts(d, a, r);
    PrintStarts(d, b, s);
    match a
    case Null => SplitAfter(Ascii("null"), r, s);
    case Bool(x) => SplitAfter(if x then Ascii("true") else Ascii("false"), r, s);
    case Num(_) => TokensEqual(a.token, b.token, r, s);
    case Str(_) => StringsEqual(d, a.s, b.s, r, s);
    case Arr(items) =>
      SplitAfter([OPEN_BRACKET], PrintItems(d, items, true, r), PrintItems(d, b.items, true, s));
      UniqueItems(d, items, b.items, true, r, s);
    case Obj(ms) =>
      SplitAfter([OPEN_BRACE], PrintMembers(d, ms, true, r), PrintMembers(d, b.members, true, s));
      UniqueMembers(d, ms, b.members, true, r, s);
  }

  lemma ItemsStart(d: Dialect, a: seq<Doc>, first: bool, r: Text)
    requires forall i :: 0 <= i < |a| ==> ValidDoc(a[i])
    ensures |PrintItems(d, a, first, r)| > 0
    ensures PrintItems(d, a, first, r)[0] == CLOSE_BRACKET <==> a == []
    ensures !first ==> Delimited(PrintItems(d, a, first, r))
  {
    if a != [] {
      PrintStarts(d, a[0], PrintItems(d, a[1..], false, r));
    }
  }

  lemma {:induction false} UniqueItems(d: Dialect, a: seq<Doc>, b: seq<Doc>, first: bool, r: Text, s: Text)
    requires forall i :: 0 <= i < |a| ==> ValidDoc(a[i])
    requires forall i :: 0 <= i < |b| ==> ValidDoc(b[i])
    requires PrintItems(d, a, first, r) == PrintItems(d, b, first, s)
    ensures a == b && r == s
    decreases a, 0
  {
    ItemsStart(d, a, first, r);
    ItemsStart(d, b, first, s);
    if a == [] {
      SplitAfter([CLOSE_BRACKET], r, s);
    } else {
      var x, y := PrintItems(d, a[1..], false, r), PrintItems(d, b[1..], false, s);
      SplitAfter(Separator(first), PrintBefore(d, a[0], x), PrintBefore(d, b[0], y));
      ItemsStart(d, a[1..], false, r);
      ItemsStart(d, b[1..], false, s);
      UniqueReading(d, a[0], b[0], x, y);
      UniqueItems(d, a[1..], b[1..], false, r, s);
      assert a == [a[0]] + a[1..] && b == [b[0]] + b[1..];
    }
  }

  lemma MembersStart(d: Dialect, a: seq<Member<Doc>>, first: bool, r: Text)
    ensures |PrintMembers(d, a, first, r)| > 0
    ensures PrintMembers(d, a, first, r)[0] == CLOSE_BRACE <==> a == []
    ensures !first ==> Delimited(PrintMembers(d, a, first, r))
  {
  }

  lemma {:induction false} UniqueMembers(d: Dialect, a: seq<Member<Doc>>, b: seq<Member<Doc>>, first: bool, r: Text, s: Text)
    requires forall i :: 0 <= i < |a| ==> ValidDoc(a[i].value)
    requires forall i :: 0 <= i < |b| ==> ValidDoc(b[i].value)
    requires PrintMembers(d, a, first, r) == PrintMembers(d, b, first, s)
    ensures a == b && r == s
    decreases a, 0
  {
    MembersStart(d, a, first, r);
    MembersStart(d, b, first, s);
    if a == [] {
      SplitAfter([CLOSE_BRACE], r, s);
    } else {
      var x, y := PrintMembers(d, a[1..], false, r), PrintMembers(d, b[1..], false, s);
      var va, vb := PrintBefore(d, a[0].value, x), PrintBefore(d, b[0].value, y);
      SplitAfter(Separator(first), PrintMember(d, a, r), PrintMember(d, b, s));
      StringsEqual(d, a[0].key, b[0].key, [COLON] + va, [COLON] + vb);
      SplitAfter([COLON], va, vb);
      MembersStart(d, a[1..], false, r);
      MembersStart(d, b[1..], false, s);
      UniqueReading(d, a[0].value, b[0].value, x, y);
      UniqueMembers(d, a[1..], b[1..], false, r, s);
      assert a == [a[0]] + a[1..] && b == [b[0]] + b[1..];
    }
  }
}
