/**
 How the printers spell a document, character by character, as `json.dumps` with the compact
 separators and `JSON.stringify` do.
 */
module JsonSpelling {
  import opened Prelude
  import opened Json
  import opened CanonicalForm
  import opened Records
  import CanonicalJs

  // ------------------------------------------------------------------ strings

  /** A high surrogate before a low one, or a low one after a high one. */
  predicate Paired(s: Text, k: nat)
    requires k < |s|
  {
    || (0xD800 <= s[k] <= 0xDBFF && k + 1 < |s| && 0xDC00 <= s[k + 1] <= 0xDFFF)
    || (0xDC00 <= s[k] <= 0xDFFF && k > 0 && 0xD800 <= s[k - 1] <= 0xDBFF)
  }

  function HexOf(n: nat): Text
    requires n < 16
  {
    [Ascii("0123456789abcdef")[n]]
  }

  /** The spelling of one unit: short escapes where JSON has them, \\u00xx for other control characters,
      \\uxxxx for a lone surrogate in JavaScript, and the unit itself otherwise. */
  function Spelled(d: Dialect, s: Text, k: nat): Text
    requires k < |s|
  {
    var u := s[k];
    if u == '"' as int then Ascii("\\\"")
    else if u == '\\' as int then Ascii("\\\\")
    else if u == 8 then Ascii("\\b")
    else if u == '\t' as int then Ascii("\\t")
    else if u == '\n' as int then Ascii("\\n")
    else if u == 12 then Ascii("\\f")
    else if u == '\r' as int then Ascii("\\r")
    else if u < 32 then Ascii("\\u00") + HexOf(u / 16) + HexOf(u % 16)
    else if d.JavaScript? && 0xD800 <= u <= 0xDFFF && !Paired(s, k) then
      Ascii("\\u") + HexOf(u / 4096) + HexOf(u / 256 % 16) + HexOf(u / 16 % 16) + HexOf(u % 16)
    else [u]
  }

  function SpelledFrom(d: Dialect, s: Text, k: nat): Text
    requires k <= |s|
    decreases |s| - k
  {
    if k == |s| then [] else Spelled(d, s, k) + SpelledFrom(d, s, k + 1)
  }

  lemma HexDigits(n: nat)
    requires n < 16
    ensures [HexDigit(n)] == HexOf(n)
  {
  }

  lemma HexSpelled(u: Unit)
    requires u < 0x1_0000
    ensures u / 4096 < 16
    ensures Hex4(u) == HexOf(u / 4096) + HexOf(u / 256 % 16) + HexOf(u / 16 % 16) + HexOf(u % 16)
  {
    Nibbles(u);
    HexDigits(u / 4096);
    HexDigits(u / 256 % 16);
    HexDigits(u / 16 % 16);
    HexDigits(u % 16);
    hide HexDigit, HexOf;
  }

  lemma ControlSpelled(u: Unit)
    requires u < 32
    ensures [BACKSLASH, LETTER_U] + Hex4(u) == Ascii("\\u00") + HexOf(u / 16) + HexOf(u % 16)
  {
    HexSpelled(u);
    assert HexOf(0) == Ascii("0");
    assert u / 4096 == 0 && u / 256 % 16 == 0 && u / 16 % 16 == u / 16;
    hide HexOf, Hex4;
    assert Ascii("\\u00") == [BACKSLASH, LETTER_U] + Ascii("0") + Ascii("0");
  }

  lemma ShortSpelled()
    ensures Ascii("\\\"") == [BACKSLASH, QUOTE] && Ascii("\\\\") == [BACKSLASH, BACKSLASH] && Ascii("\\u") == [BACKSLASH, LETTER_U]
    ensures Ascii("\\b") == [BACKSLASH, 98] && Ascii("\\t") == [BACKSLASH, 116] && Ascii("\\n") == [BACKSLASH, 110]
    ensures Ascii("\\f") == [BACKSLASH, 102] && Ascii("\\r") == [BACKSLASH, 114]
  {
  }

  lemma UnitSpelled(d: Dialect, s: Text, k: nat)
    requires k < |s| && (d.JavaScript? ==> !Paired(s, k))
    ensures EscapeUnit(d, s[k]) == Spelled(d, s, k)
  {
    var u := s[k];
    ShortSpelled();
    if u < 32 { ControlSpelled(u); }
    if Surrogate(u) { SurrogateSpelled(u); }
    hide Hex4, HexOf, Ascii, Paired;
  }

  lemma SurrogateSpelled(u: Unit)
    requires Surrogate(u)
    ensures u / 4096 < 16
    ensures [BACKSLASH, LETTER_U] + Hex4(u)
      == Ascii("\\u") + HexOf(u / 4096) + HexOf(u / 256 % 16) + HexOf(u / 16 % 16) + HexOf(u % 16)
  {
    HexSpelled(u);
    ShortSpelled();
    hide Hex4, HexOf, Ascii;
  }

  lemma {:induction false} EscapeSpelled(d: Dialect, s: Text, k: nat, rest: Text)
    requires k <= |s| && (0 < k < |s| ==> !(HighSurrogate(s[k - 1]) && LowSurrogate(s[k])))
    ensures Escape(d, s[k..], rest) == SpelledFrom(d, s, k) + rest
    decreases |s| - k
  {
    hide Escape, SpelledFrom, Spelled, EscapeUnit, Paired;
    if k == |s| {
      EscapeEnd(d, s, rest);
    } else {
      if k + 1 < |s| && HighSurrogate(s[k]) && LowSurrogate(s[k + 1]) {
        EscapeSpelled(d, s, k + 2, rest);
        PairSpelled(d, s, k, rest);
      } else {
        EscapeSpelled(d, s, k + 1, rest);
        OneSpelled(d, s, k, rest);
      }
    }
  }

  lemma EscapeEnd(d: Dialect, s: Text, rest: Text)
    ensures Escape(d, s[|s|..], rest) == SpelledFrom(d, s, |s|) + rest
  {
  }

  lemma OneSpelled(d: Dialect, s: Text, k: nat, rest: Text)
    requires k < |s| && !(k + 1 < |s| && HighSurrogate(s[k]) && LowSurrogate(s[k + 1]))
    requires 0 < k ==> !(HighSurrogate(s[k - 1]) && LowSurrogate(s[k]))
    requires Escape(d, s[k + 1..], rest) == SpelledFrom(d, s, k + 1) + rest
    ensures Escape(d, s[k..], rest) == SpelledFrom(d, s, k) + rest
  {
    hide Spelled, EscapeUnit, Escape, SpelledFrom, Paired;
    NotPaired(s, k);
    EscapeOne(d, s, k, rest);
    UnitSpelled(d, s, k);
    SpelledStep(d, s, k);
    Associate(Spelled(d, s, k), SpelledFrom(d, s, k + 1), rest);
  }

  lemma NotPaired(s: Text, k: nat)
    requires k < |s| && !(k + 1 < |s| && HighSurrogate(s[k]) && LowSurrogate(s[k + 1]))
    requires 0 < k ==> !(HighSurrogate(s[k - 1]) && LowSurrogate(s[k]))
    ensures !Paired(s, k)
  {
  }

  lemma SpelledStep(d: Dialect, s: Text, k: nat)
    requires k < |s|
    ensures SpelledFrom(d, s, k) == Spelled(d, s, k) + SpelledFrom(d, s, k + 1)
  {
  }

  lemma Associate(a: Text, b: Text, c: Text)
    ensures a + (b + c) == a + b + c
  {
  }

  lemma EscapeOne(d: Dialect, s: Text, k: nat, rest: Text)
    requires k < |s| && !(k + 1 < |s| && HighSurrogate(s[k]) && LowSurrogate(s[k + 1]))
    ensures Escape(d, s[k..], rest) == EscapeUnit(d, s[k]) + Escape(d, s[k + 1..], rest)
  {
    hide EscapeUnit;
    assert s[k..][1..] == s[k + 1..];
    if k + 1 < |s| { assert s[k..][1] == s[k + 1]; }
  }

  lemma PairSpelled(d: Dialect, s: Text, k: nat, rest: Text)
    requires k + 1 < |s| && HighSurrogate(s[k]) && LowSurrogate(s[k + 1])
    requires Escape(d, s[k + 2..], rest) == SpelledFrom(d, s, k + 2) + rest
    ensures Escape(d, s[k..], rest) == SpelledFrom(d, s, k) + rest
  {
    PairEscaped(d, s, k, rest);
    PairVerbatim(d, s, k);
    hide Escape, SpelledFrom;
    CanonicalJs.Reassociate([s[k]], [s[k + 1]], SpelledFrom(d, s, k + 2), rest);
  }

  lemma PairEscaped(d: Dialect, s: Text, k: nat, rest: Text)
    requires k + 1 < |s| && HighSurrogate(s[k]) && LowSurrogate(s[k + 1])
    ensures Escape(d, s[k..], rest) == [s[k]] + ([s[k + 1]] + Escape(d, s[k + 2..], rest))
  {
    if d.JavaScript? {
      assert s[k..][2..] == s[k + 2..] && s[k..][1] == s[k + 1];
    } else {
      EscapeOne(d, s, k + 1, rest);
      PythonFirst(s, k, rest);
    }
  }

  lemma PairVerbatim(d: Dialect, s: Text, k: nat)
    requires k + 1 < |s| && HighSurrogate(s[k]) && LowSurrogate(s[k + 1])
    ensures SpelledFrom(d, s, k) == [s[k]] + [s[k + 1]] + SpelledFrom(d, s, k + 2)
  {
    SurrogateVerbatim(d, s, k);
    SurrogateVerbatim(d, s, k + 1);
    hide Spelled, SpelledFrom;
    SpelledStep(d, s, k);
    SpelledStep(d, s, k + 1);
    Associate([s[k]], [s[k + 1]], SpelledFrom(d, s, k + 2));
  }

  lemma SurrogateVerbatim(d: Dialect, s: Text, k: nat)
    requires k < |s| && Surrogate(s[k]) && Paired(s, k)
    ensures Spelled(d, s, k) == [s[k]]
  {
    hide HexOf, Ascii, Paired;
  }

  lemma PythonFirst(s: Text, k: nat, rest: Text)
    requires k < |s| && HighSurrogate(s[k])
    ensures Escape(Python, s[k..], rest) == [s[k]] + Escape(Python, s[k + 1..], rest)
  {
    assert s[k..][1..] == s[k + 1..];
  }

  /** A printed string is its quoted spelling. */
  lemma StringSpelled(d: Dialect, s: Text)
    ensures Print(d, Str(s)) == Ascii("\"") + SpelledFrom(d, s, 0) + Ascii("\"")
  {
    EscapeSpelled(d, s, 0, [QUOTE]);
    assert s[0..] == s && [QUOTE] + [] == [QUOTE];
    assert Ascii("\"") == [QUOTE];
  }

  // ------------------------------------------------------------------ arrays and objects

  /** The parts in order, with a comma between each and the next. */
  function Joined(parts: seq<Text>): Text {
    if parts == [] then [] else parts[0] + Others(parts[1..])
  }

  function Others(parts: seq<Text>): Text {
    if parts == [] then [] else Ascii(",") + (parts[0] + Others(parts[1..]))
  }

  function Items(d: Dialect, items: seq<Doc>): (r: seq<Text>)
    ensures |r| == |items| && forall i :: 0 <= i < |r| ==> r[i] == Print(d, items[i])
  {
    seq(|items|, i requires 0 <= i < |items| => Print(d, items[i]))
  }

  function Members(d: Dialect, ms: seq<Member<Doc>>): (r: seq<Text>)
    ensures |r| == |ms|
    ensures forall i :: 0 <= i < |r| ==> r[i] == Print(d, Str(ms[i].key)) + Ascii(":") + Print(d, ms[i].value)
  {
    seq(|ms|, i requires 0 <= i < |ms| => Print(d, Str(ms[i].key)) + Ascii(":") + Print(d, ms[i].value))
  }

  lemma PrintThen(d: Dialect, doc: Doc, tail: Text)
    ensures PrintBefore(d, doc, tail) == Print(d, doc) + tail
  {
    CanonicalJs.PrintAppend(d, doc, [], tail);
    assert [] + tail == tail;
  }

  lemma {:induction false} OtherItems(d: Dialect, items: seq<Doc>)
    ensures PrintItems(d, items, false, []) == Others(Items(d, items)) + Ascii("]")
  {
    hide PrintBefore, Print;
    assert Ascii(",") == [COMMA] && Ascii("]") == [CLOSE_BRACKET];
    if items != [] {
      OtherItems(d, items[1..]);
      PrintThen(d, items[0], PrintItems(d, items[1..], false, []));
      assert Items(d, items)[1..] == Items(d, items[1..]);
      hide Ascii, PrintItems, Others;
      Associate(Print(d, items[0]), Others(Items(d, items[1..])), Ascii("]"));
      Associate(Ascii(","), Print(d, items[0]) + Others(Items(d, items[1..])), Ascii("]"));
      OthersStep(Items(d, items));
      ItemsStep(d, items, false);
    }
  }

  lemma OthersStep(parts: seq<Text>)
    requires parts != []
    ensures Others(parts) == Ascii(",") + (parts[0] + Others(parts[1..]))
  {
  }

  lemma ItemsStep(d: Dialect, items: seq<Doc>, first: bool)
    requires items != []
    ensures PrintItems(d, items, first, [])
      == (if first then [] else Ascii(",")) + PrintBefore(d, items[0], PrintItems(d, items[1..], false, []))
  {
    assert Ascii(",") == [COMMA];
  }

  lemma ItemsSpelled(d: Dialect, items: seq<Doc>)
    ensures PrintItems(d, items, true, []) == Joined(Items(d, items)) + Ascii("]")
  {
    assert Ascii("]") == [CLOSE_BRACKET];
    if items != [] {
      hide PrintBefore, Print, PrintItems, Others;
      ItemsStep(d, items, true);
      OtherItems(d, items[1..]);
      PrintThen(d, items[0], PrintItems(d, items[1..], false, []));
      assert Items(d, items)[1..] == Items(d, items[1..]);
      Associate(Print(d, items[0]), Others(Items(d, items[1..])), Ascii("]"));
    }
  }

  lemma MemberSpelled(d: Dialect, ms: seq<Member<Doc>>)
    requires ms != []
    ensures PrintMember(d, ms, []) == Members(d, ms)[0] + PrintMembers(d, ms[1..], false, [])
  {
    var m, tail := ms[0], PrintMembers(d, ms[1..], false, []);
    PrintThen(d, m.value, tail);
    KeyThen(d, m.key, [COLON] + (Print(d, m.value) + tail));
    hide PrintString, PrintBefore, PrintMembers, Print;
    assert Ascii(":") == [COLON];
    CanonicalJs.Reassociate(Print(d, Str(m.key)), Ascii(":"), Print(d, m.value), tail);
  }

  lemma KeyThen(d: Dialect, key: Text, tail: Text)
    ensures PrintString(d, key, tail) == Print(d, Str(key)) + tail
  {
    assert [] + tail == tail;
    CanonicalJs.PrintStringAppend(d, key, [], tail);
    PrintedKey(d, key);
  }

  lemma PrintedKey(d: Dialect, key: Text)
    ensures Print(d, Str(key)) == PrintString(d, key, [])
  {
  }

  lemma MembersStep(d: Dialect, ms: seq<Member<Doc>>, first: bool)
    requires ms != []
    ensures PrintMembers(d, ms, first, [])
      == (if first then [] else Ascii(",")) + (Members(d, ms)[0] + PrintMembers(d, ms[1..], false, []))
  {
    assert Ascii(",") == [COMMA];
    MemberSpelled(d, ms);
  }

  lemma {:induction false} OtherMembers(d: Dialect, ms: seq<Member<Doc>>)
    ensures PrintMembers(d, ms, false, []) == Others(Members(d, ms)) + Ascii("}")
  {
    assert Ascii("}") == [CLOSE_BRACE];
    if ms != [] {
      OtherMembers(d, ms[1..]);
      MembersStep(d, ms, false);
      assert Members(d, ms)[1..] == Members(d, ms[1..]);
      hide Ascii, PrintMembers, Others, Members;
      OthersStep(Members(d, ms));
      Associate(Members(d, ms)[0], Others(Members(d, ms[1..])), Ascii("}"));
      Associate(Ascii(","), Members(d, ms)[0] + Others(Members(d, ms[1..])), Ascii("}"));
    }
  }

  lemma MembersSpelled(d: Dialect, ms: seq<Member<Doc>>)
    ensures PrintMembers(d, ms, true, []) == Joined(Members(d, ms)) + Ascii("}")
  {
    assert Ascii("}") == [CLOSE_BRACE];
    if ms != [] {
      OtherMembers(d, ms[1..]);
      MembersStep(d, ms, true);
      assert Members(d, ms)[1..] == Members(d, ms[1..]);
      hide Ascii, PrintMembers, Others, Members;
      Associate(Members(d, ms)[0], Others(Members(d, ms[1..])), Ascii("}"));
    }
  }

  /** The printed forms: no white space, members as quoted key, colon and value, in the order given. */
  lemma DocumentSpelled(d: Dialect, items: seq<Doc>, ms: seq<Member<Doc>>, token: Text)
    ensures Print(d, Null) == Ascii("null") && Print(d, Bool(true)) == Ascii("true") && Print(d, Bool(false)) == Ascii("false")
    ensures Print(d, Num(token)) == token
    ensures Print(d, Arr(items)) == Ascii("[") + Joined(Items(d, items)) + Ascii("]")
    ensures Print(d, Obj(ms)) == Ascii("{") + Joined(Members(d, ms)) + Ascii("}")
  {
    ItemsSpelled(d, items);
    MembersSpelled(d, ms);
    hide PrintItems, PrintMembers, Joined, Items, Members;
    assert Ascii("[") == [OPEN_BRACKET] && Ascii("{") == [OPEN_BRACE];
  }

  // ------------------------------------------------------------------ integers

  function ValueOf(digits: Text): int {
    if digits == [] then 0 else 10 * ValueOf(digits[..|digits| - 1]) + (digits[|digits| - 1] - '0' as int)
  }

  lemma {:induction false} DigitsValue(n: nat)
    ensures ValueOf(Digits(n)) == n && (n > 0 ==> Digits(n)[0] != '0' as int)
  {
    if n >= 10 {
      DigitsValue(n / 10);
      var t := Digits(n);
      assert t[..|t| - 1] == Digits(n / 10);
    } else {
      assert Digits(n)[..0] == [];
    }
  }

  /** Decimal digits of the number, without a leading zero, after a minus sign when it is negative. */
  lemma DecimalSpelled(n: int)
    ensures var digits := if n < 0 then Decimal(n)[1..] else Decimal(n);
      && (n < 0 ==> Decimal(n)[0] == '-' as int)
      && digits != [] && (forall i :: 0 <= i < |digits| ==> '0' as int <= digits[i] <= '9' as int)
      && (|digits| > 1 ==> digits[0] != '0' as int)
      && ValueOf(digits) == if n < 0 then -n else n
  {
    DigitsValue(if n < 0 then -n else n);
    if n < 0 { assert Decimal(n)[1..] == Digits(-n); }
  }
}
