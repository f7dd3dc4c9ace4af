/** JSON objects with a fixed, ascending list of keys, as the ledger serialises its rows and receipts. */
module Records {
  import opened Prelude
  import opened Json
  import opened CanonicalForm
  import opened PythonText

  function Record(keys: seq<Text>, values: seq<Doc>): (r: seq<Member<Doc>>)
    requires |keys| == |values|
    ensures |r| == |keys|
    ensures forall i :: 0 <= i < |keys| ==> r[i].key == keys[i] && r[i].value == values[i]
  {
    seq(|keys|, i requires 0 <= i < |keys| => Member(keys[i], values[i]))
  }

  ghost predicate Ascending(keys: seq<Text>) {
    forall i, j :: 0 <= i < j < |keys| ==> Less(keys[i], keys[j])
  }

  /** Two keys compare by their first difference. */
  lemma {:induction false} LessAt(a: Text, b: Text, k: nat)
    requires k <= |a| && k < |b| && a[..k] == b[..k] && (k == |a| || a[k] < b[k])
    ensures Less(a, b)
  {
    if k > 0 {
      assert a[0] == a[..k][0] == b[..k][0] == b[0];
      assert a[1..][..k - 1] == a[..k][1..] == b[..k][1..] == b[1..][..k - 1];
      LessAt(a[1..], b[1..], k - 1);
    }
  }

  lemma AsciiLess(a: string, b: string, k: nat)
    requires k <= |a| && k < |b| && a[..k] == b[..k] && (k == |a| || a[k] < b[k])
    ensures Less(Ascii(a), Ascii(b))
  {
    forall i | 0 <= i < k ensures a[i] == b[i] {
      assert a[..k][i] == b[..k][i];
    }
    assert Ascii(a)[..k] == Ascii(b)[..k];
    LessAt(Ascii(a), Ascii(b), k);
  }

  lemma {:induction false} AdjacentAscending(keys: seq<Text>)
    requires forall i :: 0 <= i < |keys| - 1 ==> Less(keys[i], keys[i + 1])
    ensures Ascending(keys)
  {
    if |keys| > 1 {
      var init := keys[..|keys| - 1];
      AdjacentAscending(init);
      var last := |keys| - 1;
      forall i | 0 <= i < last ensures Less(keys[i], keys[last]) {
        if i < last - 1 {
          assert Less(init[i], init[last - 1]);
          LessTransitive(keys[i], keys[last - 1], keys[last]);
        }
      }
      assert forall i, j :: 0 <= i < j < last ==> keys[i] == init[i] && keys[j] == init[j];
    }
  }

  /** With ascending keys nothing is moved: only the values are put in canonical form. */
  lemma RecordNormal(keys: seq<Text>, values: seq<Doc>)
    requires Ascending(keys) && |keys| == |values|
    ensures Normal(Obj(Record(keys, values))).members == NormalMembers(Record(keys, values))
    ensures DistinctKeys(Record(keys, values))
  {
    var ns := NormalMembers(Record(keys, values));
    assert Sorted(ns);
    SortedDistinct(ns);
    SortSorts(ns);
    SortedUnique(SortMembers(ns), ns);
  }

  lemma RecordsEqual(keys: seq<Text>, u: seq<Doc>, v: seq<Doc>)
    requires Ascending(keys) && |keys| == |u| == |v|
    requires Normal(Obj(Record(keys, u))) == Normal(Obj(Record(keys, v)))
    ensures forall i :: 0 <= i < |keys| ==> Normal(u[i]) == Normal(v[i])
  {
    RecordNormal(keys, u);
    RecordNormal(keys, v);
    var nu, nv := NormalMembers(Record(keys, u)), NormalMembers(Record(keys, v));
    forall i | 0 <= i < |keys| ensures Normal(u[i]) == Normal(v[i]) {
      assert nu[i].value == nv[i].value;
    }
  }

  lemma RecordValid(keys: seq<Text>, values: seq<Doc>)
    requires Ascending(keys) && |keys| == |values|
    requires forall i :: 0 <= i < |values| ==> ValidDoc(values[i])
    ensures ValidDoc(Obj(Record(keys, values)))
  {
    RecordNormal(keys, values);
  }

  // ------------------------------------------------------------------ values

  function OptionalText(t: Option<Text>): (d: Doc)
    ensures ValidDoc(d) && Normal(d) == d
  {
    if t.None? then Null else Str(t.value)
  }

  function Digits(n: nat): (t: Text)
    ensures IsNumberToken(t)
    ensures forall i :: 0 <= i < |t| ==> Digit(t[i])
  {
    if n < 10 then [48 + n] else Digits(n / 10) + [48 + n % 10]
  }

  /** `str(n)` of a Python integer. */
  function Decimal(n: int): (t: Text)
    ensures IsNumberToken(t) && Encodable(t)
  {
    if n >= 0 then Digits(n) else [MINUS] + Digits(-n)
  }

  // ------------------------------------------------------------------ encodable documents

  predicate EncodableDoc(d: Doc) {
    match d
    case Num(token) => Encodable(token)
    case Str(s) => Encodable(s)
    case Arr(items) => forall i :: 0 <= i < |items| ==> EncodableDoc(items[i])
    case Obj(ms) => forall i :: 0 <= i < |ms| ==> Encodable(ms[i].key) && EncodableDoc(ms[i].value)
    case _ => true
  }

  lemma {:induction false} EscapeEncodable(s: Text, rest: Text)
    requires Encodable(s) && Encodable(rest)
    ensures Encodable(Escape(Python, s, rest))
    decreases |s|
  {
    if s != [] {
      EscapeEncodable(s[1..], rest);
      assert Encodable(EscapeUnit(Python, s[0]));
    }
  }

  lemma {:induction false} PrintEncodable(d: Doc, rest: Text)
    requires EncodableDoc(d) && Encodable(rest)
    ensures Encodable(PrintBefore(Python, d, rest))
    decreases d, 1
  {
    match d
    case Str(s) => EscapeEncodable(s, [QUOTE] + rest);
    case Arr(items) => ItemsEncodable(items, true, rest);
    case Obj(ms) => MembersEncodable(ms, true, rest);
    case _ =>
  }

  lemma {:induction false} ItemsEncodable(items: seq<Doc>, first: bool, rest: Text)
    requires EncodableDoc(Arr(items)) && Encodable(rest)
    ensures Encodable(PrintItems(Python, items, first, rest))
    decreases items, 0
  {
    if items != [] {
      ItemsEncodable(items[1..], false, rest);
      PrintEncodable(items[0], PrintItems(Python, items[1..], false, rest));
    }
  }

  lemma {:induction false} MembersEncodable(ms: seq<Member<Doc>>, first: bool, rest: Text)
    requires EncodableDoc(Obj(ms)) && Encodable(rest)
    ensures Encodable(PrintMembers(Python, ms, first, rest))
    decreases ms, 0
  {
    if ms != [] {
      MembersEncodable(ms[1..], false, rest);
      var tail := PrintMembers(Python, ms[1..], false, rest);
      PrintEncodable(ms[0].value, tail);
      EscapeEncodable(ms[0].key, [QUOTE] + ([COLON] + PrintBefore(Python, ms[0].value, tail)));
    }
  }

  lemma {:induction false} NormalEncodable(d: Doc)
    requires EncodableDoc(d)
    ensures EncodableDoc(Normal(d))
  {
    match d
    case Arr(items) =>
      forall i | 0 <= i < |items| ensures EncodableDoc(Normal(items[i])) {
        NormalEncodable(items[i]);
      }
    case Obj(ms) =>
      var ns := NormalMembers(ms);
      forall i | 0 <= i < |ms| ensures Encodable(ns[i].key) && EncodableDoc(ns[i].value) {
        NormalEncodable(ms[i].value);
      }
      var ss := SortMembers(ns);
      forall j | 0 <= j < |ss| ensures Encodable(ss[j].key) && EncodableDoc(ss[j].value) {
        assert ss[j] in ns;
      }
    case _ =>
  }

  /** A document without surrogates has an encodable canonical text. */
  lemma CanonicalEncodable(d: Doc)
    requires EncodableDoc(d)
    ensures Encodable(CanonicalText(Python, d))
  {
    NormalEncodable(d);
    PrintEncodable(Normal(d), []);
  }

  lemma EncodableParts(a: Text, b: Text)
    ensures Encodable(a + b) <==> Encodable(a) && Encodable(b)
  {
    if Encodable(a + b) {
      assert forall i :: 0 <= i < |a| ==> (a + b)[i] == a[i];
      assert forall i :: 0 <= i < |b| ==> (a + b)[|a| + i] == b[i];
    }
  }

  lemma SurrogateKept(u: Unit)
    requires Surrogate(u)
    ensures !Encodable(EscapeUnit(Python, u))
  {
    assert EscapeUnit(Python, u)[0] == u;
  }

  lemma {:induction false} EscapeEncodableBack(s: Text, rest: Text)
    requires Encodable(Escape(Python, s, rest))
    ensures Encodable(s) && Encodable(rest)
    decreases |s|
  {
    if s != [] {
      EncodableParts(EscapeUnit(Python, s[0]), Escape(Python, s[1..], rest));
      EscapeEncodableBack(s[1..], rest);
      EncodableParts([s[0]], s[1..]);
      assert s == [s[0]] + s[1..];
      if Surrogate(s[0]) { SurrogateKept(s[0]); }
    }
  }

  lemma StringEncodableBack(s: Text, rest: Text)
    requires Encodable(PrintString(Python, s, rest))
    ensures Encodable(s) && Encodable(rest)
  {
    EncodableParts([QUOTE], Escape(Python, s, [QUOTE] + rest));
    EscapeEncodableBack(s, [QUOTE] + rest);
    EncodableParts([QUOTE], rest);
  }

  lemma {:induction false} PrintEncodableBack(d: Doc, rest: Text)
    requires Encodable(PrintBefore(Python, d, rest))
    ensures EncodableDoc(d) && Encodable(rest)
    decreases d, 1
  {
    match d
    case Null => EncodableParts(Ascii("null"), rest);
    case Bool(b) => EncodableParts(if b then Ascii("true") else Ascii("false"), rest);
    case Num(token) => EncodableParts(token, rest);
    case Str(s) => StringEncodableBack(s, rest);
    case Arr(items) =>
      EncodableParts([OPEN_BRACKET], PrintItems(Python, items, true, rest));
      ItemsEncodableBack(items, true, rest);
    case Obj(ms) =>
      EncodableParts([OPEN_BRACE], PrintMembers(Python, ms, true, rest));
      MembersEncodableBack(ms, true, rest);
  }

  lemma {:induction false} ItemsEncodableBack(items: seq<Doc>, first: bool, rest: Text)
    requires Encodable(PrintItems(Python, items, first, rest))
    ensures EncodableDoc(Arr(items)) && Encodable(rest)
    decreases items, 0
  {
    if items == [] {
      EncodableParts([CLOSE_BRACKET], rest);
    } else {
      var tail := PrintItems(Python, items[1..], false, rest);
      EncodableParts(Separator(first), PrintBefore(Python, items[0], tail));
      PrintEncodableBack(items[0], tail);
      ItemsEncodableBack(items[1..], false, rest);
      assert forall i :: 1 <= i < |items| ==> items[i] == items[1..][i - 1];
    }
  }

  lemma {:induction false} MembersEncodableBack(ms: seq<Member<Doc>>, first: bool, rest: Text)
    requires Encodable(PrintMembers(Python, ms, first, rest))
    ensures EncodableDoc(Obj(ms)) && Encodable(rest)
    decreases ms, 0
  {
    if ms == [] {
      EncodableParts([CLOSE_BRACE], rest);
    } else {
      var tail := PrintMembers(Python, ms[1..], false, rest);
      var value := PrintBefore(Python, ms[0].value, tail);
      EncodableParts(Separator(first), PrintMember(Python, ms, rest));
      StringEncodableBack(ms[0].key, [COLON] + value);
      EncodableParts([COLON], value);
      PrintEncodableBack(ms[0].value, tail);
      MembersEncodableBack(ms[1..], false, rest);
      assert forall i :: 1 <= i < |ms| ==> ms[i] == ms[1..][i - 1];
    }
  }

  lemma {:induction false} NormalEncodableBack(d: Doc)
    requires EncodableDoc(Normal(d))
    ensures EncodableDoc(d)
  {
    match d
    case Arr(items) =>
      forall i | 0 <= i < |items| ensures EncodableDoc(items[i]) {
        assert Normal(d).items[i] == Normal(items[i]);
        NormalEncodableBack(items[i]);
      }
    case Obj(ms) =>
      var ns := NormalMembers(ms);
      var ss := SortMembers(ns);
      forall i | 0 <= i < |ms| ensures Encodable(ms[i].key) && EncodableDoc(ms[i].value) {
        assert ns[i] in ss;
        var j :| 0 <= j < |ss| && ss[j] == ns[i];
        assert Encodable(ss[j].key) && EncodableDoc(ss[j].value);
        NormalEncodableBack(ms[i].value);
      }
    case _ =>
  }

  /** A canonical text can be digested exactly when no text in the document holds a surrogate. */
  lemma CanonicalEncodableExactly(d: Doc)
    ensures Encodable(CanonicalText(Python, d)) <==> EncodableDoc(d)
  {
    if EncodableDoc(d) { CanonicalEncodable(d); }
    if Encodable(CanonicalText(Python, d)) {
      PrintEncodableBack(Normal(d), []);
      NormalEncodableBack(d);
    }
  }
}
