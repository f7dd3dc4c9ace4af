/**
 The `canonical` printer of lib/protocol/proofs.js over JavaScript values, including the
 ones it rejects: holes and extra properties in arrays, non-plain objects, non-finite
 numbers, anything nested more than twenty levels deep.
 */
module CanonicalJs {
  import opened Prelude
  import opened Json
  import opened CanonicalForm

  /** A finite double other than negative zero is identified with the shortest decimal it prints as. */
  datatype JsFloat = Finite(token: Text) | NegativeZero | NonFinite

  datatype JsValue =
    | JsNull
    | JsBool(b: bool)
    | JsString(s: Text)
    | JsNumber(n: JsFloat)
    | JsArray(slots: seq<Option<JsValue>>, extraKeys: nat)
    | JsObject(plain: bool, members: seq<Member<JsValue>>)
    | JsOther

  const LIMIT: nat := 64 * 1024
  const MAX_DEPTH: nat := 20

  /** What the JavaScript type system guarantees: printed tokens, and no object with a key twice. */
  ghost predicate WellTyped(v: JsValue) {
    match v
    case JsNumber(n) => n.Finite? ==> IsNumberToken(n.token)
    case JsArray(slots, _) => forall i :: 0 <= i < |slots| ==> slots[i].Some? ==> WellTyped(slots[i].value)
    case JsObject(_, ms) => DistinctKeys(ms) && forall i :: 0 <= i < |ms| ==> WellTyped(ms[i].value)
    case _ => true
  }

  // ------------------------------------------------------------------ the printer

  function FloatText(n: JsFloat): Text {
    if n.Finite? then n.token else Ascii("0")
  }

  /** `Object.keys(value).length` of an array: its filled slots and its extra properties. */
  function OwnKeys(slots: seq<Option<JsValue>>, extraKeys: nat): (n: nat)
    ensures n <= |slots| + extraKeys
    ensures n == |slots| + extraKeys <==> forall i :: 0 <= i < |slots| ==> slots[i].Some?
  {
    if slots == [] then extraKeys
    else (if slots[0].Some? then 1 else 0) + OwnKeys(slots[1..], extraKeys)
  }

  function JoinParts(parts: seq<Option<Text>>, first: bool): Text {
    if parts == [] then []
    else Separator(first) + parts[0].GetOr([]) + JoinParts(parts[1..], false)
  }

  function Room(depth: nat): nat {
    if depth > MAX_DEPTH then 0 else MAX_DEPTH + 1 - depth
  }

  function Canonical(v: JsValue, depth: nat): Option<Text>
    decreases Room(depth), 0
  {
    if depth > MAX_DEPTH then None
    else match v
      case JsNull => Some(Ascii("null"))
      case JsString(s) => Some(PrintString(JavaScript, s, []))
      case JsBool(b) => Some(if b then Ascii("true") else Ascii("false"))
      case JsNumber(n) => if n.NonFinite? then None else Some(FloatText(n))
      case JsArray(slots, extra) =>
        if |slots| > LIMIT || OwnKeys(slots, extra) != |slots| || !Dense(slots) then None
        else
          var parts := ItemParts(slots, depth + 1);
          if Complete(parts) then Some([OPEN_BRACKET] + JoinParts(parts, true) + [CLOSE_BRACKET]) else None
      case JsObject(plain, ms) =>
        if !plain then None
        else
          var parts := MemberParts(SortMembers(ms), depth + 1);
          if Complete(parts) then Some([OPEN_BRACE] + JoinParts(parts, true) + [CLOSE_BRACE]) else None
      case JsOther => None
  }

  predicate Dense(slots: seq<Option<JsValue>>) {
    forall i :: 0 <= i < |slots| ==> slots[i].Some?
  }

  predicate Complete(parts: seq<Option<Text>>) {
    forall i :: 0 <= i < |parts| ==> parts[i].Some?
  }

  function ItemParts(slots: seq<Option<JsValue>>, depth: nat): (r: seq<Option<Text>>)
    requires Dense(slots)
    ensures |r| == |slots| && forall i :: 0 <= i < |r| ==> r[i] == Canonical(slots[i].value, depth)
    decreases Room(depth), 1
  {
    seq(|slots|, i requires 0 <= i < |slots| => Canonical(slots[i].value, depth))
  }

  function MemberParts(ms: seq<Member<JsValue>>, depth: nat): (r: seq<Option<Text>>)
    ensures |r| == |ms|
    ensures forall i :: 0 <= i < |r| ==> r[i] == MemberPart(ms[i].key, Canonical(ms[i].value, depth))
    decreases Room(depth), 1
  {
    seq(|ms|, i requires 0 <= i < |ms| => MemberPart(ms[i].key, Canonical(ms[i].value, depth)))
  }

  function MemberPart(key: Text, value: Option<Text>): Option<Text> {
    if value.None? then None
    else Some(PrintString(JavaScript, key, []) + [COLON] + value.value)
  }

  // ------------------------------------------------------------------ exactly which values are accepted

  /** Only JSON values: dense short arrays, plain objects, finite numbers. */
  ghost predicate JsonOnly(v: JsValue) {
    match v
    case JsNumber(n) => !n.NonFinite?
    case JsArray(slots, extra) =>
      |slots| <= 65_536 && extra == 0
      && forall i :: 0 <= i < |slots| ==> slots[i].Some? && JsonOnly(slots[i].value)
    case JsObject(plain, ms) => plain && forall i :: 0 <= i < |ms| ==> JsonOnly(ms[i].value)
    case JsOther => false
    case _ => true
  }

  /** The value is nested at most `room` levels deep. */
  ghost predicate Fits(v: JsValue, room: int) {
    room >= 0 && match v
      case JsArray(slots, _) => forall i :: 0 <= i < |slots| ==> slots[i].Some? ==> Fits(slots[i].value, room - 1)
      case JsObject(_, ms) => forall i :: 0 <= i < |ms| ==> Fits(ms[i].value, room - 1)
      case _ => true
  }

  /** The printer accepts exactly the JSON values nested at most twenty levels deep. */
  lemma {:induction false} AcceptedExactly(v: JsValue, depth: nat)
    ensures Canonical(v, depth).Some? <==> JsonOnly(v) && Fits(v, 20 - depth)
    decreases v
  {
    if depth <= MAX_DEPTH {
      match v
      case JsArray(slots, extra) => AcceptedArray(slots, extra, depth);
      case JsObject(plain, ms) => AcceptedObject(plain, ms, depth);
      case _ =>
    }
  }

  lemma {:induction false} AcceptedArray(slots: seq<Option<JsValue>>, extra: nat, depth: nat)
    requires depth <= MAX_DEPTH
    ensures Canonical(JsArray(slots, extra), depth).Some? <==>
      JsonOnly(JsArray(slots, extra)) && Fits(JsArray(slots, extra), MAX_DEPTH - depth)
    decreases slots
  {
    JsonArray(slots, extra, MAX_DEPTH - depth);
    ArrayAccepted(slots, extra, depth);
    hide Canonical, JsonOnly, Fits;
    forall i | 0 <= i < |slots| && slots[i].Some?
      ensures Canonical(slots[i].value, depth + 1).Some? <==>
        JsonOnly(slots[i].value) && Fits(slots[i].value, MAX_DEPTH - depth - 1)
    {
      AcceptedExactly(slots[i].value, depth + 1);
    }
  }

  lemma JsonArray(slots: seq<Option<JsValue>>, extra: nat, room: nat)
    ensures JsonOnly(JsArray(slots, extra)) <==>
      |slots| <= LIMIT && extra == 0 && forall i :: 0 <= i < |slots| ==> slots[i].Some? && JsonOnly(slots[i].value)
    ensures Fits(JsArray(slots, extra), room) <==>
      forall i :: 0 <= i < |slots| ==> slots[i].Some? ==> Fits(slots[i].value, room - 1)
  {
  }

  lemma {:induction false} AcceptedObject(plain: bool, ms: seq<Member<JsValue>>, depth: nat)
    requires depth <= MAX_DEPTH
    ensures Canonical(JsObject(plain, ms), depth).Some? <==>
      JsonOnly(JsObject(plain, ms)) && Fits(JsObject(plain, ms), MAX_DEPTH - depth)
    decreases ms
  {
    JsonObject(plain, ms, MAX_DEPTH - depth);
    ObjectAccepted(plain, ms, depth);
    hide Canonical, JsonOnly, Fits;
    forall i | 0 <= i < |ms|
      ensures Canonical(ms[i].value, depth + 1).Some? <==>
        JsonOnly(ms[i].value) && Fits(ms[i].value, MAX_DEPTH - depth - 1)
    {
      AcceptedExactly(ms[i].value, depth + 1);
    }
  }

  lemma JsonObject(plain: bool, ms: seq<Member<JsValue>>, room: nat)
    ensures JsonOnly(JsObject(plain, ms)) <==> plain && forall i :: 0 <= i < |ms| ==> JsonOnly(ms[i].value)
    ensures Fits(JsObject(plain, ms), room) <==> forall i :: 0 <= i < |ms| ==> Fits(ms[i].value, room - 1)
  {
  }

  lemma ArrayAccepted(slots: seq<Option<JsValue>>, extra: nat, depth: nat)
    requires depth <= MAX_DEPTH
    ensures Canonical(JsArray(slots, extra), depth).Some? <==>
      |slots| <= LIMIT && extra == 0
      && forall i :: 0 <= i < |slots| ==> slots[i].Some? && Canonical(slots[i].value, depth + 1).Some?
  {
    if Dense(slots) {
      var parts := ItemParts(slots, depth + 1);
      assert Complete(parts) <==> forall i :: 0 <= i < |slots| ==> Canonical(slots[i].value, depth + 1).Some?;
    }
  }

  lemma ObjectAccepted(plain: bool, ms: seq<Member<JsValue>>, depth: nat)
    requires depth <= MAX_DEPTH
    ensures Canonical(JsObject(plain, ms), depth).Some? <==>
      plain && forall i :: 0 <= i < |ms| ==> Canonical(ms[i].value, depth + 1).Some?
  {
    var sorted := SortMembers(ms);
    var p := (x: JsValue) => Canonical(x, depth + 1).Some?;
    SortKeepsAll(ms, p);
    assert AllValues(ms, p) <==> forall i :: 0 <= i < |ms| ==> Canonical(ms[i].value, depth + 1).Some?;
    var parts := MemberParts(sorted, depth + 1);
    assert forall j :: 0 <= j < |sorted| ==> (parts[j].Some? <==> Canonical(sorted[j].value, depth + 1).Some?);
  }

  // ------------------------------------------------------------------ the printed text is the canonical text

  /** The JSON document a value denotes; negative zero denotes zero. */
  function ToDoc(v: JsValue): Doc {
    match v
    case JsBool(b) => Bool(b)
    case JsString(s) => Str(s)
    case JsNumber(n) => Num(FloatText(n))
    case JsArray(slots, _) =>
      Arr(seq(|slots|, i requires 0 <= i < |slots| => if slots[i].Some? then ToDoc(slots[i].value) else Null))
    case JsObject(_, ms) =>
      Obj(seq(|ms|, i requires 0 <= i < |ms| => Member(ms[i].key, ToDoc(ms[i].value))))
    case _ => Null
  }

  lemma {:induction false} ToDocValid(v: JsValue)
    requires WellTyped(v)
    ensures ValidDoc(ToDoc(v))
  {
    match v
    case JsArray(slots, _) =>
      forall i | 0 <= i < |slots| && slots[i].Some? ensures ValidDoc(ToDoc(slots[i].value)) {
        ToDocValid(slots[i].value);
      }
    case JsObject(_, ms) =>
      forall i | 0 <= i < |ms| ensures ValidDoc(ToDoc(ms[i].value)) {
        ToDocValid(ms[i].value);
      }
    case _ =>
  }

  /** What follows a printed document is only carried along. */
  lemma {:induction false} PrintAppend(d: Dialect, doc: Doc, r: Text, s: Text)
    ensures PrintBefore(d, doc, r + s) == PrintBefore(d, doc, r) + s
    decreases doc, 1
  {
    hide PrintString, PrintItems, PrintMembers, Ascii;
    match doc
    case Str(t) => PrintStringAppend(d, t, r, s);
    case Arr(items) =>
      ItemsAppend(d, items, true, r, s);
      assert [OPEN_BRACKET] + (PrintItems(d, items, true, r) + s) == [OPEN_BRACKET] + PrintItems(d, items, true, r) + s;
    case Obj(ms) =>
      MembersAppend(d, ms, true, r, s);
      assert [OPEN_BRACE] + (PrintMembers(d, ms, true, r) + s) == [OPEN_BRACE] + PrintMembers(d, ms, true, r) + s;
    case _ =>
  }

  lemma {:induction false} EscapeAppend(d: Dialect, t: Text, r: Text, s: Text)
    ensures Escape(d, t, r + s) == Escape(d, t, r) + s
    decreases |t|
  {
    if t != [] {
      EscapeAppend(d, t[1..], r, s);
      if |t| >= 2 {
        EscapeAppend(d, t[2..], r, s);
      }
    }
  }

  lemma PrintStringAppend(d: Dialect, t: Text, r: Text, s: Text)
    ensures PrintString(d, t, r + s) == PrintString(d, t, r) + s
  {
    assert [QUOTE] + (r + s) == ([QUOTE] + r) + s;
    EscapeAppend(d, t, [QUOTE] + r, s);
  }

  lemma {:induction false} ItemsAppend(d: Dialect, items: seq<Doc>, first: bool, r: Text, s: Text)
    ensures PrintItems(d, items, first, r + s) == PrintItems(d, items, first, r) + s
    decreases items, 0
  {
    if items != [] {
      ItemsAppend(d, items[1..], false, r, s);
      PrintAppend(d, items[0], PrintItems(d, items[1..], false, r), s);
    }
  }

  lemma {:induction false} MembersAppend(d: Dialect, ms: seq<Member<Doc>>, first: bool, r: Text, s: Text)
    ensures PrintMembers(d, ms, first, r + s) == PrintMembers(d, ms, first, r) + s
    decreases ms, 1
  {
    if ms != [] {
      MemberAppend(d, ms, r, s);
    }
  }

  lemma {:induction false} MemberAppend(d: Dialect, ms: seq<Member<Doc>>, r: Text, s: Text)
    requires ms != []
    ensures PrintMember(d, ms, r + s) == PrintMember(d, ms, r) + s
    decreases ms, 0
  {
    MembersAppend(d, ms[1..], false, r, s);
    var tail := PrintMembers(d, ms[1..], false, r);
    PrintAppend(d, ms[0].value, tail, s);
    var v := PrintBefore(d, ms[0].value, tail);
    assert [COLON] + (v + s) == ([COLON] + v) + s;
    PrintStringAppend(d, ms[0].key, [COLON] + v, s);
  }

  lemma {:induction false} JoinItems(items: seq<Doc>, parts: seq<Option<Text>>, first: bool)
    requires |parts| == |items|
    requires forall i :: 0 <= i < |items| ==> parts[i] == Some(Print(JavaScript, items[i]))
    ensures JoinParts(parts, first) + [CLOSE_BRACKET] == PrintItems(JavaScript, items, first, [])
  {
    hide Print, PrintBefore;
    if items == [] {
      assert [] + [CLOSE_BRACKET] == [CLOSE_BRACKET] + [];
    } else {
      JoinItems(items[1..], parts[1..], false);
      PrintThen(items[0], PrintItems(JavaScript, items[1..], false, []));
      Reassociate(Separator(first), Print(JavaScript, items[0]), JoinParts(parts[1..], false), [CLOSE_BRACKET]);
      assert JoinParts(parts, first) == Separator(first) + Print(JavaScript, items[0]) + JoinParts(parts[1..], false);
    }
  }

  lemma PrintThen(doc: Doc, tail: Text)
    ensures PrintBefore(JavaScript, doc, tail) == Print(JavaScript, doc) + tail
  {
    PrintAppend(JavaScript, doc, [], tail);
    assert [] + tail == tail;
  }

  lemma MemberPartBefore(m: Member<Doc>, tail: Text)
    ensures MemberPart(m.key, Some(Print(JavaScript, m.value))).value + tail
      == PrintString(JavaScript, m.key, [COLON] + PrintBefore(JavaScript, m.value, tail))
  {
    PrintAppend(JavaScript, m.value, [], tail);
    assert [] + tail == tail;
    var v := [COLON] + PrintBefore(JavaScript, m.value, tail);
    PrintStringAppend(JavaScript, m.key, [], v);
    assert [] + v == v;
    Reassociate(PrintString(JavaScript, m.key, []), [COLON], Print(JavaScript, m.value), tail);
  }

  lemma Reassociate(a: Text, b: Text, c: Text, e: Text)
    ensures a + b + c + e == a + (b + (c + e))
  {
  }

  lemma {:induction false} JoinMembers(ms: seq<Member<Doc>>, parts: seq<Option<Text>>, first: bool)
    requires |parts| == |ms|
    requires forall i :: 0 <= i < |ms| ==> parts[i] == MemberPart(ms[i].key, Some(Print(JavaScript, ms[i].value)))
    ensures JoinParts(parts, first) + [CLOSE_BRACE] == PrintMembers(JavaScript, ms, first, [])
  {
    if ms == [] {
      assert [] + [CLOSE_BRACE] == [CLOSE_BRACE] + [];
    } else {
      JoinMembers(ms[1..], parts[1..], false);
      MemberPartBefore(ms[0], PrintMembers(JavaScript, ms[1..], false, []));
      Reassociate(Separator(first), parts[0].value, JoinParts(parts[1..], false), [CLOSE_BRACE]);
      assert JoinParts(parts, first) == Separator(first) + parts[0].value + JoinParts(parts[1..], false);
    }
  }

  function MapValues<V(!new), W(!new)>(f: V -> W, ms: seq<Member<V>>): (r: seq<Member<W>>)
    ensures |r| == |ms|
    ensures forall i :: 0 <= i < |ms| ==> r[i] == Member(ms[i].key, f(ms[i].value))
  {
    if ms == [] then [] else [Member(ms[0].key, f(ms[0].value))] + MapValues(f, ms[1..])
  }

  lemma {:induction false} InsertMaps<V(!new), W(!new)>(f: V -> W, m: Member<V>, ms: seq<Member<V>>)
    ensures InsertMember(Member(m.key, f(m.value)), MapValues(f, ms)) == MapValues(f, InsertMember(m, ms))
  {
    if ms != [] {
      InsertMaps(f, m, ms[1..]);
    }
  }

  /** Sorting by key does not look at the values. */
  lemma {:induction false} SortMaps<V(!new), W(!new)>(f: V -> W, ms: seq<Member<V>>)
    ensures SortMembers(MapValues(f, ms)) == MapValues(f, SortMembers(ms))
  {
    if ms != [] {
      SortMaps(f, ms[1..]);
      InsertMaps(f, ms[0], SortMembers(ms[1..]));
    }
  }

  /** An accepted value prints as the canonical text of its document. */
  lemma {:induction false} PrintsCanonicalText(v: JsValue, depth: nat)
    requires Canonical(v, depth).Some?
    ensures Canonical(v, depth).value == CanonicalText(JavaScript, ToDoc(v))
    decreases Room(depth), 1
  {
    match v
    case JsArray(slots, extra) => ArrayPrints(slots, extra, depth);
    case JsObject(_, ms) => ObjectPrints(ms, depth);
    case _ =>
  }

  lemma {:induction false} ArrayPrints(slots: seq<Option<JsValue>>, extra: nat, depth: nat)
    requires Canonical(JsArray(slots, extra), depth).Some?
    ensures Canonical(JsArray(slots, extra), depth).value == CanonicalText(JavaScript, ToDoc(JsArray(slots, extra)))
    decreases Room(depth), 0
  {
    var parts := ItemParts(slots, depth + 1);
    var items := Normal(ToDoc(JsArray(slots, extra))).items;
    forall i | 0 <= i < |slots| ensures parts[i] == Some(Print(JavaScript, items[i])) {
      PrintsCanonicalText(slots[i].value, depth + 1);
    }
    JoinItems(items, parts, true);
    assert [OPEN_BRACKET] + JoinParts(parts, true) + [CLOSE_BRACKET]
        == [OPEN_BRACKET] + (JoinParts(parts, true) + [CLOSE_BRACKET]);
  }

  lemma ObjectText(ms: seq<Member<JsValue>>, depth: nat)
    requires Canonical(JsObject(true, ms), depth).Some?
    ensures depth <= MAX_DEPTH
    ensures var parts := MemberParts(SortMembers(ms), depth + 1);
      && Complete(parts)
      && Canonical(JsObject(true, ms), depth).value == [OPEN_BRACE] + JoinParts(parts, true) + [CLOSE_BRACE]
  {
  }

  function NormalDoc(v: JsValue): Doc { Normal(ToDoc(v)) }

  lemma ObjectCanonicalText(ms: seq<Member<JsValue>>)
    ensures CanonicalText(JavaScript, ToDoc(JsObject(true, ms)))
      == [OPEN_BRACE] + PrintMembers(JavaScript, MapValues(NormalDoc, SortMembers(ms)), true, [])
  {
    hide SortMembers, PrintMembers;
    assert NormalMembers(ToDoc(JsObject(true, ms)).members) == MapValues(NormalDoc, ms);
    SortMaps(NormalDoc, ms);
  }

  lemma {:induction false} ObjectPrints(ms: seq<Member<JsValue>>, depth: nat)
    requires Canonical(JsObject(true, ms), depth).Some?
    ensures Canonical(JsObject(true, ms), depth).value == CanonicalText(JavaScript, ToDoc(JsObject(true, ms)))
    decreases Room(depth), 0
  {
    ObjectText(ms, depth);
    ObjectCanonicalText(ms);
    hide Canonical, CanonicalText, ToDoc, JoinParts, PrintMembers, SortMembers, MapValues;
    var sorted := SortMembers(ms);
    var parts, members := MemberParts(sorted, depth + 1), MapValues(NormalDoc, sorted);
    forall i | 0 <= i < |sorted|
      ensures parts[i] == MemberPart(members[i].key, Some(Print(JavaScript, members[i].value)))
    {
      PartPrints(sorted[i], depth + 1, parts[i]);
    }
    JoinMembers(members, parts, true);
    assert [OPEN_BRACE] + JoinParts(parts, true) + [CLOSE_BRACE]
        == [OPEN_BRACE] + (JoinParts(parts, true) + [CLOSE_BRACE]);
  }

  lemma {:induction false} PartPrints(m: Member<JsValue>, depth: nat, part: Option<Text>)
    requires depth > 0 && part.Some? && part == MemberPart(m.key, Canonical(m.value, depth))
    ensures part == MemberPart(m.key, Some(Print(JavaScript, NormalDoc(m.value))))
    decreases Room(depth), 2
  {
    PrintsCanonicalText(m.value, depth);
  }

  // ------------------------------------------------------------------ main results

  /** Two accepted values print alike exactly when they are the same JSON value, negative zero read as zero. */
  lemma CanonicalIsFaithful(a: JsValue, b: JsValue)
    requires WellTyped(a) && WellTyped(b)
    requires Canonical(a, 0).Some? && Canonical(b, 0).Some?
    ensures ValidDoc(ToDoc(a)) && ValidDoc(ToDoc(b))
    ensures Canonical(a, 0) == Canonical(b, 0) <==> Meaning(ToDoc(a)) == Meaning(ToDoc(b))
  {
    ToDocValid(a);
    ToDocValid(b);
    PrintsCanonicalText(a, 0);
    PrintsCanonicalText(b, 0);
    CanonicalTextIsValue(JavaScript, ToDoc(a), ToDoc(b));
  }

  /** Reordering the members of an object never changes the outcome, accepted or rejected. */
  lemma KeyOrderIrrelevant(plain: bool, ms: seq<Member<JsValue>>, ns: seq<Member<JsValue>>, depth: nat)
    requires DistinctKeys(ms) && DistinctKeys(ns) && forall x :: x in ms <==> x in ns
    ensures Canonical(JsObject(plain, ms), depth) == Canonical(JsObject(plain, ns), depth)
  {
    SortSorts(ms);
    SortSorts(ns);
    SortedUnique(SortMembers(ms), SortMembers(ns));
  }

  function Utf8Length(t: Text): nat {
    if t == [] then 0
    else (if t[0] < 128 then 1 else if t[0] < 2048 || Surrogate(t[0]) then 2 else 3) + Utf8Length(t[1..])
  }

  /** `hashPrivateEvidenceLocally`: the digest of the canonical text, unless it is too long. */
  function HashEvidence(sha: Text -> Text, v: JsValue): Option<Text> {
    var encoded :- Canonical(v, 0);
    if Utf8Length(encoded) > LIMIT then None else Some(sha(encoded))
  }

  /** The UTF-8 bytes of a text: one, two or three a unit, two for each half of a surrogate pair. */
  lemma {:induction false} Utf8Counts(t: Text, u: Unit)
    ensures Utf8Length([]) == 0
    ensures Utf8Length(t + [u]) == Utf8Length(t)
      + if u <= 0x7F then 1 else if u <= 0x7FF || 0xD800 <= u <= 0xDFFF then 2 else 3
  {
    if t == [] {
      assert [] + [u] == [u] && [u][1..] == [];
    } else {
      Utf8Counts(t[1..], u);
      assert (t + [u])[1..] == t[1..] + [u];
    }
  }

  /** Exactly the JSON values nested at most twenty levels deep whose canonical text has at most 65536 bytes have
      a digest, and it is the digest of that text. */
  lemma HashEvidenceExactly(sha: Text -> Text, v: JsValue)
    requires WellTyped(v)
    ensures var text := CanonicalText(JavaScript, ToDoc(v));
      HashEvidence(sha, v) == if JsonOnly(v) && Fits(v, 20) && Utf8Length(text) <= 65_536 then Some(sha(text)) else None
  {
    hide Canonical, JsonOnly, Fits, ToDoc, CanonicalText, Utf8Length, WellTyped;
    AcceptedExactly(v, 0);
    if Canonical(v, 0).Some? { PrintsCanonicalText(v, 0); }
  }

  /** Without a collision between the two encoded texts, equal digests mean the same evidence. */
  lemma SameDigestSameEvidence(sha: Text -> Text, a: JsValue, b: JsValue)
    requires WellTyped(a) && WellTyped(b)
    requires HashEvidence(sha, a).Some? && HashEvidence(sha, a) == HashEvidence(sha, b)
    requires sha(Canonical(a, 0).value) == sha(Canonical(b, 0).value) ==> Canonical(a, 0) == Canonical(b, 0)
    ensures ValidDoc(ToDoc(a)) && ValidDoc(ToDoc(b)) && Meaning(ToDoc(a)) == Meaning(ToDoc(b))
  {
    CanonicalIsFaithful(a, b);
  }
}
