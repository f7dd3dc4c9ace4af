/**
 Canonical form: members sorted by key at every level. The meaning of a document is a
 value in which objects are maps, so it knows nothing of member order; canonical texts
 are equal exactly when meanings are.
 */
module CanonicalForm {
  import opened Json

  // ------------------------------------------------------------------ the key order

  /** Lexicographic order: by code point for Python, by UTF-16 code unit for JavaScript. */
  predicate Less(a: Text, b: Text) {
    if b == [] then false
    else if a == [] then true
    else a[0] < b[0] || (a[0] == b[0] && Less(a[1..], b[1..]))
  }

  lemma {:induction false} LessTransitive(a: Text, b: Text, c: Text)
    requires Less(a, b) && Less(b, c)
    ensures Less(a, c)
  {
    if a != [] && a[0] == b[0] == c[0] {
      LessTransitive(a[1..], b[1..], c[1..]);
    }
  }

  lemma {:induction false} LessTotal(a: Text, b: Text)
    ensures Less(a, b) || Less(b, a) || a == b
    ensures !(Less(a, b) && Less(b, a))
    ensures a == b ==> !Less(a, b)
  {
    if a != [] && b != [] {
      LessTotal(a[1..], b[1..]);
      assert a == [a[0]] + a[1..] && b == [b[0]] + b[1..];
    }
  }

  // ------------------------------------------------------------------ sorting members

  function InsertMember<V(!new)>(m: Member<V>, ms: seq<Member<V>>): (r: seq<Member<V>>)
    ensures forall x :: x in r <==> x == m || x in ms
    ensures |r| == |ms| + 1
  {
    if ms == [] then [m]
    else if Less(m.key, ms[0].key) then [m] + ms
    else [ms[0]] + InsertMember(m, ms[1..])
  }

  function SortMembers<V(!new)>(ms: seq<Member<V>>): (r: seq<Member<V>>)
    ensures forall x :: x in r <==> x in ms
    ensures |r| == |ms|
  {
    if ms == [] then [] else InsertMember(ms[0], SortMembers(ms[1..]))
  }

  ghost predicate AllValues<V(!new)>(ms: seq<Member<V>>, p: V -> bool) {
    forall i :: 0 <= i < |ms| ==> p(ms[i].value)
  }

  lemma SameElementsAll<V(!new)>(a: seq<Member<V>>, b: seq<Member<V>>, p: V -> bool)
    requires forall x :: x in a ==> x in b
    requires AllValues(b, p)
    ensures AllValues(a, p)
  {
    forall i | 0 <= i < |a| ensures p(a[i].value) {
      assert a[i] in b;
    }
  }

  lemma SortKeepsAll<V(!new)>(ms: seq<Member<V>>, p: V -> bool)
    ensures AllValues(SortMembers(ms), p) <==> AllValues(ms, p)
  {
    if AllValues(ms, p) {
      SameElementsAll(SortMembers(ms), ms, p);
    }
    if AllValues(SortMembers(ms), p) {
      SameElementsAll(ms, SortMembers(ms), p);
    }
  }

  ghost predicate Sorted<V(!new)>(ms: seq<Member<V>>) {
    forall i, j :: 0 <= i < j < |ms| ==> Less(ms[i].key, ms[j].key)
  }

  lemma {:induction false} InsertSorted<V(!new)>(m: Member<V>, ms: seq<Member<V>>)
    requires Sorted(ms) && forall x :: x in ms ==> x.key != m.key
    ensures Sorted(InsertMember(m, ms))
  {
    if ms != [] {
      LessTotal(m.key, ms[0].key);
      if Less(m.key, ms[0].key) {
        forall j | 0 <= j < |ms| ensures Less(m.key, ms[j].key) {
          if j > 0 { LessTransitive(m.key, ms[0].key, ms[j].key); }
        }
      } else {
        InsertSorted(m, ms[1..]);
        var r := InsertMember(m, ms[1..]);
        forall j | 0 <= j < |r| ensures Less(ms[0].key, r[j].key) {
          assert r[j] in r;
        }
      }
    }
  }

  lemma {:induction false} SortSorts<V(!new)>(ms: seq<Member<V>>)
    requires DistinctKeys(ms)
    ensures Sorted(SortMembers(ms))
  {
    if ms != [] {
      SortSorts(ms[1..]);
      InsertSorted(ms[0], SortMembers(ms[1..]));
    }
  }

  lemma SortedDistinct<V(!new)>(ms: seq<Member<V>>)
    requires Sorted(ms)
    ensures DistinctKeys(ms)
  {
    forall i, j | 0 <= i < j < |ms| ensures ms[i].key != ms[j].key {
      LessTotal(ms[i].key, ms[j].key);
    }
  }

  lemma SortedHead<V(!new)>(a: seq<Member<V>>, b: seq<Member<V>>)
    requires Sorted(a) && Sorted(b) && a != []
    requires forall x :: x in a <==> x in b
    ensures b != [] && a[0] == b[0]
    ensures forall x :: x in a[1..] <==> x in b[1..]
  {
    assert a[0] in b && b[0] in a;
    var i :| 0 <= i < |b| && b[i] == a[0];
    var j :| 0 <= j < |a| && a[j] == b[0];
    LessTotal(a[0].key, b[0].key);
    SortedDistinct(a);
    SortedDistinct(b);
    assert forall x :: x in a <==> x == a[0] || x in a[1..];
    assert forall x :: x in b <==> x == b[0] || x in b[1..];
    assert a[0] !in a[1..] && b[0] !in b[1..];
  }

  /** A strictly sorted list is determined by its elements. */
  lemma {:induction false} SortedUnique<V(!new)>(a: seq<Member<V>>, b: seq<Member<V>>)
    requires Sorted(a) && Sorted(b)
    requires forall x :: x in a <==> x in b
    ensures a == b
  {
    if a != [] {
      SortedHead(a, b);
      SortedUnique(a[1..], b[1..]);
      assert a == [a[0]] + a[1..] && b == [b[0]] + b[1..];
    } else if b != [] {
      SortedHead(b, a);
    }
  }

  // ------------------------------------------------------------------ canonical form and meaning

  function Normal(doc: Doc): Doc {
    match doc
    case Arr(items) => Arr(seq(|items|, i requires 0 <= i < |items| => Normal(items[i])))
    case Obj(ms) => Obj(SortMembers(NormalMembers(ms)))
    case _ => doc
  }

  function NormalMembers(ms: seq<Member<Doc>>): (r: seq<Member<Doc>>)
    ensures |r| == |ms|
    ensures forall i :: 0 <= i < |ms| ==> r[i].key == ms[i].key && r[i].value == Normal(ms[i].value)
  {
    seq(|ms|, i requires 0 <= i < |ms| => Member(ms[i].key, Normal(ms[i].value)))
  }

  function CanonicalText(d: Dialect, doc: Doc): Text {
    Print(d, Normal(doc))
  }

  datatype Value =
    | VNull
    | VBool(b: bool)
    | VNum(token: Text)
    | VStr(s: Text)
    | VArr(items: seq<Value>)
    | VObj(fields: map<Text, Value>)

  ghost function Meaning(doc: Doc): Value
    requires ValidDoc(doc)
    decreases doc, 1
  {
    match doc
    case Null => VNull
    case Bool(b) => VBool(b)
    case Num(token) => VNum(token)
    case Str(s) => VStr(s)
    case Arr(items) => VArr(seq(|items|, i requires 0 <= i < |items| => Meaning(items[i])))
    case Obj(ms) => VObj(Fields(ms))
  }

  ghost predicate ValidMembers(ms: seq<Member<Doc>>) {
    DistinctKeys(ms) && forall i :: 0 <= i < |ms| ==> ValidDoc(ms[i].value)
  }

  /** The map an object stands for: each key with the meaning of its value, and nothing else. */
  ghost function Fields(ms: seq<Member<Doc>>): (f: map<Text, Value>)
    requires ValidMembers(ms)
    ensures forall i :: 0 <= i < |ms| ==> ms[i].key in f && f[ms[i].key] == Meaning(ms[i].value)
    ensures forall k :: k in f ==> exists i :: 0 <= i < |ms| && ms[i].key == k
    decreases ms, 0
  {
    map i | 0 <= i < |ms| :: ms[i].key := Meaning(ms[i].value)
  }

  /** Sorting keeps the document well formed and keeps its meaning. */
  lemma {:induction false} NormalKeepsMeaning(doc: Doc)
    requires ValidDoc(doc)
    ensures ValidDoc(Normal(doc)) && Meaning(Normal(doc)) == Meaning(doc)
  {
    match doc
    case Arr(items) =>
      forall i | 0 <= i < |items|
        ensures ValidDoc(Normal(items[i])) && Meaning(Normal(items[i])) == Meaning(items[i])
      {
        NormalKeepsMeaning(items[i]);
      }
      assert Meaning(Normal(doc)).items == Meaning(doc).items;
    case Obj(ms) =>
      var ns := NormalMembers(ms);
      var ss := SortMembers(ns);
      forall i | 0 <= i < |ms|
        ensures ValidDoc(Normal(ms[i].value)) && Meaning(Normal(ms[i].value)) == Meaning(ms[i].value)
      {
        NormalKeepsMeaning(ms[i].value);
      }
      forall i | 0 <= i < |ms| ensures RearrangedAt(ms, ns, i) {}
      SortSorts(ns);
      SortedDistinct(ss);
      SortedMeaning(ms, ns, ss);
    case _ =>
  }

  /** `ss` holds the members of `ms`, each value in canonical form with its meaning kept. */
  ghost predicate Rearranged(ms: seq<Member<Doc>>, ns: seq<Member<Doc>>, ss: seq<Member<Doc>>) {
    && |ns| == |ms|
    && (forall x :: x in ss <==> x in ns)
    && (forall i :: 0 <= i < |ms| ==> RearrangedAt(ms, ns, i))
  }

  ghost predicate RearrangedAt(ms: seq<Member<Doc>>, ns: seq<Member<Doc>>, i: nat)
    requires i < |ms| == |ns|
  {
    ns[i].key == ms[i].key && ValidDoc(ms[i].value) && ValidDoc(ns[i].value) && Meaning(ns[i].value) == Meaning(ms[i].value)
  }

  lemma SortedMeaning(ms: seq<Member<Doc>>, ns: seq<Member<Doc>>, ss: seq<Member<Doc>>)
    requires ValidMembers(ms) && DistinctKeys(ss) && Rearranged(ms, ns, ss)
    ensures ValidMembers(ss) && Fields(ss) == Fields(ms)
  {
    hide ValidDoc, Meaning, Fields, DistinctKeys;
    forall j | 0 <= j < |ss| ensures ValidDoc(ss[j].value) {
      var i := At(ns, ss, j);
      assert RearrangedAt(ms, ns, i);
    }
    hide ValidMembers;
    var f, g := Fields(ss), Fields(ms);
    forall k ensures k in f <==> k in g {
      if k in f {
        var j :| 0 <= j < |ss| && ss[j].key == k;
        FieldComesFrom(ms, ns, ss, j);
      }
      if k in g {
        var i :| 0 <= i < |ms| && ms[i].key == k;
        FieldKept(ms, ns, ss, i);
      }
    }
    forall k | k in g ensures f[k] == g[k] {
      var i :| 0 <= i < |ms| && ms[i].key == k;
      FieldKept(ms, ns, ss, i);
    }
  }

  lemma FieldKept(ms: seq<Member<Doc>>, ns: seq<Member<Doc>>, ss: seq<Member<Doc>>, i: nat)
    requires ValidMembers(ms) && ValidMembers(ss) && Rearranged(ms, ns, ss) && i < |ms|
    ensures ms[i].key in Fields(ss) && ms[i].key in Fields(ms) && Fields(ss)[ms[i].key] == Fields(ms)[ms[i].key]
  {
    hide ValidDoc, Meaning, Fields, ValidMembers;
    var j := At(ss, ns, i);
    assert RearrangedAt(ms, ns, i);
    assert ss[j].key in Fields(ss) && Fields(ss)[ss[j].key] == Meaning(ss[j].value);
  }

  lemma FieldComesFrom(ms: seq<Member<Doc>>, ns: seq<Member<Doc>>, ss: seq<Member<Doc>>, j: nat)
    requires ValidMembers(ms) && Rearranged(ms, ns, ss) && j < |ss|
    ensures ss[j].key in Fields(ms)
  {
    hide ValidDoc, Meaning, Fields, ValidMembers;
    var i := At(ns, ss, j);
    assert RearrangedAt(ms, ns, i);
  }

  lemma At(a: seq<Member<Doc>>, b: seq<Member<Doc>>, j: nat) returns (i: nat)
    requires j < |b| && b[j] in a
    ensures i < |a| && a[i] == b[j]
  {
    i :| 0 <= i < |a| && a[i] == b[j];
  }

  /** The converse: the meaning leaves nothing of the canonical form undetermined. */
  lemma {:induction false} SameMeaningSameNormal(a: Doc, b: Doc)
    requires ValidDoc(a) && ValidDoc(b) && Meaning(a) == Meaning(b)
    ensures Normal(a) == Normal(b)
  {
    match a
    case Arr(items) =>
      forall i | 0 <= i < |items| ensures Normal(items[i]) == Normal(b.items[i]) {
        assert Meaning(a).items[i] == Meaning(b).items[i];
        SameMeaningSameNormal(items[i], b.items[i]);
      }
      assert Normal(a).items == Normal(b).items;
    case Obj(ms) =>
      var ns := b.members;
      assert Fields(ms) == Fields(ns);
      forall i, j | 0 <= i < |ms| && 0 <= j < |ns| && ms[i].key == ns[j].key
        ensures Normal(ms[i].value) == Normal(ns[j].value)
      {
        assert Fields(ms)[ms[i].key] == Fields(ns)[ns[j].key];
        SameMeaningSameNormal(ms[i].value, ns[j].value);
      }
      SameFieldsSameNormal(ms, ns);
    case _ =>
  }

  lemma MembersWithin(a: seq<Member<Doc>>, b: seq<Member<Doc>>, na: seq<Member<Doc>>, nb: seq<Member<Doc>>)
    requires ValidMembers(a) && ValidMembers(b) && Fields(a) == Fields(b)
    requires |na| == |a| && forall i :: 0 <= i < |a| ==> na[i].key == a[i].key
    requires |nb| == |b| && forall i :: 0 <= i < |b| ==> nb[i].key == b[i].key
    requires forall i, j :: 0 <= i < |a| && 0 <= j < |b| && a[i].key == b[j].key ==> na[i].value == nb[j].value
    ensures forall x :: x in na ==> x in nb
  {
    hide Fields, ValidMembers;
    forall x | x in na ensures x in nb {
      var i :| 0 <= i < |na| && x == na[i];
      assert a[i].key in Fields(b);
      var j :| 0 <= j < |b| && b[j].key == a[i].key;
      assert nb[j] == x;
    }
  }

  lemma SameFieldsSameNormal(a: seq<Member<Doc>>, b: seq<Member<Doc>>)
    requires ValidMembers(a) && ValidMembers(b) && Fields(a) == Fields(b)
    requires forall i, j :: 0 <= i < |a| && 0 <= j < |b| && a[i].key == b[j].key ==>
      Normal(a[i].value) == Normal(b[j].value)
    ensures SortMembers(NormalMembers(a)) == SortMembers(NormalMembers(b))
  {
    var na, nb := NormalMembers(a), NormalMembers(b);
    MembersWithin(a, b, na, nb);
    MembersWithin(b, a, nb, na);
    SortSorts(na);
    SortSorts(nb);
    SortedUnique(SortMembers(na), SortMembers(nb));
  }

  /** Canonical text identifies a JSON value exactly, in both directions. */
  lemma CanonicalTextIsValue(d: Dialect, a: Doc, b: Doc)
    requires ValidDoc(a) && ValidDoc(b)
    ensures CanonicalText(d, a) == CanonicalText(d, b) <==> Meaning(a) == Meaning(b)
    ensures CanonicalText(d, a) == CanonicalText(d, b) <==> Normal(a) == Normal(b)
  {
    NormalKeepsMeaning(a);
    NormalKeepsMeaning(b);
    if CanonicalText(d, a) == CanonicalText(d, b) {
      UniqueReading(d, Normal(a), Normal(b), [], []);
    }
    if Meaning(a) == Meaning(b) {
      SameMeaningSameNormal(a, b);
    }
  }

  /** Every object in the document, at any depth, has its members in ascending key order. */
  ghost predicate AllSorted(doc: Doc) {
    match doc
    case Arr(items) => forall i :: 0 <= i < |items| ==> AllSorted(items[i])
    case Obj(ms) => Sorted(ms) && forall i :: 0 <= i < |ms| ==> AllSorted(ms[i].value)
    case _ => true
  }

  /** The canonical form sorts every object. */
  lemma {:induction false} NormalIsSorted(doc: Doc)
    requires ValidDoc(doc)
    ensures AllSorted(Normal(doc))
  {
    match doc
    case Arr(items) =>
      forall i | 0 <= i < |items| ensures AllSorted(Normal(items[i])) { NormalIsSorted(items[i]); }
    case Obj(ms) =>
      var ns := NormalMembers(ms);
      forall i | 0 <= i < |ms| ensures AllSorted(ns[i].value) { NormalIsSorted(ms[i].value); }
      SortSorts(ns);
      var ss := SortMembers(ns);
      forall i | 0 <= i < |ss| ensures AllSorted(ss[i].value) { assert ss[i] in ns; }
    case _ =>
  }
}
