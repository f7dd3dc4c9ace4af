/** The Python string operations the ledger relies on: `strip`, UTF-8 encodability, the pipe join. */
module PythonText {
  import opened Json

  const BAR: Unit := 124

  // ------------------------------------------------------------------ strip

  /** The code points `str.strip` removes. */
  predicate IsSpace(u: Unit) {
    9 <= u <= 13 || 28 <= u <= 32 || u == 0x85 || u == 0xA0 || u == 0x1680
    || 0x2000 <= u <= 0x200A || u == 0x2028 || u == 0x2029 || u == 0x202F || u == 0x205F || u == 0x3000
  }

  function StripLeft(t: Text): Text {
    if t != [] && IsSpace(t[0]) then StripLeft(t[1..]) else t
  }

  function StripRight(t: Text): Text {
    if t != [] && IsSpace(t[|t| - 1]) then StripRight(t[..|t| - 1]) else t
  }

  function Strip(t: Text): Text {
    StripRight(StripLeft(t))
  }

  predicate Trimmed(t: Text) {
    t == [] || (!IsSpace(t[0]) && !IsSpace(t[|t| - 1]))
  }

  lemma {:induction false} StripRightTrims(t: Text)
    requires t == [] || !IsSpace(t[0])
    ensures Trimmed(StripRight(t))
    decreases |t|
  {
    if t != [] && IsSpace(t[|t| - 1]) {
      StripRightTrims(t[..|t| - 1]);
    }
  }

  lemma {:induction false} StripLeftStarts(t: Text)
    ensures StripLeft(t) == [] || !IsSpace(StripLeft(t)[0])
  {
    if t != [] && IsSpace(t[0]) {
      StripLeftStarts(t[1..]);
    }
  }

  lemma StripTrims(t: Text)
    ensures Trimmed(Strip(t))
    ensures Strip(Strip(t)) == Strip(t)
  {
    StripLeftStarts(t);
    StripRightTrims(StripLeft(t));
  }

  /** `strip` takes off white space at both ends, all of it, and nothing else. */
  lemma StripSplits(t: Text) returns (left: Text, right: Text)
    ensures t == left + Strip(t) + right && Trimmed(Strip(t))
    ensures forall i :: 0 <= i < |left| ==> IsSpace(left[i])
    ensures forall i :: 0 <= i < |right| ==> IsSpace(right[i])
  {
    StripTrims(t);
    left := LeftSpace(t);
    right := RightSpace(StripLeft(t));
    hide StripLeft, StripRight, IsSpace;
  }

  lemma {:induction false} LeftSpace(t: Text) returns (left: Text)
    ensures t == left + StripLeft(t) && forall i :: 0 <= i < |left| ==> IsSpace(left[i])
  {
    if t != [] && IsSpace(t[0]) {
      var rest := LeftSpace(t[1..]);
      left := [t[0]] + rest;
      assert t == [t[0]] + t[1..];
    } else {
      left := [];
    }
  }

  lemma {:induction false} RightSpace(t: Text) returns (right: Text)
    ensures t == StripRight(t) + right && forall i :: 0 <= i < |right| ==> IsSpace(right[i])
    decreases |t|
  {
    if t != [] && IsSpace(t[|t| - 1]) {
      var rest := RightSpace(t[..|t| - 1]);
      right := rest + [t[|t| - 1]];
      assert t == t[..|t| - 1] + [t[|t| - 1]];
    } else {
      right := [];
    }
  }

  // ------------------------------------------------------------------ UTF-8

  /** `str.encode("utf-8")` fails exactly on surrogates. */
  predicate Encodable(t: Text) {
    forall i :: 0 <= i < |t| ==> !Surrogate(t[i])
  }

  /** White space is encodable, so stripping it cannot make a text encodable. */
  lemma {:induction false} StripLeftEncodable(t: Text)
    requires Encodable(StripLeft(t))
    ensures Encodable(t)
  {
    if t != [] && IsSpace(t[0]) {
      StripLeftEncodable(t[1..]);
      assert t == [t[0]] + t[1..];
    }
  }

  lemma {:induction false} StripRightEncodable(t: Text)
    requires Encodable(StripRight(t))
    ensures Encodable(t)
    decreases |t|
  {
    if t != [] && IsSpace(t[|t| - 1]) {
      StripRightEncodable(t[..|t| - 1]);
      assert t == t[..|t| - 1] + [t[|t| - 1]];
    }
  }

  lemma StripEncodable(t: Text)
    requires Encodable(Strip(t))
    ensures Encodable(t)
  {
    StripRightEncodable(StripLeft(t));
    StripLeftEncodable(t);
  }

  // ------------------------------------------------------------------ "|".join

  predicate NoBar(t: Text) {
    forall i :: 0 <= i < |t| ==> t[i] != BAR
  }

  function JoinBar(fields: seq<Text>): Text {
    if fields == [] then []
    else if |fields| == 1 then fields[0]
    else fields[0] + ([BAR] + JoinBar(fields[1..]))
  }

  /** The fields in order, with a bar between each and the next. */
  lemma JoinSpelled(fields: seq<Text>)
    requires fields != []
    ensures JoinBar(fields) == fields[0] + if |fields| == 1 then [] else Ascii("|") + JoinBar(fields[1..])
  {
    assert Ascii("|") == [BAR];
  }

  lemma FirstBar(a: Text, b: Text, x: Text, y: Text)
    requires NoBar(a) && NoBar(b)
    requires a + ([BAR] + x) == b + ([BAR] + y)
    ensures a == b && x == y
  {
    var whole := a + ([BAR] + x);
    assert whole[|a|] == BAR;
    assert (b + ([BAR] + y))[|b|] == BAR;
    assert forall k :: 0 <= k < |a| ==> whole[k] == a[k];
    assert forall k :: 0 <= k < |b| ==> (b + ([BAR] + y))[k] == b[k];
    assert a == whole[..|a|] && b == (b + ([BAR] + y))[..|b|];
    assert x == whole[|a| + 1..] && y == (b + ([BAR] + y))[|b| + 1..];
  }

  lemma JoinHasBar(f: seq<Text>)
    ensures |f| > 1 ==> !NoBar(JoinBar(f))
  {
    if |f| > 1 {
      assert JoinBar(f)[|f[0]|] == BAR;
    }
  }

  /** Fields without the delimiter can be recovered from their join. */
  lemma {:induction false} JoinSplits(f: seq<Text>, g: seq<Text>)
    requires f != [] && g != [] && JoinBar(f) == JoinBar(g)
    requires forall i :: 0 <= i < |f| ==> NoBar(f[i])
    requires forall i :: 0 <= i < |g| ==> NoBar(g[i])
    ensures f == g
  {
    JoinHasBar(f);
    JoinHasBar(g);
    if |f| > 1 && |g| > 1 {
      FirstBar(f[0], g[0], JoinBar(f[1..]), JoinBar(g[1..]));
      JoinSplits(f[1..], g[1..]);
      assert f == [f[0]] + f[1..] && g == [g[0]] + g[1..];
    }
  }

  lemma {:induction false} JoinEncodable(f: seq<Text>)
    requires Encodable(JoinBar(f))
    ensures forall i :: 0 <= i < |f| ==> Encodable(f[i])
  {
    if |f| > 1 {
      var tail := JoinBar(f[1..]);
      var whole := f[0] + ([BAR] + tail);
      assert forall k :: 0 <= k < |f[0]| ==> whole[k] == f[0][k];
      assert forall k :: 0 <= k < |tail| ==> whole[|f[0]| + 1 + k] == tail[k];
      JoinEncodable(f[1..]);
      assert forall i :: 1 <= i < |f| ==> f[i] == f[1..][i - 1];
    }
  }

  lemma {:induction false} JoinOfEncodable(f: seq<Text>)
    requires forall i :: 0 <= i < |f| ==> Encodable(f[i])
    ensures Encodable(JoinBar(f))
  {
    if |f| > 1 {
      JoinOfEncodable(f[1..]);
    }
  }

  // ------------------------------------------------------------------ digests

  predicate LowerHex(u: Unit) { Digit(u) || 97 <= u <= 102 }

  predicate IsHash(t: Text) {
    |t| == 64 && forall i :: 0 <= i < |t| ==> LowerHex(t[i])
  }

  function Repeat(u: Unit, n: nat): (t: Text)
    ensures |t| == n && forall i :: 0 <= i < n ==> t[i] == u
  {
    seq(n, _ => u)
  }

  /** The output of `hexdigest`: 64 lower-case hexadecimal digits. */
  type Hash = t: Text | IsHash(t) witness Repeat(48, 64)

  const ZERO_HASH: Hash := Repeat(48, 64)
}
