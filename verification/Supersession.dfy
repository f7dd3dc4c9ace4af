/**
 The supersession graph both rights registries build: immutable records that may name one
 earlier record of the same asset, and the map from a record to the one superseding it.
 */
module Supersession {
  import opened Prelude

  datatype Node = Node(asset: Id32, supersedes: Option<Id32>)

  datatype Graph = Graph(nodes: map<Id32, Node>, successor: map<Id32, Id32>)

  predicate CanInsert(g: Graph, id: Id32, n: Node) {
    && id !in g.nodes
    && (n.supersedes.Some? ==>
          n.supersedes.value in g.nodes && g.nodes[n.supersedes.value].asset == n.asset
          && n.supersedes.value !in g.successor)
  }

  function Insert(g: Graph, id: Id32, n: Node): Graph {
    Graph(g.nodes[id := n], if n.supersedes.Some? then g.successor[n.supersedes.value := id] else g.successor)
  }

  /** The superseded-by map is the exact inverse of the stored `supersedes`, within one asset. */
  ghost predicate Inverse(g: Graph) {
    && (forall a :: a in g.successor ==>
          a in g.nodes && g.successor[a] in g.nodes && g.nodes[g.successor[a]].supersedes == Some(a)
          && g.nodes[g.successor[a]].asset == g.nodes[a].asset)
    && (forall b :: b in g.nodes && g.nodes[b].supersedes.Some? ==>
          g.nodes[b].supersedes.value in g.successor && g.successor[g.nodes[b].supersedes.value] == b)
  }

  /** An order of recording: every record once, each before the one superseding it. */
  ghost predicate Recorded(g: Graph, order: seq<Id32>) {
    && (forall a :: a in g.nodes <==> a in order)
    && (forall i, j :: 0 <= i < j < |order| ==> order[i] != order[j])
    && (forall i, j :: 0 <= i < |order| && 0 <= j < |order| && order[i] in g.successor && g.successor[order[i]] == order[j] ==> i < j)
  }

  ghost predicate Sound(g: Graph) {
    Inverse(g) && exists order :: Recorded(g, order)
  }

  lemma EmptySound()
    ensures Sound(Graph(map[], map[]))
  {
    assert Recorded(Graph(map[], map[]), []);
  }

  lemma InsertInverse(g: Graph, id: Id32, n: Node)
    requires Inverse(g) && CanInsert(g, id, n)
    ensures Inverse(Insert(g, id, n))
  {
    var h := Insert(g, id, n);
    forall b | b in h.nodes && h.nodes[b].supersedes.Some?
      ensures h.nodes[b].supersedes.value in h.successor && h.successor[h.nodes[b].supersedes.value] == b
    {
      assert b != id ==> g.nodes[b].supersedes.value in g.successor;
    }
    forall a | a in h.successor
      ensures a in h.nodes && h.successor[a] in h.nodes && h.nodes[h.successor[a]].supersedes == Some(a)
        && h.nodes[h.successor[a]].asset == h.nodes[a].asset
    {
      assert h.successor[a] != id ==> a in g.successor;
      assert a in g.successor ==> g.successor[a] in g.nodes && a in g.nodes;
    }
  }

  lemma InsertRecorded(g: Graph, id: Id32, n: Node, order: seq<Id32>)
    requires Inverse(g) && Recorded(g, order) && CanInsert(g, id, n)
    ensures Recorded(Insert(g, id, n), order + [id])
  {
    var h, later := Insert(g, id, n), order + [id];
    assert id !in order;
    forall a ensures a in h.nodes <==> a in later {
      assert a in later <==> a in order || a == id;
    }
    assert id !in h.successor;
    forall i, j | 0 <= i < |later| && 0 <= j < |later| && later[i] in h.successor && h.successor[later[i]] == later[j]
      ensures i < j
    {
      assert i < |order| ==> order[i] == later[i];
      assert j < |order| ==> order[j] == later[j] && order[j] in order;
    }
  }

  /** Recording an admissible node keeps the graph sound. */
  lemma InsertSound(g: Graph, id: Id32, n: Node)
    requires Sound(g) && CanInsert(g, id, n)
    ensures Sound(Insert(g, id, n))
  {
    var order :| Recorded(g, order);
    InsertInverse(g, id, n);
    InsertRecorded(g, id, n, order);
  }

  // ------------------------------------------------------------------ following superseded-by

  /** The record reached after `n` steps of superseded-by, if there are that many. */
  function Walk(g: Graph, id: Id32, n: nat): Option<Id32>
    decreases n
  {
    if n == 0 then Some(id)
    else if id in g.successor then Walk(g, g.successor[id], n - 1)
    else None
  }

  /** `tip` is unsuperseded and `n` steps from `id`. */
  ghost predicate Tip(g: Graph, id: Id32, n: nat, tip: Id32) {
    Walk(g, id, n) == Some(tip) && tip !in g.successor
  }

  lemma {:induction false} WalkReaches(g: Graph, order: seq<Id32>, i: nat) returns (n: nat, tip: Id32)
    requires Inverse(g) && Recorded(g, order) && i < |order|
    ensures Tip(g, order[i], n, tip)
    ensures tip in g.nodes && g.nodes[tip].asset == g.nodes[order[i]].asset
    decreases |order| - i
  {
    if order[i] in g.successor {
      assert g.successor[order[i]] in order;
      var j :| 0 <= j < |order| && order[j] == g.successor[order[i]];
      var m;
      m, tip := WalkReaches(g, order, j);
      n := m + 1;
    } else {
      n, tip := 0, order[i];
    }
  }

  /** From every record, following superseded-by ends in an unsuperseded record of the same asset. */
  lemma WalkTerminates(g: Graph, id: Id32)
    requires Sound(g) && id in g.nodes
    ensures exists n, tip :: Tip(g, id, n, tip) && tip in g.nodes && g.nodes[tip].asset == g.nodes[id].asset
  {
    var order :| Recorded(g, order);
    var i :| 0 <= i < |order| && order[i] == id;
    var n, tip := WalkReaches(g, order, i);
  }

  /** ... and in only one, after only one number of steps. */
  lemma {:induction false} TipUnique(g: Graph, id: Id32, m: nat, s: Id32, n: nat, t: Id32)
    requires Tip(g, id, m, s) && Tip(g, id, n, t)
    ensures m == n && s == t
    decreases m
  {
    if m > 0 && n > 0 {
      TipUnique(g, g.successor[id], m - 1, s, n - 1, t);
    }
  }

  lemma {:induction false} WalkAscends(g: Graph, order: seq<Id32>, i: nat, n: nat)
    requires Inverse(g) && Recorded(g, order) && i < |order| && Walk(g, order[i], n).Some?
    ensures exists j :: i + n <= j < |order| && Walk(g, order[i], n) == Some(order[j])
    decreases n
  {
    if n == 0 {
      assert Walk(g, order[i], 0) == Some(order[i]);
    } else {
      assert g.successor[order[i]] in order;
      var k :| 0 <= k < |order| && order[k] == g.successor[order[i]];
      WalkAscends(g, order, k, n - 1);
    }
  }

  /** No record supersedes itself, however indirectly. */
  lemma Acyclic(g: Graph, id: Id32, n: nat)
    requires Sound(g) && id in g.nodes && n > 0
    ensures Walk(g, id, n) != Some(id)
  {
    var order :| Recorded(g, order);
    var i :| 0 <= i < |order| && order[i] == id;
    if Walk(g, id, n).Some? {
      WalkAscends(g, order, i, n);
    }
  }

  lemma {:induction false} WalkLast(g: Graph, id: Id32, n: nat)
    requires n > 0 && Walk(g, id, n).Some?
    ensures Walk(g, id, n - 1).Some? && Walk(g, id, n - 1).value in g.successor
    ensures g.successor[Walk(g, id, n - 1).value] == Walk(g, id, n).value
    decreases n
  {
    if n > 1 { WalkLast(g, g.successor[id], n - 1); }
  }

  /** Supersession lines never merge: two records with a common successor lie on one line. */
  lemma {:induction false} LinesDoNotMerge(g: Graph, a: Id32, m: nat, b: Id32, n: nat)
    requires Inverse(g) && m >= n
    requires Walk(g, a, m).Some? && Walk(g, a, m) == Walk(g, b, n)
    ensures Walk(g, a, m - n) == Some(b)
    decreases n
  {
    if n > 0 {
      WalkLast(g, a, m);
      WalkLast(g, b, n);
      var x, y := Walk(g, a, m - 1).value, Walk(g, b, n - 1).value;
      assert g.nodes[g.successor[x]].supersedes == Some(x) && g.nodes[g.successor[y]].supersedes == Some(y);
      LinesDoNotMerge(g, a, m - 1, b, n - 1);
    }
  }
}
