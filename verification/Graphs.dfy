/**
 Finite directed graphs given by a successor map, their walks and their cycles.  The presets
 engine meets such a graph three times: inheritance, includes and `$env{}` references.
 */
module Graphs {

  type Graph<!T> = map<T, set<T>>

  ghost predicate Edge<T>(g: Graph<T>, a: T, b: T) {
    a in g && b in g[a]
  }

  ghost predicate Hop<T>(g: Graph<T>, w: seq<T>, i: nat)
    requires i + 1 < |w|
  {
    Edge(g, w[i], w[i + 1])
  }

  /** A non-empty sequence of nodes in which every node is followed by one of its successors. */
  ghost predicate Walk<T>(g: Graph<T>, w: seq<T>) {
    |w| > 0 && forall i: nat :: i + 1 < |w| ==> Hop(g, w, i)
  }

  ghost predicate Cycle<T>(g: Graph<T>, w: seq<T>) {
    Walk(g, w) && |w| >= 2 && w[0] == w[|w| - 1]
  }

  ghost predicate Acyclic<T(!new)>(g: Graph<T>) {
    forall w :: !Cycle(g, w)
  }

  /** How far a depth-first visit has come with a node. */
  datatype CycleStatus = Unvisited | InProgress | Verified

  ghost function Busy(status: map<string, CycleStatus>): set<string> {
    set n | n in status && status[n] == InProgress
  }

  /** `b` can be reached from `a` by following zero or more edges. */
  ghost predicate Reaches<T(!new)>(g: Graph<T>, a: T, b: T) {
    exists w :: Walk(g, w) && w[0] == a && w[|w| - 1] == b
  }

  lemma ReachesSelf<T(!new)>(g: Graph<T>, a: T)
    ensures Reaches(g, a, a)
  {
    assert Walk(g, [a]) && [a][0] == a && [a][|[a]| - 1] == a;
  }

  lemma ReachesStep<T(!new)>(g: Graph<T>, a: T, b: T, c: T)
    requires Edge(g, a, b) && Reaches(g, b, c)
    ensures Reaches(g, a, c)
  {
    var w :| Walk(g, w) && w[0] == b && w[|w| - 1] == c;
    var v := [a] + w;
    forall i: nat | i + 1 < |v|
      ensures Hop(g, v, i)
    {
      assert i > 0 ==> Hop(g, w, i - 1);
    }
    assert Walk(g, v) && v[0] == a && v[|v| - 1] == c;
  }

  lemma ReachesFirst<T(!new)>(g: Graph<T>, a: T, c: T) returns (b: T)
    requires Reaches(g, a, c) && a != c
    ensures Edge(g, a, b) && Reaches(g, b, c)
  {
    var w :| Walk(g, w) && w[0] == a && w[|w| - 1] == c;
    b := w[1];
    var v := w[1..|w|];
    assert Hop(g, w, 0);
    WalkSlice(g, w, 1, |w|);
    assert Walk(g, v) && v[0] == b && v[|v| - 1] == c;
  }

  lemma {:induction false} ReachesTransitive<T(!new)>(g: Graph<T>, a: T, b: T, c: T)
    requires Reaches(g, a, b) && Reaches(g, b, c)
    ensures Reaches(g, a, c)
  {
    var w :| Walk(g, w) && w[0] == a && w[|w| - 1] == b;
    ReachesAlong(g, w, c);
  }

  lemma {:induction false} ReachesAlong<T(!new)>(g: Graph<T>, w: seq<T>, c: T)
    requires Walk(g, w) && Reaches(g, w[|w| - 1], c)
    ensures Reaches(g, w[0], c)
    decreases |w|
  {
    if |w| > 1 {
      assert Hop(g, w, 0);
      WalkSlice(g, w, 1, |w|);
      ReachesAlong(g, w[1..|w|], c);
      ReachesStep(g, w[0], w[1], c);
    }
  }

  /** A walk never leaves a set that is closed under edges. */
  lemma {:induction false} WalkStays<T(!new)>(g: Graph<T>, bag: set<T>, w: seq<T>)
    requires Walk(g, w) && w[0] in bag
    requires forall a, b :: a in bag && Edge(g, a, b) ==> b in bag
    ensures w[|w| - 1] in bag
    decreases |w|
  {
    if |w| > 1 {
      assert Hop(g, w, 0);
      WalkSlice(g, w, 1, |w|);
      WalkStays(g, bag, w[1..|w|]);
    }
  }

  lemma ReachesStays<T(!new)>(g: Graph<T>, bag: set<T>, a: T, b: T)
    requires a in bag && Reaches(g, a, b)
    requires forall c, d :: c in bag && Edge(g, c, d) ==> d in bag
    ensures b in bag
  {
    var w :| Walk(g, w) && w[0] == a && w[|w| - 1] == b;
    WalkStays(g, bag, w);
  }

  // A cycle must exist inside any finite set that can never be left ----------------------------

  /** A sequence longer than the set its elements come from repeats an element. */
  lemma {:induction false} Pigeonhole<T>(s: seq<T>, bag: set<T>) returns (i: nat, j: nat)
    requires |s| > |bag|
    requires forall k :: 0 <= k < |s| ==> s[k] in bag
    ensures i < j < |s| && s[i] == s[j]
    decreases |s|
  {
    var last := |s| - 1;
    if k :| 0 <= k < last && s[k] == s[last] {
      i, j := k, last;
    } else {
      var rest := bag - {s[last]};
      assert |rest| == |bag| - 1;
      i, j := Pigeonhole(s[..last], rest);
    }
  }

  lemma WalkAppend<T>(g: Graph<T>, v: seq<T>, b: T)
    requires Walk(g, v) && Edge(g, v[|v| - 1], b)
    ensures Walk(g, v + [b])
  {
    var w := v + [b];
    forall i: nat | i + 1 < |w|
      ensures Hop(g, w, i)
    {
      assert i + 1 < |v| ==> Hop(g, v, i);
    }
  }

  lemma WalkSlice<T>(g: Graph<T>, w: seq<T>, i: nat, j: nat)
    requires Walk(g, w) && i < j <= |w|
    ensures Walk(g, w[i..j])
  {
    var c := w[i..j];
    forall k: nat | k + 1 < |c|
      ensures Hop(g, c, k)
    {
      assert Hop(g, w, i + k);
    }
  }

  ghost predicate StaysIn<T>(g: Graph<T>, bag: set<T>, a: T) {
    exists b :: b in bag && Edge(g, a, b)
  }

  lemma {:induction false} WalkInside<T>(g: Graph<T>, bag: set<T>, n: nat) returns (w: seq<T>)
    requires bag != {} && n > 0
    requires forall a :: a in bag ==> StaysIn(g, bag, a)
    ensures |w| == n && Walk(g, w) && forall i :: 0 <= i < |w| ==> w[i] in bag
  {
    if n == 1 {
      var a :| a in bag;
      w := [a];
    } else {
      var v := WalkInside(g, bag, n - 1);
      var last := v[|v| - 1];
      assert StaysIn(g, bag, last);
      var b :| b in bag && Edge(g, last, b);
      w := v + [b];
      WalkAppend(g, v, b);
    }
  }

  /** A non-empty finite set in which every node has a successor inside the set holds a cycle. */
  lemma CycleInside<T(!new)>(g: Graph<T>, bag: set<T>)
    requires bag != {}
    requires forall a :: a in bag ==> StaysIn(g, bag, a)
    ensures !Acyclic(g)
  {
    var w := WalkInside(g, bag, |bag| + 1);
    var i, j := Pigeonhole(w, bag);
    WalkSlice(g, w, i, j + 1);
    assert Cycle(g, w[i..j + 1]);
  }
}
