/**
 The flat maps of the argument parser: a vector of name and action pairs kept sorted by name,
 searched by bisection.
 */
module KeywordMap {
  import opened Wrappers

  datatype Pair<A> = Pair(name: string, action: A)

  /** The order of names: by the first difference, a prefix coming first. */
  predicate Less(a: string, b: string) {
    if b == "" then false
    else if a == "" then true
    else if a[0] != b[0] then a[0] < b[0]
    else Less(a[1..], b[1..])
  }

  lemma {:induction false} LessTransitive(a: string, b: string, c: string)
    requires Less(a, b) && Less(b, c)
    ensures Less(a, c)
  {
    if a != "" && a[0] == b[0] == c[0] {
      LessTransitive(a[1..], b[1..], c[1..]);
    }
  }

  lemma {:induction false} LessTotal(a: string, b: string)
    ensures Less(a, b) || Less(b, a) || a == b
  {
    if a != "" && b != "" && a[0] == b[0] {
      LessTotal(a[1..], b[1..]);
      assert a == [a[0]] + a[1..] && b == [b[0]] + b[1..];
    }
  }

  lemma {:induction false} LessIrreflexive(a: string)
    ensures !Less(a, a)
  {
    if a != "" {
      LessIrreflexive(a[1..]);
    }
  }

  ghost predicate Sorted<A>(m: seq<Pair<A>>) {
    forall i, j :: 0 <= i < j < |m| ==> Less(m[i].name, m[j].name)
  }

  /** The map a vector stands for. */
  ghost function Contents<A>(m: seq<Pair<A>>): map<string, A> {
    if m == [] then map[] else Contents(m[..|m| - 1])[m[|m| - 1].name := m[|m| - 1].action]
  }

  lemma {:induction false} ContentsAt<A>(m: seq<Pair<A>>, i: nat)
    requires Sorted(m) && i < |m|
    ensures m[i].name in Contents(m) && Contents(m)[m[i].name] == m[i].action
  {
    if i < |m| - 1 {
      ContentsAt(m[..|m| - 1], i);
      LessIrreflexive(m[i].name);
      assert Less(m[i].name, m[|m| - 1].name);
    }
  }

  lemma {:induction false} ContentsNames<A>(m: seq<Pair<A>>, name: string)
    ensures name in Contents(m) ==> exists i :: 0 <= i < |m| && m[i].name == name
  {
    if m != [] && name in Contents(m) && name != m[|m| - 1].name {
      ContentsNames(m[..|m| - 1], name);
      var i :| 0 <= i < |m| - 1 && m[..|m| - 1][i].name == name;
      assert m[i].name == name;
    }
  }

  /** `k` splits the vector into the names less than `name` and the others. */
  ghost predicate Bound<A>(m: seq<Pair<A>>, name: string, k: nat) {
    && k <= |m|
    && (forall i :: 0 <= i < k ==> Less(m[i].name, name))
    && (forall i :: k <= i < |m| ==> !Less(m[i].name, name))
  }

  method LowerBound<A>(m: seq<Pair<A>>, name: string) returns (k: nat)
    requires Sorted(m)
    ensures Bound(m, name, k)
  {
    var lo, hi := 0, |m|;
    while lo < hi
      invariant 0 <= lo <= hi <= |m|
      invariant forall i :: 0 <= i < lo ==> Less(m[i].name, name)
      invariant forall i :: hi <= i < |m| ==> !Less(m[i].name, name)
    {
      var mid := (lo + hi) / 2;
      if Less(m[mid].name, name) {
        forall i | 0 <= i < mid
          ensures Less(m[i].name, name)
        {
          LessTransitive(m[i].name, m[mid].name, name);
        }
        lo := mid + 1;
      } else {
        forall i | mid < i < |m|
          ensures !Less(m[i].name, name)
        {
          if Less(m[i].name, name) {
            LessTransitive(m[mid].name, m[i].name, name);
          }
        }
        hi := mid;
      }
    }
    return lo;
  }

  lemma BoundFinds<A>(m: seq<Pair<A>>, name: string, k: nat)
    requires Sorted(m) && Bound(m, name, k)
    ensures name in Contents(m) <==> k < |m| && m[k].name == name
    ensures name in Contents(m) ==> Contents(m)[name] == m[k].action
  {
    if k < |m| && m[k].name == name {
      ContentsAt(m, k);
    }
    if name in Contents(m) {
      ContentsNames(m, name);
      var i :| 0 <= i < |m| && m[i].name == name;
      LessIrreflexive(name);
      assert k <= i;
      if k < i {
        LessTotal(m[k].name, name);
      }
    }
  }

  method Find<A>(m: seq<Pair<A>>, name: string) returns (r: Option<A>)
    requires Sorted(m)
    ensures r.Some? <==> name in Contents(m)
    ensures r.Some? ==> r.value == Contents(m)[name]
  {
    var k := LowerBound(m, name);
    BoundFinds(m, name, k);
    return if k < |m| && m[k].name == name then Some(m[k].action) else None;
  }

  /** Adds a pair where it belongs; a name already there keeps its action. */
  method Emplace<A>(m: seq<Pair<A>>, name: string, action: A) returns (m': seq<Pair<A>>, inserted: bool)
    requires Sorted(m)
    ensures Sorted(m')
    ensures inserted <==> name !in Contents(m)
    ensures Contents(m') == if inserted then Contents(m)[name := action] else Contents(m)
  {
    var k := LowerBound(m, name);
    BoundFinds(m, name, k);
    if k < |m| && m[k].name == name {
      return m, false;
    }
    m' := m[..k] + [Pair(name, action)] + m[k..];
    InsertSorted(m, name, action, k);
    InsertContents(m, name, action, k);
    return m', true;
  }

  lemma InsertSorted<A>(m: seq<Pair<A>>, name: string, action: A, k: nat)
    requires Sorted(m) && Bound(m, name, k) && !(k < |m| && m[k].name == name)
    ensures Sorted(m[..k] + [Pair(name, action)] + m[k..])
  {
    var m' := m[..k] + [Pair(name, action)] + m[k..];
    forall j | k <= j < |m|
      ensures Less(name, m[j].name)
    {
      LessTotal(name, m[j].name);
      if j > k {
        LessTotal(name, m[k].name);
        LessTransitive(name, m[k].name, m[j].name);
      }
    }
    forall i, j | 0 <= i < j < |m'|
      ensures Less(m'[i].name, m'[j].name)
    {
      assert m'[i] == if i < k then m[i] else if i == k then Pair(name, action) else m[i - 1];
      assert m'[j] == if j < k then m[j] else if j == k then Pair(name, action) else m[j - 1];
    }
  }

  lemma InsertContents<A>(m: seq<Pair<A>>, name: string, action: A, k: nat)
    requires Sorted(m) && Bound(m, name, k) && !(k < |m| && m[k].name == name)
    ensures Contents(m[..k] + [Pair(name, action)] + m[k..]) == Contents(m)[name := action]
  {
    hide Contents, Less;
    var m' := m[..k] + [Pair(name, action)] + m[k..];
    InsertSorted(m, name, action, k);
    BoundFinds(m, name, k);
    assert m == m[..k] + m[k..];
    assert forall x :: x in m' <==> x in m || x == Pair(name, action);
    forall n
      ensures n in Contents(m') <==> n in Contents(m)[name := action]
      ensures n in Contents(m') ==> Contents(m')[n] == Contents(m)[name := action][n]
    {
      ContentsPair(m, n);
      ContentsPair(m', n);
      if n in Contents(m') {
        assert Pair(n, Contents(m')[n]) in m';
      }
      if n in Contents(m) {
        assert Pair(n, Contents(m)[n]) in m';
      }
    }
  }

  lemma ContentsPair<A>(m: seq<Pair<A>>, n: string)
    requires Sorted(m)
    ensures n in Contents(m) ==> Pair(n, Contents(m)[n]) in m
    ensures forall x :: x in m && x.name == n ==> n in Contents(m) && Contents(m)[n] == x.action
  {
    hide Contents, Less;
    if n in Contents(m) {
      ContentsNames(m, n);
      var i :| 0 <= i < |m| && m[i].name == n;
      ContentsAt(m, i);
      assert m[i] == Pair(n, Contents(m)[n]);
    }
    forall x | x in m && x.name == n
      ensures n in Contents(m) && Contents(m)[n] == x.action
    {
      var i :| 0 <= i < |m| && m[i] == x;
      ContentsAt(m, i);
    }
  }
}
