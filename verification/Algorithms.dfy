/**
 In-place range algorithms: removing the elements at given indices by rotating the removed block
 towards the end, and removing duplicates by overwriting.
 */
module Algorithms {

  // Removing indices ----------------------------------------------------------------------------------

  ghost predicate Increasing(rem: seq<nat>) {
    forall i, j :: 0 <= i < j < |rem| ==> rem[i] < rem[j]
  }

  /** The elements before `n` at indices that are not listed, in order. */
  ghost function Kept<T>(s: seq<T>, rem: seq<nat>, n: nat): seq<T>
    requires n <= |s|
  {
    if n == 0 then [] else Kept(s, rem, n - 1) + if n - 1 in rem then [] else [s[n - 1]]
  }

  /** The elements before `n` at listed indices, in order. */
  ghost function Removed<T>(s: seq<T>, rem: seq<nat>, n: nat): seq<T>
    requires n <= |s|
  {
    if n == 0 then [] else Removed(s, rem, n - 1) + if n - 1 in rem then [s[n - 1]] else []
  }

  lemma {:induction false} BetweenIndices<T>(s: seq<T>, rem: seq<nat>, from: nat, n: nat)
    requires from <= n <= |s| && forall i :: from <= i < n ==> i !in rem
    ensures Kept(s, rem, n) == Kept(s, rem, from) + s[from..n]
    ensures Removed(s, rem, n) == Removed(s, rem, from)
    decreases n
  {
    if from < n {
      BetweenIndices(s, rem, from, n - 1);
      assert s[from..n] == s[from..n - 1] + [s[n - 1]];
    }
  }

  /** Nothing is lost or made up. */
  lemma {:induction false} KeptAndRemoved<T>(s: seq<T>, rem: seq<nat>, n: nat)
    requires n <= |s|
    ensures multiset(Kept(s, rem, n)) + multiset(Removed(s, rem, n)) == multiset(s[..n])
  {
    hide Kept, Removed;
    if n == 0 {
      NoElement(s, rem);
    } else {
      var ks, rs, x := Kept(s, rem, n - 1), Removed(s, rem, n - 1), s[n - 1];
      KeptAndRemoved(s, rem, n - 1);
      NextElement(s, rem, n - 1);
      assert s[..n] == s[..n - 1] + [x];
      assert multiset(ks + [x]) == multiset(ks) + multiset{x} && multiset(rs + [x]) == multiset(rs) + multiset{x};
    }
  }

  lemma NoElement<T>(s: seq<T>, rem: seq<nat>)
    ensures Kept(s, rem, 0) == [] && Removed(s, rem, 0) == []
  {}

  lemma NextElement<T>(s: seq<T>, rem: seq<nat>, n: nat)
    requires n < |s|
    ensures n in rem ==> Removed(s, rem, n + 1) == Removed(s, rem, n) + [s[n]] && Kept(s, rem, n + 1) == Kept(s, rem, n)
    ensures n !in rem ==>
            Removed(s, rem, n + 1) == Removed(s, rem, n) && Kept(s, rem, n + 1) == Kept(s, rem, n) + [s[n]]
  {}

  /** The range with the blocks `[first, middle)` and `[middle, last)` exchanged. */
  function Rotated<T>(s: seq<T>, first: nat, middle: nat, last: nat): (r: seq<T>)
    requires first <= middle <= last <= |s|
    ensures |r| == |s|
  {
    s[..first] + s[middle..last] + s[first..middle] + s[last..]
  }

  /** Which element a reversal of `[lo, hi)` puts at `i`. */
  function Mirrored(lo: nat, hi: nat, i: int): int {
    if lo <= i < hi then lo + hi - 1 - i else i
  }

  /** Reverses a block by swapping its ends, then the elements next to them, and so on. */
  method Reverse<T>(a: array<T>, lo: nat, hi: nat)
    requires lo <= hi <= a.Length
    modifies a
    ensures forall i :: 0 <= i < a.Length ==> a[i] == old(a[Mirrored(lo, hi, i)])
  {
    var l, r := lo, hi;
    while l + 1 < r
      invariant lo <= l <= hi && lo <= r <= hi && l - lo == hi - r
      invariant l <= r || l == r + 1
      invariant forall i :: 0 <= i < a.Length ==>
                  a[i] == old(a[if l <= i < r then i else Mirrored(lo, hi, i)])
    {
      a[l], a[r - 1] := a[r - 1], a[l];
      l, r := l + 1, r - 1;
    }
  }

  /** Reversing both blocks and then the whole exchanges them. */
  lemma ReversalsRotate<T>(s: seq<T>, first: nat, middle: nat, last: nat, i: nat)
    requires first <= middle <= last <= |s| && i < |s|
    ensures 0 <= Mirrored(first, last, i) < |s|
    ensures Rotated(s, first, middle, last)[i] ==
            s[Mirrored(first, middle, Mirrored(middle, last, Mirrored(first, last, i)))]
  {}

  /** Three reversals in place. */
  method Rotate<T>(a: array<T>, first: nat, middle: nat, last: nat) returns (end: nat)
    requires first <= middle <= last <= a.Length
    modifies a
    ensures a[..] == Rotated(old(a[..]), first, middle, last)
    ensures end == first + (last - middle)
  {
    hide Rotated;
    ghost var s := a[..];
    Reverse(a, first, middle);
    ghost var s1 := a[..];
    Reverse(a, middle, last);
    ghost var s2 := a[..];
    Reverse(a, first, last);
    forall i | 0 <= i < a.Length ensures a[i] == Rotated(s, first, middle, last)[i] {
      var j := Mirrored(first, last, i);
      var k := Mirrored(middle, last, j);
      assert a[i] == s2[j] == s1[k] == s[Mirrored(first, middle, k)];
      ReversalsRotate(s, first, middle, last, i);
    }
    return first + (last - middle);
  }

  /** Moves the first `n` elements of a block behind the others. */
  method RemoveN<T>(a: array<T>, first: nat, last: nat, n: nat) returns (end: nat)
    requires first + n <= last <= a.Length
    modifies a
    ensures a[..] == Rotated(old(a[..]), first, first + n, last)
    ensures end == last - n
  {
    end := Rotate(a, first, first + n, last);
  }

  /** The range when the removed block stands just before index `n`. */
  ghost function Arranged<T>(s: seq<T>, rem: seq<nat>, n: nat): seq<T>
    requires n <= |s|
  {
    Kept(s, rem, n) + Removed(s, rem, n) + s[n..]
  }

  lemma {:induction false} Sizes<T>(s: seq<T>, rem: seq<nat>, n: nat)
    requires n <= |s|
    ensures |Kept(s, rem, n)| + |Removed(s, rem, n)| == n
  {
    if n > 0 {
      Sizes(s, rem, n - 1);
    }
  }

  /** Rotating the removed block over the next kept elements. */
  lemma RotateArranged<T>(s: seq<T>, rem: seq<nat>, from: nat, n: nat)
    requires from <= n <= |s| && forall i :: from <= i < n ==> i !in rem
    ensures var k, r := |Kept(s, rem, from)|, |Removed(s, rem, from)|;
            k + r == from && |Arranged(s, rem, from)| == |s| &&
            Rotated(Arranged(s, rem, from), k, k + r, n) == Arranged(s, rem, n)
  {
    hide Kept, Removed;
    Sizes(s, rem, from);
    BetweenIndices(s, rem, from, n);
    var ks, rs := Kept(s, rem, from), Removed(s, rem, from);
    var x := Arranged(s, rem, from);
    assert x[..|ks|] == ks && x[|ks|..from] == rs && x[from..n] == s[from..n] && x[n..] == s[n..];
    assert ks + s[from..n] + rs + s[n..] == (ks + s[from..n]) + rs + s[n..];
  }

  /** Passing a listed index lengthens the removed block by one without moving anything. */
  lemma PassIndex<T>(s: seq<T>, rem: seq<nat>, n: nat)
    requires n < |s| && n in rem
    ensures Arranged(s, rem, n + 1) == Arranged(s, rem, n)
    ensures |Removed(s, rem, n + 1)| == |Removed(s, rem, n)| + 1
  {
    assert s[n..] == [s[n]] + s[n + 1..];
  }

  lemma FirstIndex<T>(s: seq<T>, rem: seq<nat>)
    requires Increasing(rem) && rem != [] && rem[0] < |s|
    ensures Arranged(s, rem, rem[0] + 1) == s && |Removed(s, rem, rem[0] + 1)| == 1
  {
    hide Arranged;
    forall i | 0 <= i < rem[0]
      ensures i !in rem
    {}
    BetweenIndices(s, rem, 0, rem[0]);
    ArrangedNone(s, rem, rem[0]);
    PassIndex(s, rem, rem[0]);
  }

  lemma ArrangedNone<T>(s: seq<T>, rem: seq<nat>, n: nat)
    requires n <= |s| && Kept(s, rem, n) == Kept(s, rem, 0) + s[0..n] && Removed(s, rem, n) == Removed(s, rem, 0)
    ensures Arranged(s, rem, n) == s && |Removed(s, rem, n)| == 0
  {}

  lemma NoneBetween(rem: seq<nat>, i: nat)
    requires Increasing(rem) && i < |rem|
    ensures i + 1 < |rem| ==> forall x :: rem[i] < x < rem[i + 1] ==> x !in rem
    ensures i + 1 == |rem| ==> forall x :: rem[i] < x ==> x !in rem
  {}

  lemma ArrangedWhole<T>(s: seq<T>, rem: seq<nat>, x: seq<T>)
    requires x == Arranged(s, rem, |s|)
    ensures |Kept(s, rem, |s|)| <= |x|
    ensures x[..|Kept(s, rem, |s|)|] == Kept(s, rem, |s|)
    ensures x[|Kept(s, rem, |s|)|..] == Removed(s, rem, |s|)
    ensures multiset(x) == multiset(s)
  {
    KeptAndRemoved(s, rem, |s|);
    assert s[..|s|] == s && s[|s|..] == [];
    assert x == Kept(s, rem, |s|) + Removed(s, rem, |s|);
  }

  /** Leaves the elements at unlisted indices, in order, before the returned position and the removed
      ones, in order, after it. */
  method RemoveIndices<T>(a: array<T>, rem: seq<nat>) returns (end: nat)
    requires Increasing(rem) && forall i :: 0 <= i < |rem| ==> rem[i] < a.Length
    modifies a
    ensures end <= a.Length
    ensures a[..end] == Kept(old(a[..]), rem, a.Length)
    ensures a[end..] == Removed(old(a[..]), rem, a.Length)
    ensures multiset(a[..]) == multiset(old(a[..]))
    ensures end == a.Length - |rem|
    ensures forall k :: 0 <= k < |rem| ==> a[end + k] == old(a[rem[k]])
    ensures forall k: nat, i: nat :: k <= |rem| && Between(rem, k, i) && i < a.Length ==>
              k <= i && a[i - k] == old(a[i])
  {
    hide Kept, Removed, Arranged;
    ghost var s := a[..];
    if rem == [] {
      NothingListed(s);
      ArrangedWhole(s, rem, a[..]);
      end := a.Length;
    } else {
      end := RotateOut(a, rem);
      ArrangedWhole(s, rem, a[..]);
    }
    RemovedAre(s, rem, |s|, |rem|);
    Sizes(s, rem, |s|);
    forall k | 0 <= k < |rem| ensures a[end + k] == s[rem[k]] {
      assert a[end..][k] == a[end + k];
    }
    forall k: nat, i: nat | k <= |rem| && Between(rem, k, i) && i < a.Length
      ensures k <= i && a[i - k] == s[i]
    {
      KeptAt(s, rem, k, i);
      assert a[..end][i - k] == a[i - k];
    }
  }

  /** Index `i` lies after the first `k` listed indices and before the others. */
  ghost predicate Between(rem: seq<nat>, k: nat, i: nat)
    requires k <= |rem|
  {
    (k > 0 ==> rem[k - 1] < i) && (k < |rem| ==> i < rem[k])
  }

  /** The removed elements are those at the listed indices, one by one. */
  lemma {:induction false} RemovedAre<T>(s: seq<T>, rem: seq<nat>, n: nat, k: nat)
    requires Increasing(rem) && n <= |s| && k <= |rem|
    requires (k > 0 ==> rem[k - 1] < n) && (k < |rem| ==> n <= rem[k])
    ensures |Removed(s, rem, n)| == k && forall j :: 0 <= j < k ==> rem[j] < |s| && Removed(s, rem, n)[j] == s[rem[j]]
    decreases n
  {
    if n > 0 {
      if k > 0 && rem[k - 1] == n - 1 {
        RemovedAre(s, rem, n - 1, k - 1);
      } else {
        assert n - 1 !in rem;
        RemovedAre(s, rem, n - 1, k);
      }
    }
  }

  lemma {:induction false} KeptStays<T>(s: seq<T>, rem: seq<nat>, m: nat, n: nat)
    requires m <= n <= |s|
    ensures Kept(s, rem, m) <= Kept(s, rem, n)
    decreases n
  {
    if m < n {
      KeptStays(s, rem, m, n - 1);
    }
  }

  lemma KeptAt<T>(s: seq<T>, rem: seq<nat>, k: nat, i: nat)
    requires Increasing(rem) && k <= |rem| && i < |s| && Between(rem, k, i)
    ensures k <= i && i - k < |Kept(s, rem, |s|)| && Kept(s, rem, |s|)[i - k] == s[i]
  {
    RemovedAre(s, rem, i, k);
    Sizes(s, rem, i);
    assert i !in rem;
    NextElement(s, rem, i);
    KeptStays(s, rem, i + 1, |s|);
  }

  lemma NothingListed<T>(s: seq<T>)
    ensures Arranged(s, [], |s|) == s && |Kept(s, [], |s|)| == |s|
  {
    BetweenIndices(s, [], 0, |s|);
    assert s[0..|s|] == s;
  }

  /** The loop: each turn rotates the removed block up to the next listed index, which joins it. */
  method RotateOut<T>(a: array<T>, rem: seq<nat>) returns (end: nat)
    requires Increasing(rem) && rem != [] && forall i :: 0 <= i < |rem| ==> rem[i] < a.Length
    modifies a
    ensures a[..] == Arranged(old(a[..]), rem, a.Length)
    ensures end == |Kept(old(a[..]), rem, a.Length)|
  {
    hide Kept, Removed, Arranged, Rotated;
    ghost var s := a[..];
    FirstIndex(s, rem);
    Sizes(s, rem, rem[0] + 1);
    var writer: nat := rem[0];
    var pivot: nat := writer;
    var prevRem := rem[0];
    var remIt: nat, count: nat := 1, 1;
    while writer != a.Length && remIt != |rem|
      invariant 1 <= remIt <= |rem| && prevRem == pivot == rem[remIt - 1]
      invariant a[..] == Arranged(s, rem, pivot + 1)
      invariant count == |Removed(s, rem, pivot + 1)| && writer == |Kept(s, rem, pivot + 1)|
      invariant writer + count == pivot + 1
      decreases |rem| - remIt
    {
      NextIndex(s, rem, remIt, pivot);
      pivot := pivot + (rem[remIt] - prevRem);
      prevRem := rem[remIt];
      writer := RemoveN(a, writer, pivot, count);
      count, remIt := count + 1, remIt + 1;
    }
    LastIndex(s, rem, remIt - 1);
    end := RemoveN(a, writer, a.Length, count);
  }

  lemma NextIndex<T>(s: seq<T>, rem: seq<nat>, i: nat, p: nat)
    requires Increasing(rem) && 0 < i < |rem| && p == rem[i - 1] && rem[i] < |s|
    ensures p < rem[i]
    ensures var k, r := |Kept(s, rem, p + 1)|, |Removed(s, rem, p + 1)|;
            && k + r == p + 1 && |Arranged(s, rem, p + 1)| == |s|
            && Rotated(Arranged(s, rem, p + 1), k, k + r, rem[i]) == Arranged(s, rem, rem[i] + 1)
            && |Removed(s, rem, rem[i] + 1)| == r + 1
            && |Kept(s, rem, rem[i] + 1)| == rem[i] - r
  {
    hide Kept, Removed, Arranged, Rotated;
    NoneBetween(rem, i - 1);
    BetweenIndices(s, rem, p + 1, rem[i]);
    RotateArranged(s, rem, p + 1, rem[i]);
    PassIndex(s, rem, rem[i]);
    Sizes(s, rem, rem[i] + 1);
  }

  lemma LastIndex<T>(s: seq<T>, rem: seq<nat>, i: nat)
    requires Increasing(rem) && i < |rem| && rem[i] < |s|
    requires i + 1 == |rem| || |Kept(s, rem, rem[i] + 1)| == |s|
    ensures var k, r := |Kept(s, rem, rem[i] + 1)|, |Removed(s, rem, rem[i] + 1)|;
            && k + r == rem[i] + 1 && |Arranged(s, rem, rem[i] + 1)| == |s|
            && Rotated(Arranged(s, rem, rem[i] + 1), k, k + r, |s|) == Arranged(s, rem, |s|)
            && |Kept(s, rem, |s|)| == |s| - r
  {
    hide Kept, Removed, Arranged, Rotated;
    Sizes(s, rem, rem[i] + 1);
    Sizes(s, rem, |s|);
    PassIndex(s, rem, rem[i]);
    NoneBetween(rem, i);
    BetweenIndices(s, rem, rem[i] + 1, |s|);
    RotateArranged(s, rem, rem[i] + 1, |s|);
  }

  // Removing duplicates ----------------------------------------------------------------------------------

  /** The elements at their first occurrences. */
  ghost function Firsts<T>(s: seq<T>): seq<T> {
    if s == [] then []
    else
      var front, last := s[..|s| - 1], s[|s| - 1];
      if last in front then Firsts(front) else Firsts(front) + [last]
  }

  lemma {:induction false} FirstsElement<T>(s: seq<T>, x: T)
    ensures x in Firsts(s) <==> x in s
  {
    if s != [] {
      FirstsElement(s[..|s| - 1], x);
      assert s == s[..|s| - 1] + [s[|s| - 1]];
    }
  }

  /** The same elements, each once. */
  lemma {:induction false} FirstsMeaning<T>(s: seq<T>)
    ensures forall x :: x in Firsts(s) <==> x in s
    ensures forall i, j :: 0 <= i < j < |Firsts(s)| ==> Firsts(s)[i] != Firsts(s)[j]
    ensures |Firsts(s)| <= |s|
  {
    if s != [] {
      var front, last := s[..|s| - 1], s[|s| - 1];
      FirstsMeaning(front);
      assert s == front + [last];
    }
  }

  /** They stand in the order of their first occurrences: whatever comes earlier in the result occurs
      before any occurrence of a later element. */
  lemma {:induction false} FirstsInOrder<T>(s: seq<T>, i: nat, j: nat, q: nat)
    requires i < j < |Firsts(s)| && q < |s| && s[q] == Firsts(s)[j]
    ensures Firsts(s)[i] in s[..q]
  {
    var front, last := s[..|s| - 1], s[|s| - 1];
    FirstsMeaning(front);
    assert s == front + [last];
    if q < |front| {
      assert front[q] == s[q] && front[..q] == s[..q] && front[q] in front;
      assert j < |Firsts(front)|;
      FirstsInOrder(front, i, j, q);
    } else {
      assert s[..q] == front;
      var x := Firsts(front)[i];
      assert Firsts(s)[i] == x && x in Firsts(front);
      FirstsElement(front, x);
    }
  }

  method RemoveDuplicates<T(==)>(a: array<T>) returns (result: nat)
    modifies a
    ensures result <= a.Length
    ensures a[..result] == Firsts(old(a[..]))
    ensures forall x :: x in a[..result] <==> x in old(a[..])
    ensures forall i, j :: 0 <= i < j < result ==> a[i] != a[j]
  {
    ghost var s := a[..];
    var uniq: set<T> := {};
    result := 0;
    for first := 0 to a.Length
      invariant result <= first
      invariant a[..result] == Firsts(s[..first]) && a[first..] == s[first..]
      invariant forall x :: x in uniq <==> x in s[..first]
    {
      assert a[first] == a[first..][0] == s[first];
      assert s[..first + 1][..first] == s[..first];
      assert s[..first + 1] == s[..first] + [s[first]];
      assert a[first + 1..] == s[first + 1..] by {
        assert a[first..][1..] == a[first + 1..] && s[first..][1..] == s[first + 1..];
      }
      if a[first] !in uniq {
        uniq := uniq + {a[first]};
        if result != first {
          ghost var before := a[..];
          a[result] := a[first];
          assert a[..result] == before[..result] && a[first + 1..] == before[first + 1..];
        }
        result := result + 1;
      }
    }
    assert s[..a.Length] == s;
    FirstsMeaning(s);
    assert forall i :: 0 <= i < result ==> a[i] == a[..result][i];
  }
}
