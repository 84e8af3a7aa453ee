/** Searching in texts. */
module Text {

  /** The position of the first `c`, or the length of the text when there is none. */
  function IndexOf(s: string, c: char): (i: nat)
    ensures i <= |s| && (i < |s| ==> s[i] == c) && c !in s[..i]
  {
    if s == "" || s[0] == c then 0 else 1 + IndexOf(s[1..], c)
  }

  lemma IndexOfAt(name: string, c: char, t: string)
    requires c !in name
    ensures IndexOf(name + [c] + t, c) == |name|
  {
    var s := name + [c] + t;
    assert s[|name|] == c;
    assert forall i :: 0 <= i < |name| ==> s[i] == name[i];
    assert forall i :: |name| < i <= |s| ==> s[..i][|name|] == c;
  }

  lemma {:induction false} IndexOfAppend(s: string, t: string, c: char)
    requires IndexOf(s, c) < |s|
    ensures IndexOf(s + t, c) == IndexOf(s, c)
  {
    if s[0] != c {
      assert (s + t)[1..] == s[1..] + t;
      IndexOfAppend(s[1..], t, c);
    }
  }

  lemma IndexOfSkip(s: string, t: string, c: char)
    requires c !in s
    ensures IndexOf(s + t, c) == |s| + IndexOf(t, c)
  {
    var i := IndexOf(t, c);
    if i < |t| {
      assert c !in s + t[..i];
      assert s + t == (s + t[..i]) + [c] + t[i + 1..];
      IndexOfAt(s + t[..i], c, t[i + 1..]);
    } else {
      assert t[..i] == t;
      assert c !in s + t;
    }
  }
}
