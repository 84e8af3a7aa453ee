/**
 The cache-variable pattern matcher: a pattern is literal text with placeholders, and a name is
 matched in one pass, each placeholder taking as little as lets the text after it match.
 */
module PatternTable {
  import opened Wrappers
  import opened Text

  datatype PlaceholderClass = Ident | IdentHyphen | FourDigit | OneDigit | Unknown

  predicate IsAsciiAlpha(c: char) {
    'A' <= c <= 'Z' || 'a' <= c <= 'z'
  }

  predicate IsAsciiDigit(c: char) {
    '0' <= c <= '9'
  }

  function ClassOf(placeholder: string): PlaceholderClass {
    if placeholder == "<LANG>" || placeholder == "<CONFIG>" || placeholder == "<PackageName>" ||
       placeholder == "<FEATURE>" || placeholder == "<TYPE>" then Ident
    else if placeholder == "<PROJECT-NAME>" || placeholder == "<an-attribute>" then IdentHyphen
    else if placeholder == "<NNNN>" then FourDigit
    else if placeholder == "<n>" then OneDigit
    else Unknown
  }

  predicate ClassAllowsStart(cls: PlaceholderClass, c: char) {
    match cls
    case Ident => IsAsciiAlpha(c)
    case IdentHyphen => IsAsciiAlpha(c)
    case FourDigit => IsAsciiDigit(c)
    case OneDigit => IsAsciiDigit(c)
    case Unknown => false
  }

  predicate ClassAllowsCont(cls: PlaceholderClass, c: char) {
    match cls
    case Ident => IsAsciiAlpha(c) || IsAsciiDigit(c) || c == '_'
    case IdentHyphen => IsAsciiAlpha(c) || IsAsciiDigit(c) || c == '_' || c == '-'
    case FourDigit => IsAsciiDigit(c)
    case OneDigit => IsAsciiDigit(c)
    case Unknown => false
  }

  predicate IsFixed(cls: PlaceholderClass) {
    cls == FourDigit || cls == OneDigit
  }

  function FixedLength(cls: PlaceholderClass): nat {
    if cls == FourDigit then 4 else 1
  }

  // Patterns ----------------------------------------------------------------------------------------

  datatype Segment = Lit(text: string) | Hole(cls: PlaceholderClass)

  /** The segments of a pattern, or `None` when it is malformed: a placeholder that is not closed, not
      known, or directly followed by another. */
  function Parse(p: string): Option<seq<Segment>> {
    if p == "" then Some([])
    else if p[0] != '<' then Before(Lit(p[..IndexOf(p, '<')]), Parse(p[IndexOf(p, '<')..]))
    else
      var c := IndexOf(p, '>');
      if c == |p| || ClassOf(p[..c + 1]) == Unknown || (c + 1 < |p| && p[c + 1] == '<') then None
      else Before(Hole(ClassOf(p[..c + 1])), Parse(p[c + 1..]))
  }

  function Before(s: Segment, rest: Option<seq<Segment>>): Option<seq<Segment>> {
    if rest.Some? then Some([s] + rest.value) else None
  }

  // What a pattern stands for --------------------------------------------------------------------------

  /** A text that a placeholder of this class may stand for. */
  predicate Run(cls: PlaceholderClass, t: string) {
    && t != "" && ClassAllowsStart(cls, t[0])
    && (forall i :: 0 < i < |t| ==> ClassAllowsCont(cls, t[i]))
    && (IsFixed(cls) ==> |t| == FixedLength(cls))
  }

  /** The unrestricted meaning: the text splits into runs and literals in some way. */
  ghost predicate Matches(segs: seq<Segment>, t: string) {
    if segs == [] then t == ""
    else
      match segs[0]
      case Lit(s) => s <= t && Matches(segs[1..], t[|s|..])
      case Hole(cls) => exists k :: 0 <= k <= |t| && Run(cls, t[..k]) && Matches(segs[1..], t[k..])
  }

  /** `k` is the least length, at least one, after which the anchor follows, and a run of the class. */
  ghost predicate Shortest(cls: PlaceholderClass, anchor: string, t: string, k: nat) {
    && 1 <= k <= |t| && Run(cls, t[..k]) && anchor <= t[k..]
    && (!IsFixed(cls) ==> forall j :: 1 <= j < k ==> !(anchor <= t[j..]))
  }

  /** The lazy meaning: a placeholder takes the shortest run that its anchor follows, and a last
      placeholder takes everything. */
  ghost predicate Lazy(segs: seq<Segment>, t: string)
    decreases |segs|
  {
    if segs == [] then t == ""
    else if segs[0].Lit? then segs[0].text <= t && Lazy(segs[1..], t[|segs[0].text|..])
    else if |segs| == 1 then Run(segs[0].cls, t)
    else
      segs[1].Lit? &&
      exists k: nat :: Shortest(segs[0].cls, segs[1].text, t, k) && Lazy(segs[2..], t[k + |segs[1].text|..])
  }

  lemma ShortestUnique(cls: PlaceholderClass, anchor: string, t: string, j: nat, k: nat)
    requires Shortest(cls, anchor, t, j) && Shortest(cls, anchor, t, k)
    ensures j == k
  {}

  lemma MatchesHole(cls: PlaceholderClass, rest: seq<Segment>, t: string, k: nat)
    requires k <= |t| && Run(cls, t[..k]) && Matches(rest, t[k..])
    ensures Matches([Hole(cls)] + rest, t)
  {
    assert ([Hole(cls)] + rest)[1..] == rest;
  }

  lemma MatchesLit(s: string, rest: seq<Segment>, t: string)
    requires s <= t && Matches(rest, t[|s|..])
    ensures Matches([Lit(s)] + rest, t)
  {
    assert ([Lit(s)] + rest)[1..] == rest;
  }

  /** Every lazy match is a match. */
  lemma {:induction false} LazyIsSound(segs: seq<Segment>, t: string)
    requires Lazy(segs, t)
    ensures Matches(segs, t)
    decreases |segs|
  {
    hide Matches, Run;
    if segs == [] {
      NoSegments();
    } else if segs[0].Lit? {
      LazyIsSound(segs[1..], t[|segs[0].text|..]);
      MatchesLit(segs[0].text, segs[1..], t);
      assert [segs[0]] + segs[1..] == segs;
    } else if |segs| == 1 {
      NoSegments();
      assert t[..|t|] == t && t[|t|..] == "";
      MatchesHole(segs[0].cls, [], t, |t|);
      assert [segs[0]] + [] == segs;
    } else {
      var a := segs[1].text;
      var k: nat :| Shortest(segs[0].cls, a, t, k) && Lazy(segs[2..], t[k + |a|..]);
      LazyIsSound(segs[2..], t[k + |a|..]);
      assert t[k..][|a|..] == t[k + |a|..];
      MatchesLit(a, segs[2..], t[k..]);
      MatchesHole(segs[0].cls, [Lit(a)] + segs[2..], t, k);
      assert [segs[0]] + ([Lit(a)] + segs[2..]) == segs;
    }
  }

  lemma NoSegments()
    ensures Matches([], "") && Lazy([], "")
  {}

  /** No two placeholders touch. */
  ghost predicate Spaced(segs: seq<Segment>) {
    forall i :: 0 <= i < |segs| - 1 ==> segs[i].Lit? || segs[i + 1].Lit?
  }

  /** The text has a character that a placeholder of this class cannot stand for. */
  ghost predicate Foreign(cls: PlaceholderClass, text: string) {
    exists i :: 0 <= i < |text| && !ClassAllowsCont(cls, text[i])
  }

  /** The placeholder is last, or has a fixed length, or is followed by a text it cannot swallow. */
  ghost predicate GuardedAt(segs: seq<Segment>, i: nat)
    requires i < |segs|
  {
    segs[i].Hole? && i + 1 < |segs| ==>
      IsFixed(segs[i].cls) || (segs[i + 1].Lit? && Foreign(segs[i].cls, segs[i + 1].text))
  }

  ghost predicate Guarded(segs: seq<Segment>) {
    forall i :: 0 <= i < |segs| ==> GuardedAt(segs, i)
  }

  lemma FirstForeign(cls: PlaceholderClass, text: string, n: nat) returns (p: nat)
    requires n <= |text| && exists i :: 0 <= i < n && !ClassAllowsCont(cls, text[i])
    ensures p < n && !ClassAllowsCont(cls, text[p]) && forall i :: 0 <= i < p ==> ClassAllowsCont(cls, text[i])
  {
    var i: nat :| i < n && !ClassAllowsCont(cls, text[i]);
    if j: nat :| j < i && !ClassAllowsCont(cls, text[j]) {
      p := FirstForeign(cls, text, i);
    } else {
      p := i;
    }
  }

  /** A text with a foreign character follows a run at its end only. */
  lemma ForeignFollowsAtEnd(cls: PlaceholderClass, anchor: string, t: string, k: nat, j: nat)
    requires k <= |t| && Run(cls, t[..k]) && anchor <= t[k..] && Foreign(cls, anchor) && 1 <= j < k
    ensures !(anchor <= t[j..])
  {
    var p := FirstForeign(cls, anchor, |anchor|);
    if j + p < k {
      assert t[..k][j + p] == t[j + p];
    } else {
      assert t[j + p] == anchor[j + p - k];
    }
    assert ClassAllowsCont(cls, t[j + p]);
    assert t[j..][p] == t[j + p];
  }

  lemma GuardedTail(segs: seq<Segment>)
    requires segs != [] && Spaced(segs) && Guarded(segs)
    ensures Spaced(segs[1..]) && Guarded(segs[1..])
  {
    forall i | 0 <= i < |segs[1..]| ensures GuardedAt(segs[1..], i) {
      assert GuardedAt(segs, i + 1);
    }
    assert forall i :: 0 <= i < |segs| - 1 ==> segs[1..][i] == segs[i + 1];
  }

  /** When every placeholder before the last segment has a fixed length or is followed by a text it cannot
      swallow, nothing is lost by being lazy. */
  lemma {:induction false} LazyIsCompleteIfGuarded(segs: seq<Segment>, t: string)
    requires Spaced(segs) && Guarded(segs) && Matches(segs, t)
    ensures Lazy(segs, t)
    decreases |segs|
  {
    hide Run, Guarded, Spaced, GuardedAt, Shortest;
    if segs != [] {
      GuardedTail(segs);
      match segs[0]
      case Lit(s) =>
        LazyIsCompleteIfGuarded(segs[1..], t[|s|..]);
      case Hole(cls) =>
        var k :| 0 <= k <= |t| && Run(cls, t[..k]) && Matches(segs[1..], t[k..]);
        if |segs| == 1 {
          assert segs[1..] == [];
          assert t[..k] == t;
        } else {
          AnchorFollows(segs);
          LazyIsCompleteIfGuarded(segs[1..], t[k..]);
          GuardedHole(segs, t, k);
        }
    }
  }

  lemma GuardedHole(segs: seq<Segment>, t: string, k: nat)
    requires |segs| > 1 && segs[0].Hole? && segs[1].Lit? && Guarded(segs)
    requires k <= |t| && Run(segs[0].cls, t[..k]) && Lazy(segs[1..], t[k..])
    ensures Lazy(segs, t)
  {
    hide Run, Shortest;
    assert GuardedAt(segs, 0);
    var a := segs[1].text;
    assert a <= t[k..] && Lazy(segs[2..], t[k + |a|..]) by {
      assert segs[1..][1..] == segs[2..] && t[k..][|a|..] == t[k + |a|..];
    }
    GuardedShortest(segs, t, k);
    LazyHole(segs, t, k);
  }

  lemma AnchorFollows(segs: seq<Segment>)
    requires |segs| > 1 && Spaced(segs) && segs[0].Hole?
    ensures segs[1].Lit?
  {}

  lemma GuardedShortest(segs: seq<Segment>, t: string, k: nat)
    requires |segs| > 1 && segs[0].Hole? && segs[1].Lit? && GuardedAt(segs, 0)
    requires k <= |t| && Run(segs[0].cls, t[..k]) && segs[1].text <= t[k..]
    ensures Shortest(segs[0].cls, segs[1].text, t, k)
  {
    var cls, a := segs[0].cls, segs[1].text;
    RunNotEmpty(cls, t[..k]);
    if !IsFixed(cls) {
      forall j | 1 <= j < k ensures !(a <= t[j..]) {
        ForeignFollowsAtEnd(cls, a, t, k, j);
      }
    }
  }

  /** A single variable placeholder between two texts: being lazy loses exactly the names in which the
      text after the placeholder already occurs earlier. */
  lemma LazyLosesEarlyAnchors(pre: string, cls: PlaceholderClass, anchor: string, x: string)
    requires !IsFixed(cls) && Run(cls, x)
    ensures Matches([Lit(pre), Hole(cls), Lit(anchor)], pre + x + anchor)
    ensures Lazy([Lit(pre), Hole(cls), Lit(anchor)], pre + x + anchor) <==>
            forall j :: 1 <= j < |x| ==> !(anchor <= (x + anchor)[j..])
  {
    hide Matches, Run;
    var segs, t := [Hole(cls), Lit(anchor)], x + anchor;
    var whole := pre + x + anchor;
    assert whole[|pre|..] == t;
    assert t[..|x|] == x && t[|x|..] == anchor && anchor[|anchor|..] == "" && t[|x| + |anchor|..] == "";
    NoSegments();
    MatchesLit(anchor, [], anchor);
    MatchesHole(cls, [Lit(anchor)] + [], t, |x|);
    MatchesLit(pre, [Hole(cls)] + ([Lit(anchor)] + []), whole);
    assert [Lit(pre)] + ([Hole(cls)] + ([Lit(anchor)] + [])) == [Lit(pre)] + segs;
    assert [Lit(pre)] + segs == [Lit(pre), Hole(cls), Lit(anchor)];
    LazyOneHole(cls, anchor, x);
    assert ([Lit(pre)] + segs)[1..] == segs;
  }

  lemma LazyHoleTakes(segs: seq<Segment>, t: string) returns (k: nat)
    requires |segs| >= 2 && segs[0].Hole? && segs[1].Lit? && Lazy(segs, t)
    ensures Shortest(segs[0].cls, segs[1].text, t, k) && Lazy(segs[2..], t[k + |segs[1].text|..])
  {
    hide Run, IsFixed;
    k :| Shortest(segs[0].cls, segs[1].text, t, k) && Lazy(segs[2..], t[k + |segs[1].text|..]);
  }

  lemma LazyHole(segs: seq<Segment>, t: string, k: nat)
    requires |segs| >= 2 && segs[0].Hole? && segs[1].Lit?
    requires Shortest(segs[0].cls, segs[1].text, t, k) && Lazy(segs[2..], t[k + |segs[1].text|..])
    ensures Lazy(segs, t)
  {
    hide Run, IsFixed;
  }

  lemma LazyNothing(t: string)
    ensures Lazy([], t) <==> t == ""
  {}

  lemma LazyPair(cls: PlaceholderClass, anchor: string, t: string)
    ensures Lazy([Hole(cls), Lit(anchor)], t) <==> exists k: nat :: Shortest(cls, anchor, t, k) && k + |anchor| == |t|
  {
    hide Run, IsFixed, Lazy;
    var segs := [Hole(cls), Lit(anchor)];
    assert segs[2..] == [];
    if Lazy(segs, t) {
      var k := LazyHoleTakes(segs, t);
      LazyNothing(t[k + |anchor|..]);
    }
    if k: nat :| Shortest(cls, anchor, t, k) && k + |anchor| == |t| {
      LazyNothing(t[k + |anchor|..]);
      LazyHole(segs, t, k);
    }
  }

  lemma LazyOneHole(cls: PlaceholderClass, anchor: string, x: string)
    requires !IsFixed(cls) && Run(cls, x)
    ensures Lazy([Hole(cls), Lit(anchor)], x + anchor) <==>
            forall j :: 1 <= j < |x| ==> !(anchor <= (x + anchor)[j..])
  {
    hide Run, IsFixed, Lazy;
    var t := x + anchor;
    assert t[..|x|] == x && t[|x|..] == anchor;
    RunNotEmpty(cls, x);
    LazyPair(cls, anchor, t);
    assert Shortest(cls, anchor, t, |x|) <==> forall j :: 1 <= j < |x| ==> !(anchor <= t[j..]);
  }

  // Which patterns lose instances ----------------------------------------------------------------------

  /** Texts and placeholders take turns, and every placeholder is known. */
  ghost predicate Alternates(segs: seq<Segment>) {
    && (forall i :: 0 <= i < |segs| - 1 ==> segs[i].Lit? != segs[i + 1].Lit?)
    && (forall i :: 0 <= i < |segs| && segs[i].Hole? ==> segs[i].cls != Unknown)
  }

  function Sample(cls: PlaceholderClass): string {
    if cls == FourDigit then "0000" else if cls == OneDigit then "0" else "A"
  }

  /** An instance of the segments. */
  function SampleAll(segs: seq<Segment>): string {
    if segs == [] then ""
    else (if segs[0].Lit? then segs[0].text else Sample(segs[0].cls)) + SampleAll(segs[1..])
  }

  /** An instance that is not found: the first placeholder that is not guarded stands for a text in which what
      follows it occurs early, so that the rest goes on with `_`, which starts nothing. */
  ghost function Missed(segs: seq<Segment>): string {
    if segs == [] then ""
    else if GuardedAt(segs, 0) then
      (if segs[0].Lit? then segs[0].text else Sample(segs[0].cls)) + Missed(segs[1..])
    else if segs[1].Hole? then ""
    else "A" + segs[1].text + "_" + segs[1].text + SampleAll(segs[2..])
  }

  lemma SampleRuns(cls: PlaceholderClass)
    requires cls != Unknown
    ensures Run(cls, Sample(cls))
  {}

  lemma LossyRuns(cls: PlaceholderClass, anchor: string)
    requires cls != Unknown && !IsFixed(cls) && !Foreign(cls, anchor)
    ensures Run(cls, "A" + anchor + "_") && Run(cls, "A")
  {
    assert forall i :: 0 <= i < |anchor| ==> ("A" + anchor + "_")[i + 1] == anchor[i];
  }

  lemma AlternatesTail(segs: seq<Segment>)
    requires segs != [] && Alternates(segs)
    ensures Alternates(segs[1..]) && Spaced(segs)
  {
    assert forall i :: 0 <= i < |segs| - 1 ==> segs[1..][i] == segs[i + 1];
  }

  lemma HoleMatches(segs: seq<Segment>, run: string, rest: string)
    requires segs != [] && segs[0].Hole? && Run(segs[0].cls, run) && Matches(segs[1..], rest)
    ensures Matches(segs, run + rest)
  {
    hide Run, Matches;
    var t := run + rest;
    assert t[..|run|] == run && t[|run|..] == rest;
    MatchesHole(segs[0].cls, segs[1..], t, |run|);
    assert [segs[0]] + segs[1..] == segs;
  }

  lemma LitMatches(segs: seq<Segment>, rest: string)
    requires segs != [] && segs[0].Lit? && Matches(segs[1..], rest)
    ensures Matches(segs, segs[0].text + rest)
  {
    hide Matches;
    var t := segs[0].text + rest;
    assert t[|segs[0].text|..] == rest;
    MatchesLit(segs[0].text, segs[1..], t);
    assert [segs[0]] + segs[1..] == segs;
  }

  lemma {:induction false} SampleMatches(segs: seq<Segment>)
    requires Alternates(segs)
    ensures Matches(segs, SampleAll(segs))
  {
    hide Run, Sample, Matches;
    if segs == [] {
      NoSegments();
    } else {
      AlternatesTail(segs);
      SampleMatches(segs[1..]);
      if segs[0].Lit? {
        LitMatches(segs, SampleAll(segs[1..]));
      } else {
        SampleRuns(segs[0].cls);
        HoleMatches(segs, Sample(segs[0].cls), SampleAll(segs[1..]));
      }
    }
  }

  /** At a placeholder that is not guarded the instance is matched, but not lazily. */
  lemma LosesHere(segs: seq<Segment>)
    requires segs != [] && Alternates(segs) && !GuardedAt(segs, 0)
    ensures Matches(segs, Missed(segs)) && !Lazy(segs, Missed(segs))
  {
    hide Run, Matches, Lazy, SampleAll, Foreign;
    var cls, a, rest := segs[0].cls, segs[1].text, SampleAll(segs[2..]);
    LossyRuns(cls, a);
    AlternatesTail(segs);
    AlternatesTail(segs[1..]);
    assert segs[1..][1..] == segs[2..];
    assert Missed(segs) == ("A" + a + "_") + (a + rest);
    SampleMatches(segs[2..]);
    LitMatches(segs[1..], rest);
    HoleMatches(segs, "A" + a + "_", a + rest);
    assert Missed(segs) == "A" + (a + ("_" + (a + rest)));
    assert |segs| > 2 ==> segs[1..][1].Hole?;
    NothingStartsSo(segs[2..], a + rest);
    TakesOne(segs, "_" + (a + rest));
  }

  /** A placeholder of variable length ends as soon as what follows it does. */
  lemma TakesOne(segs: seq<Segment>, rest: string)
    requires |segs| >= 2 && segs[0].Hole? && segs[1].Lit? && !IsFixed(segs[0].cls) && Run(segs[0].cls, "A")
    ensures Lazy(segs, "A" + (segs[1].text + rest)) ==> Lazy(segs[2..], rest)
  {
    hide Run, Lazy;
    var a := segs[1].text;
    var t := "A" + (a + rest);
    if Lazy(segs, t) {
      var k := LazyHoleTakes(segs, t);
      assert t[..1] == "A" && t[1..] == a + rest && t[1 + |a|..] == rest;
      ShortestUnique(segs[0].cls, a, t, 1, k);
    }
  }

  lemma NothingStartsSo(segs: seq<Segment>, rest: string)
    requires segs != [] ==> segs[0].Hole?
    ensures !Lazy(segs, "_" + rest)
  {
    forall k: nat | 1 <= k <= |"_" + rest| ensures segs != [] ==> !Run(segs[0].cls, ("_" + rest)[..k]) {
      assert ("_" + rest)[..k][0] == '_';
    }
  }

  /** A guarded placeholder takes exactly the run it was given. */
  lemma GuardedTakes(segs: seq<Segment>, run: string, rest: string)
    requires |segs| >= 2 && segs[0].Hole? && segs[1].Lit? && GuardedAt(segs, 0)
    requires Run(segs[0].cls, run) && Lazy(segs, run + (segs[1].text + rest))
    ensures Lazy(segs[2..], rest)
  {
    hide Run, Lazy;
    var a := segs[1].text;
    var t := run + (a + rest);
    assert t[..|run|] == run && t[|run|..] == a + rest && t[|run| + |a|..] == rest;
    GuardedShortest(segs, t, |run|);
    var k := LazyHoleTakes(segs, t);
    ShortestUnique(segs[0].cls, a, t, |run|, k);
  }

  lemma {:induction false} MissedIsLost(segs: seq<Segment>)
    requires Alternates(segs) && !Guarded(segs)
    ensures Matches(segs, Missed(segs)) && !Lazy(segs, Missed(segs))
    decreases |segs|
  {
    hide Run, Matches, Lazy, Sample, GuardedAt, Alternates, Missed;
    if !GuardedAt(segs, 0) {
      LosesHere(segs);
    } else {
      var more := segs[1..];
      UnguardedTail(segs);
      AlternatesTail(segs);
      MissedIsLost(more);
      MissedNext(segs);
      if segs[0].Lit? {
        LitMatches(segs, Missed(more));
        LazyAfterLit(segs, Missed(more));
      } else {
        var cls := segs[0].cls;
        KnownHole(segs);
        SampleRuns(cls);
        HoleMatches(segs, Sample(cls), Missed(more));
        AnchorFollows(segs);
        LitIsGuarded(more);
        UnguardedTail(more);
        MissedNext(more);
        assert more[1..] == segs[2..];
        LazyAfterLit(more, Missed(segs[2..]));
        if Lazy(segs, Missed(segs)) {
          GuardedTakes(segs, Sample(cls), Missed(segs[2..]));
          assert false;
        }
      }
    }
  }

  lemma KnownHole(segs: seq<Segment>)
    requires segs != [] && Alternates(segs) && segs[0].Hole?
    ensures segs[0].cls != Unknown
  {}

  lemma LitIsGuarded(segs: seq<Segment>)
    requires segs != [] && segs[0].Lit?
    ensures GuardedAt(segs, 0)
  {}

  lemma MissedNext(segs: seq<Segment>)
    requires segs != [] && GuardedAt(segs, 0)
    ensures Missed(segs) == (if segs[0].Lit? then segs[0].text else Sample(segs[0].cls)) + Missed(segs[1..])
  {}

  lemma LazyAfterLit(segs: seq<Segment>, rest: string)
    requires segs != [] && segs[0].Lit?
    ensures Lazy(segs, segs[0].text + rest) <==> Lazy(segs[1..], rest)
  {
    assert (segs[0].text + rest)[|segs[0].text|..] == rest;
  }

  lemma UnguardedTail(segs: seq<Segment>)
    requires segs != [] && !Guarded(segs) && GuardedAt(segs, 0)
    ensures segs[1..] != [] && !Guarded(segs[1..])
  {
    var i :| 0 <= i < |segs| && !GuardedAt(segs, i);
    assert !GuardedAt(segs[1..], i - 1);
  }

  lemma RunNotEmpty(cls: PlaceholderClass, t: string)
    requires Run(cls, t)
    ensures |t| >= 1
  {}

  lemma FlagsRun()
    ensures Run(Ident, "A_FLAGS")
  {}

  /** `CMAKE_A_FLAGS_FLAGS` is an instance of `CMAKE_<LANG>_FLAGS` that is not found. */
  lemma FlagsTwice()
    ensures Parse("CMAKE_<LANG>_FLAGS") == Some([Lit("CMAKE_"), Hole(Ident), Lit("_FLAGS")])
    ensures Matches([Lit("CMAKE_"), Hole(Ident), Lit("_FLAGS")], "CMAKE_" + "A_FLAGS" + "_FLAGS")
    ensures !Lazy([Lit("CMAKE_"), Hole(Ident), Lit("_FLAGS")], "CMAKE_" + "A_FLAGS" + "_FLAGS")
  {
    hide Matches, Lazy, Parse, Run;
    FlagsRun();
    LazyLosesEarlyAnchors("CMAKE_", Ident, "_FLAGS", "A_FLAGS");
    assert "_FLAGS" <= ("A_FLAGS" + "_FLAGS")[1..];
    ParseLit("CMAKE_", "<LANG>_FLAGS");
    assert "CMAKE_" + "<LANG>_FLAGS" == "CMAKE_<LANG>_FLAGS";
    ParseHole("<LANG>", "_FLAGS", "");
    ParseNothing();
    assert "<LANG>" + "_FLAGS" + "" == "<LANG>_FLAGS";
    assert [Lit("CMAKE_")] + ([Hole(Ident)] + ([Lit("_FLAGS")] + [])) == [Lit("CMAKE_"), Hole(Ident), Lit("_FLAGS")];
  }

  // Reading a pattern piece by piece ----------------------------------------------------------------------

  lemma IndexOfEnd(s: string, c: char)
    requires c !in s
    ensures IndexOf(s, c) == |s|
  {
    assert forall i :: 0 <= i < |s| ==> s[i] in s;
  }

  lemma IndexOfNext(s: string, t: string, c: char)
    requires c !in s && (t == "" || t[0] == c)
    ensures IndexOf(s + t, c) == |s|
  {
    if t == "" {
      assert s + t == s;
      IndexOfEnd(s, c);
    } else {
      assert s + t == s + [c] + t[1..];
      IndexOfAt(s, c, t[1..]);
    }
  }

  lemma ParseLit(lit: string, rest: string)
    requires lit != "" && '<' !in lit && (rest == "" || rest[0] == '<')
    ensures Parse(lit + rest) == Before(Lit(lit), Parse(rest))
  {
    hide IndexOf;
    var p := lit + rest;
    IndexOfNext(lit, rest, '<');
    assert p[..|lit|] == lit && p[|lit|..] == rest && p[0] == lit[0] && lit[0] in lit;
  }

  /** A placeholder, the text up to the next placeholder, and the rest of the pattern. */
  lemma ParseHole(ph: string, anchor: string, rest: string)
    requires |ph| >= 1 && ph[0] == '<' && ph[|ph| - 1] == '>' && '>' !in ph[..|ph| - 1]
    requires '<' !in anchor && (rest == "" || rest[0] == '<')
    ensures Parse(ph + anchor + rest) ==
            if ClassOf(ph) == Unknown || (anchor == "" && rest != "") then None
            else if anchor == "" then Some([Hole(ClassOf(ph))])
            else Before(Hole(ClassOf(ph)), Before(Lit(anchor), Parse(rest)))
  {
    hide Parse, ClassOf;
    ParseHoleStep(ph, anchor + rest);
    assert ph + anchor + rest == ph + (anchor + rest);
    if anchor != "" {
      assert (anchor + rest)[0] == anchor[0] && anchor[0] in anchor;
      ParseLit(anchor, rest);
    } else {
      assert anchor + rest == rest;
      ParseNothing();
      assert [Hole(ClassOf(ph))] + [] == [Hole(ClassOf(ph))];
    }
  }

  lemma ParseNothing()
    ensures Parse("") == Some([])
  {}

  lemma ParseHoleStep(ph: string, tail: string)
    requires |ph| >= 1 && ph[0] == '<' && ph[|ph| - 1] == '>' && '>' !in ph[..|ph| - 1]
    ensures Parse(ph + tail) ==
            if ClassOf(ph) == Unknown || (tail != "" && tail[0] == '<') then None
            else Before(Hole(ClassOf(ph)), Parse(tail))
  {
    hide IndexOf, ClassOf;
    var p := ph + tail;
    assert p == ph[..|ph| - 1] + ['>'] + tail;
    IndexOfAt(ph[..|ph| - 1], '>', tail);
    assert p[..|ph|] == ph && p[|ph|..] == tail && p[0] == '<';
  }

  // The matcher ---------------------------------------------------------------------------------------------

  /** The pattern is well formed and the text matches it lazily. */
  ghost predicate Found(p: string, t: string) {
    Parse(p).Some? && Lazy(Parse(p).value, t)
  }

  lemma FoundLit(lit: string, rest: string, t: string)
    requires lit != "" && '<' !in lit && (rest == "" || rest[0] == '<')
    ensures Found(lit + rest, t) <==> lit <= t && Found(rest, t[|lit|..])
  {
    hide Parse;
    ParseLit(lit, rest);
    if Parse(rest).Some? {
      assert ([Lit(lit)] + Parse(rest).value)[1..] == Parse(rest).value;
    }
  }

  lemma FoundLast(ph: string, t: string)
    requires |ph| >= 1 && ph[0] == '<' && ph[|ph| - 1] == '>' && '>' !in ph[..|ph| - 1]
    ensures Found(ph, t) <==> ClassOf(ph) != Unknown && Run(ClassOf(ph), t)
  {
    hide Parse, Run, ClassOf;
    ParseHole(ph, "", "");
    assert ph + "" + "" == ph;
  }

  lemma FoundHole(ph: string, anchor: string, rest: string, t: string)
    requires |ph| >= 1 && ph[0] == '<' && ph[|ph| - 1] == '>' && '>' !in ph[..|ph| - 1]
    requires anchor != "" && '<' !in anchor && (rest == "" || rest[0] == '<') && ClassOf(ph) != Unknown
    ensures Found(ph + anchor + rest, t) <==>
            exists k: nat :: Shortest(ClassOf(ph), anchor, t, k) && Found(rest, t[k + |anchor|..])
  {
    hide Parse, ClassOf, Shortest;
    ParseHole(ph, anchor, rest);
    if Parse(rest).Some? {
      var segs := [Hole(ClassOf(ph))] + ([Lit(anchor)] + Parse(rest).value);
      assert segs[2..] == Parse(rest).value && segs[1] == Lit(anchor);
    }
  }

  lemma NotFound(ph: string, rest: string, t: string)
    requires |ph| >= 1 && ph[0] == '<' && ph[|ph| - 1] == '>' && '>' !in ph[..|ph| - 1]
    requires ClassOf(ph) == Unknown || (rest != "" && rest[0] == '<')
    ensures !Found(ph + rest, t)
  {
    hide Parse;
    ParseHoleStep(ph, rest);
  }

  lemma NotClosed(p: string, t: string)
    requires p != "" && p[0] == '<' && IndexOf(p, '>') == |p|
    ensures !Found(p, t)
  {}

  predicate LiteralMatches(input: string, pos: nat, literal: string)
    requires pos <= |input|
  {
    |input| - pos >= |literal| && input[pos..pos + |literal|] == literal
  }

  lemma LiteralIsPrefix(input: string, pos: nat, literal: string)
    requires pos <= |input|
    ensures LiteralMatches(input, pos, literal) <==> literal <= input[pos..]
  {
    if |input| - pos >= |literal| {
      assert input[pos..][..|literal|] == input[pos..pos + |literal|];
    }
  }

  /** Walks to the next placeholder or to the end of the pattern. */
  method LiteralEnd(pattern: string, start: nat) returns (end: nat)
    requires start <= |pattern|
    ensures start <= end <= |pattern| && '<' !in pattern[start..end]
    ensures end == |pattern| || pattern[end] == '<'
  {
    end := start;
    while end < |pattern| && pattern[end] != '<'
      invariant start <= end <= |pattern| && '<' !in pattern[start..end]
    {
      assert pattern[start..end + 1] == pattern[start..end] + [pattern[end]];
      end := end + 1;
    }
  }

  /** A placeholder of fixed length. */
  method TakeDigits(cls: PlaceholderClass, input: string, ii: nat) returns (ok: bool)
    requires ii <= |input| && IsFixed(cls)
    ensures ok <==> ii + FixedLength(cls) <= |input| && Run(cls, input[ii..][..FixedLength(cls)])
  {
    var n := FixedLength(cls);
    if |input| - ii < n {
      return false;
    }
    ghost var digits := input[ii..][..n];
    for k := 0 to n
      invariant forall j :: 0 <= j < k ==> IsAsciiDigit(digits[j])
    {
      assert digits[k] == input[ii + k];
      if !IsAsciiDigit(input[ii + k]) {
        return false;
      }
    }
    return true;
  }

  /** A last placeholder: everything that is left. */
  method TakeRest(cls: PlaceholderClass, input: string, ii: nat) returns (ok: bool)
    requires ii <= |input| && !IsFixed(cls)
    ensures ok <==> Run(cls, input[ii..])
  {
    if ii >= |input| || !ClassAllowsStart(cls, input[ii]) {
      return false;
    }
    var cur := ii + 1;
    while cur < |input|
      invariant ii < cur <= |input|
      invariant forall j :: ii < j < cur ==> ClassAllowsCont(cls, input[j])
    {
      if !ClassAllowsCont(cls, input[cur]) {
        assert input[ii..][cur - ii] == input[cur];
        return false;
      }
      cur := cur + 1;
    }
    return true;
  }

  /** A placeholder with text after it: stops at the first place where that text follows. */
  method TakeUntil(cls: PlaceholderClass, anchor: string, input: string, ii: nat) returns (end: Option<nat>)
    requires ii <= |input| && !IsFixed(cls)
    ensures end.Some? ==>
            ii < end.value && end.value + |anchor| <= |input| && Shortest(cls, anchor, input[ii..], end.value - ii)
    ensures end.None? ==> forall k: nat :: !Shortest(cls, anchor, input[ii..], k)
  {
    ghost var t := input[ii..];
    if ii >= |input| || !ClassAllowsStart(cls, input[ii]) {
      return None;
    }
    var cur := ii + 1;
    while !LiteralMatches(input, cur, anchor)
      invariant ii < cur <= |input|
      invariant forall j :: ii < j < cur ==> ClassAllowsCont(cls, input[j])
      invariant forall j :: 1 <= j < cur - ii ==> !(anchor <= t[j..])
      decreases |input| - cur
    {
      LiteralIsPrefix(input, cur, anchor);
      assert t[cur - ii..] == input[cur..];
      if cur >= |input| || !ClassAllowsCont(cls, input[cur]) {
        NoneShortest(cls, anchor, t, cur - ii);
        return None;
      }
      cur := cur + 1;
    }
    LiteralIsPrefix(input, cur, anchor);
    assert t[cur - ii..] == input[cur..];
    return Some(cur);
  }

  lemma NoneShortest(cls: PlaceholderClass, anchor: string, t: string, k: nat)
    requires 1 <= k <= |t| && !IsFixed(cls)
    requires forall j :: 1 <= j <= k ==> !(anchor <= t[j..])
    requires k == |t| || !ClassAllowsCont(cls, t[k])
    ensures forall j: nat :: !Shortest(cls, anchor, t, j)
  {
    forall j: nat
      ensures !Shortest(cls, anchor, t, j)
    {
      if k < j <= |t| {
        assert t[..j][k] == t[k];
      }
    }
  }

  method TryMatch(pattern: string, input: string) returns (found: bool)
    ensures found <==> Found(pattern, input)
  {
    hide Found, Run, Shortest, ClassOf;
    var pi: nat, ii: nat := 0, 0;
    assert pattern[0..] == pattern && input[0..] == input;
    while pi < |pattern|
      invariant pi <= |pattern| && ii <= |input|
      invariant Found(pattern, input) <==> Found(pattern[pi..], input[ii..])
    {
      if pattern[pi] != '<' {
        var end := LiteralEnd(pattern, pi);
        var lit := pattern[pi..end];
        FoundLit(lit, pattern[end..], input[ii..]);
        assert pattern[pi..] == lit + pattern[end..];
        LiteralIsPrefix(input, ii, lit);
        if !LiteralMatches(input, ii, lit) {
          return false;
        }
        assert input[ii..][|lit|..] == input[ii + |lit|..];
        pi, ii := end, ii + |lit|;
      } else {
        var ok;
        ok, pi, ii := MatchPlaceholder(pattern, pi, input, ii);
        if !ok {
          return false;
        }
      }
    }
    assert pattern[pi..] == "";
    FoundNothing(input[ii..]);
    return ii == |input|;
  }

  lemma FoundNothing(t: string)
    ensures Found("", t) <==> t == ""
  {}

  /** One placeholder with the text that follows it. */
  method MatchPlaceholder(pattern: string, pi: nat, input: string, ii: nat) returns (ok: bool, pi': nat, ii': nat)
    requires pi < |pattern| && pattern[pi] == '<' && ii <= |input|
    ensures !ok ==> !Found(pattern[pi..], input[ii..])
    ensures ok ==> pi < pi' <= |pattern| && ii' <= |input|
    ensures ok ==> (Found(pattern[pi..], input[ii..]) <==> Found(pattern[pi'..], input[ii'..]))
  {
    hide Found, Run, Shortest, ClassOf, IndexOf;
    pi', ii' := pi, ii;
    var close := pi + IndexOf(pattern[pi..], '>');
    if close == |pattern| {
      NotClosed(pattern[pi..], input[ii..]);
      return false, pi, ii;
    }
    var ph := pattern[pi..close + 1];
    var cls := ClassOf(ph);
    var after := close + 1;
    assert pattern[pi..] == ph + pattern[after..];
    assert ph[..|ph| - 1] == pattern[pi..][..close - pi];
    if cls == Unknown {
      NotFound(ph, pattern[after..], input[ii..]);
      return false, pi, ii;
    }
    var end := LiteralEnd(pattern, after);
    var anchor := pattern[after..end];
    var rest := pattern[end..];
    assert pattern[after..] == anchor + rest;
    if anchor == "" && end < |pattern| {
      NotFound(ph, pattern[after..], input[ii..]);
      return false, pi, ii;
    }
    if anchor == "" {
      assert pattern[pi..] == ph;
      ok := MatchLast(ph, cls, input, ii);
      FoundNothing(input[|input|..]);
      assert pattern[end..] == "" && input[|input|..] == "";
      return ok, end, |input|;
    }
    assert pattern[pi..] == ph + anchor + rest;
    var next := MatchAnchored(ph, cls, anchor, rest, input, ii);
    return next.Some?, end, if next.Some? then next.value else ii;
  }

  method MatchLast(ph: string, cls: PlaceholderClass, input: string, ii: nat) returns (ok: bool)
    requires |ph| >= 1 && ph[0] == '<' && ph[|ph| - 1] == '>' && '>' !in ph[..|ph| - 1]
    requires cls == ClassOf(ph) && cls != Unknown && ii <= |input|
    ensures ok <==> Found(ph, input[ii..])
  {
    hide Found, Run, ClassOf;
    FoundLast(ph, input[ii..]);
    if IsFixed(cls) {
      ok := TakeDigits(cls, input, ii);
      RunLength(cls, input[ii..]);
      if ok && ii + FixedLength(cls) != |input| {
        return false;
      }
      if ok {
        assert input[ii..][..FixedLength(cls)] == input[ii..];
      } else if |input| - ii == FixedLength(cls) {
        assert input[ii..][..FixedLength(cls)] == input[ii..];
      }
    } else {
      ok := TakeRest(cls, input, ii);
    }
  }

  lemma RunLength(cls: PlaceholderClass, t: string)
    ensures IsFixed(cls) && Run(cls, t) ==> |t| == FixedLength(cls)
  {}

  method MatchAnchored(ph: string, cls: PlaceholderClass, anchor: string, ghost rest: string, input: string, ii: nat)
    returns (next: Option<nat>)
    requires |ph| >= 1 && ph[0] == '<' && ph[|ph| - 1] == '>' && '>' !in ph[..|ph| - 1]
    requires cls == ClassOf(ph) && cls != Unknown && ii <= |input|
    requires anchor != "" && '<' !in anchor && (rest == "" || rest[0] == '<')
    ensures next.None? ==> !Found(ph + anchor + rest, input[ii..])
    ensures next.Some? ==> next.value <= |input| && (Found(ph + anchor + rest, input[ii..]) <==>
            Found(rest, input[next.value..]))
  {
    hide Found, Run, ClassOf, Shortest;
    ghost var t := input[ii..];
    FoundHole(ph, anchor, rest, t);
    var end: Option<nat>;
    if IsFixed(cls) {
      var n := FixedLength(cls);
      var ok := TakeDigits(cls, input, ii);
      FixedShortest(cls, anchor, t);
      if ok {
        LiteralIsPrefix(input, ii + n, anchor);
        assert t[n..] == input[ii + n..];
      }
      end := if ok && LiteralMatches(input, ii + n, anchor) then Some(ii + n) else None;
    } else {
      end := TakeUntil(cls, anchor, input, ii);
    }
    if end.None? {
      return None;
    }
    ghost var k := end.value - ii;
    assert Shortest(cls, anchor, t, k);
    assert t[k + |anchor|..] == input[end.value + |anchor|..];
    forall j: nat | Shortest(cls, anchor, t, j)
      ensures j == k
    {
      ShortestUnique(cls, anchor, t, j, k);
    }
    return Some(end.value + |anchor|);
  }

  lemma FixedShortest(cls: PlaceholderClass, anchor: string, t: string)
    requires IsFixed(cls)
    ensures forall k: nat :: Shortest(cls, anchor, t, k) <==>
              k == FixedLength(cls) <= |t| && Run(cls, t[..k]) && anchor <= t[k..]
  {}

  /** The first entry of the table that the name matches, if any. */
  method Match(patterns: seq<string>, name: string) returns (entry: Option<nat>)
    ensures entry.Some? ==> entry.value < |patterns| && Found(patterns[entry.value], name) &&
                            forall i :: 0 <= i < entry.value ==> !Found(patterns[i], name)
    ensures entry.None? ==> forall i :: 0 <= i < |patterns| ==> !Found(patterns[i], name)
  {
    for i := 0 to |patterns|
      invariant forall j :: 0 <= j < i ==> !Found(patterns[j], name)
    {
      var found := TryMatch(patterns[i], name);
      if found {
        return Some(i);
      }
    }
    return None;
  }

  lemma {:induction false} ParseAlternates(p: string)
    ensures Parse(p).Some? ==> Alternates(Parse(p).value)
    ensures Parse(p).Some? && Parse(p).value != [] ==> p != "" && (Parse(p).value[0].Hole? <==> p[0] == '<')
    decreases |p|
  {
    hide ClassOf, IndexOf;
    if p != "" {
      var n := if p[0] != '<' then IndexOf(p, '<') else IndexOf(p, '>') + 1;
      if n <= |p| {
        if p[0] != '<' {
          IndexOfPositive(p);
        }
        ParseAlternates(p[n..]);
        if Parse(p).Some? {
          var segs := Parse(p).value;
          assert segs[1..] == Parse(p[n..]).value;
          assert forall i :: 1 <= i < |segs| ==> segs[i] == segs[1..][i - 1];
        }
      }
    }
  }

  lemma IndexOfPositive(p: string)
    requires p != "" && p[0] != '<'
    ensures IndexOf(p, '<') > 0
  {}

  /** What is found is an instance. */
  lemma FoundIsInstance(p: string, t: string)
    requires Found(p, t)
    ensures Parse(p).Some? && Matches(Parse(p).value, t)
  {
    LazyIsSound(Parse(p).value, t);
  }

  /** All instances of a well-formed pattern are found exactly when every placeholder in it is last, has a fixed
      length, or is followed by a text with a character that it cannot stand for. */
  lemma CompleteIffGuarded(p: string)
    requires Parse(p).Some?
    ensures (forall t :: Matches(Parse(p).value, t) ==> Found(p, t)) <==> Guarded(Parse(p).value)
  {
    hide Parse, Matches, Lazy, Guarded, Alternates, Missed;
    var segs := Parse(p).value;
    ParseAlternates(p);
    if Guarded(segs) {
      forall t | Matches(segs, t) ensures Found(p, t) {
        if segs != [] {
          AlternatesTail(segs);
        }
        LazyIsCompleteIfGuarded(segs, t);
      }
    } else {
      MissedIsLost(segs);
      assert !Found(p, Missed(segs));
    }
  }

  // What the placeholders stand for -----------------------------------------------------------------------

  /** A letter, then letters, digits, underscores and, with `hyphens`, hyphens. */
  predicate IsName(t: string, hyphens: bool) {
    && t != "" && ('A' <= t[0] <= 'Z' || 'a' <= t[0] <= 'z')
    && forall i :: 0 < i < |t| ==>
         'A' <= t[i] <= 'Z' || 'a' <= t[i] <= 'z' || '0' <= t[i] <= '9' || t[i] == '_' || (hyphens && t[i] == '-')
  }

  predicate IsDigits(t: string, n: nat) {
    |t| == n && forall i :: 0 <= i < n ==> '0' <= t[i] <= '9'
  }

  lemma RunIff(t: string)
    ensures Run(Ident, t) <==> IsName(t, false)
    ensures Run(IdentHyphen, t) <==> IsName(t, true)
    ensures Run(FourDigit, t) <==> IsDigits(t, 4)
    ensures Run(OneDigit, t) <==> IsDigits(t, 1)
  {}

  /** Each placeholder, alone, finds exactly the names that it stands for. */
  lemma PlaceholdersFind(t: string)
    ensures Found("<LANG>", t) <==> IsName(t, false)
    ensures Found("<CONFIG>", t) <==> IsName(t, false)
    ensures Found("<PackageName>", t) <==> IsName(t, false)
    ensures Found("<FEATURE>", t) <==> IsName(t, false)
    ensures Found("<TYPE>", t) <==> IsName(t, false)
    ensures Found("<PROJECT-NAME>", t) <==> IsName(t, true)
    ensures Found("<an-attribute>", t) <==> IsName(t, true)
    ensures Found("<NNNN>", t) <==> IsDigits(t, 4)
    ensures Found("<n>", t) <==> IsDigits(t, 1)
  {
    hide Found, Run, IsName, IsDigits;
    RunIff(t);
    FoundLast("<LANG>", t);
    FoundLast("<CONFIG>", t);
    FoundLast("<PackageName>", t);
    FoundLast("<FEATURE>", t);
    FoundLast("<TYPE>", t);
    FoundLast("<PROJECT-NAME>", t);
    FoundLast("<an-attribute>", t);
    FoundLast("<NNNN>", t);
    FoundLast("<n>", t);
  }

  /** A policy variable is `CMP` and four digits. */
  lemma PolicyPattern(t: string)
    ensures Found("CMP<NNNN>", t) <==> |t| == 7 && t[..3] == "CMP" && IsDigits(t[3..], 4)
  {
    hide Found;
    FoundLit("CMP", "<NNNN>", t);
    assert "CMP" + "<NNNN>" == "CMP<NNNN>";
    if "CMP" <= t {
      PlaceholdersFind(t[3..]);
    }
  }

  /** A placeholder that is not closed, not known or followed by another makes a pattern that finds nothing. */
  lemma MalformedFindNothing(t: string)
    ensures !Found("<LANG", t) && !Found("<OTHER>", t) && !Found("<LANG><CONFIG>", t)
  {
    hide Found;
    assert '>' !in "<LANG";
    IndexOfEnd("<LANG", '>');
    NotClosed("<LANG", t);
    NotFound("<OTHER>", "", t);
    assert "<OTHER>" + "" == "<OTHER>";
    NotFound("<LANG>", "<CONFIG>", t);
    assert "<LANG>" + "<CONFIG>" == "<LANG><CONFIG>";
  }
}
