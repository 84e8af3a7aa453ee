/**
 What preset inheritance should compute, stated over the original, unmutated presets, and the
 theory of that meaning: when it exists, that it does not depend on how deep it is unfolded,
 and which conditions it gives.
 */
module PresetResolution {
  import opened Wrappers
  import opened Graphs
  import opened PresetFields

  datatype File = File(version: int, reachable: set<FileId>)

  /** The presets as read from their files, before inheritance. */
  datatype World = World(files: map<FileId, File>, presets: map<string, Preset>)

  function Version(w: World, f: FileId): int {
    if f in w.files then w.files[f].version else 0
  }

  /** `parent` exists and its file can be reached from the file of `child`. */
  predicate Inheritable(w: World, child: FileId, parent: string) {
    parent in w.presets && child in w.files && w.presets[parent].origin in w.files[child].reachable
  }

  /** A preset combined with its resolved parents; `None` when a parent is missing, unreachable or
      unresolved, or when one of the preset's own checks fails. */
  ghost function Combine(w: World, n: string, parents: seq<Option<Preset>>): Option<Preset>
    requires n in w.presets && |parents| == |w.presets[n].inherits|
  {
    var own := w.presets[n];
    if "" !in own.environment &&
       forall i :: 0 <= i < |parents| ==> Inheritable(w, own.origin, own.inherits[i]) && parents[i].Some?
    then
      var r := DropNull(InheritAll(own, Values(parents)));
      if Acceptable(r, Version(w, own.origin)) then Some(r) else None
    else None
  }

  ghost function Values(parents: seq<Option<Preset>>): seq<Preset>
    requires forall i :: 0 <= i < |parents| ==> parents[i].Some?
  {
    seq(|parents|, i requires 0 <= i < |parents| => parents[i].value)
  }

  /** The resolved preset `n`, unfolding at most `depth` levels of inheritance; `None` when the
      unfolding is cut off, or when the preset or one of its ancestors is at fault. */
  ghost function Resolve(w: World, n: string, depth: nat): Option<Preset>
    decreases depth
  {
    if depth == 0 || n !in w.presets then None
    else
      var ps := w.presets[n].inherits;
      Combine(w, n, seq(|ps|, i requires 0 <= i < |ps| => Resolve(w, ps[i], depth - 1)))
  }

  ghost function ResolveEach(w: World, ns: seq<string>, depth: nat): seq<Option<Preset>> {
    seq(|ns|, i requires 0 <= i < |ns| => Resolve(w, ns[i], depth))
  }

  lemma ResolveStep(w: World, n: string, k: nat)
    requires n in w.presets && k > 0
    ensures Resolve(w, n, k) == Combine(w, n, ResolveEach(w, w.presets[n].inherits, k - 1))
  {
    var ps := w.presets[n].inherits;
    assert ResolveEach(w, ps, k - 1) == seq(|ps|, i requires 0 <= i < |ps| => Resolve(w, ps[i], k - 1));
  }

  lemma ParentResolves(w: World, n: string, k: nat, i: nat)
    requires Resolve(w, n, k).Some?
    requires n in w.presets ==> i < |w.presets[n].inherits|
    ensures k > 0 && n in w.presets
    ensures Inheritable(w, w.presets[n].origin, w.presets[n].inherits[i])
    ensures Resolve(w, w.presets[n].inherits[i], k - 1).Some?
  {
    ResolveStep(w, n, k);
    assert ResolveEach(w, w.presets[n].inherits, k - 1)[i].Some?;
  }

  lemma {:induction false} ResolveDeeper(w: World, n: string, j: nat, k: nat)
    requires j <= k && Resolve(w, n, j).Some?
    ensures Resolve(w, n, k) == Resolve(w, n, j)
    decreases j
  {
    hide Combine;
    var ps := w.presets[n].inherits;
    forall i | 0 <= i < |ps|
      ensures Resolve(w, ps[i], k - 1) == Resolve(w, ps[i], j - 1)
    {
      ParentResolves(w, n, j, i);
      ResolveDeeper(w, ps[i], j - 1, k - 1);
    }
    ResolveStep(w, n, j);
    ResolveStep(w, n, k);
    assert ResolveEach(w, ps, k - 1) == ResolveEach(w, ps, j - 1);
  }

  ghost predicate Resolvable(w: World, n: string) {
    exists k: nat :: Resolve(w, n, k).Some?
  }

  /** The resolved preset: the declarative meaning of inheritance. */
  ghost function Resolved(w: World, n: string): Preset
    requires Resolvable(w, n)
  {
    var k: nat :| Resolve(w, n, k).Some?;
    Resolve(w, n, k).value
  }

  lemma ResolvedAt(w: World, n: string, k: nat)
    requires Resolve(w, n, k).Some?
    ensures Resolvable(w, n) && Resolve(w, n, k).value == Resolved(w, n)
  {
    hide Combine;
    var j: nat :| Resolve(w, n, j).Some? && Resolve(w, n, j).value == Resolved(w, n);
    if j <= k {
      ResolveDeeper(w, n, j, k);
    } else {
      ResolveDeeper(w, n, k, j);
    }
  }

  /** Everything asked of the parents of a preset. */
  ghost predicate ParentsResolvable(w: World, n: string)
    requires n in w.presets
  {
    forall i :: 0 <= i < |w.presets[n].inherits| ==>
      Inheritable(w, w.presets[n].origin, w.presets[n].inherits[i]) && Resolvable(w, w.presets[n].inherits[i])
  }

  ghost function ResolvedParents(w: World, n: string): seq<Preset>
    requires n in w.presets && ParentsResolvable(w, n)
  {
    var ps := w.presets[n].inherits;
    seq(|ps|, i requires 0 <= i < |ps| => Resolved(w, ps[i]))
  }

  /** The own fields merged with the resolved parents, in `Inherits` order. */
  ghost function Merged(w: World, n: string): Preset
    requires n in w.presets && ParentsResolvable(w, n)
  {
    DropNull(InheritAll(w.presets[n], ResolvedParents(w, n)))
  }

  /** The recursion equation of the resolved preset. */
  lemma ResolvedUnfold(w: World, n: string)
    requires Resolvable(w, n)
    ensures n in w.presets && "" !in w.presets[n].environment && ParentsResolvable(w, n)
    ensures Resolved(w, n) == Merged(w, n)
    ensures Acceptable(Merged(w, n), Version(w, w.presets[n].origin))
  {
    hide InheritAll;
    var k: nat :| Resolve(w, n, k).Some?;
    ResolvedAt(w, n, k);
    var ps := w.presets[n].inherits;
    forall i | 0 <= i < |ps|
      ensures Inheritable(w, w.presets[n].origin, ps[i]) && Resolvable(w, ps[i])
      ensures Resolve(w, ps[i], k - 1) == Some(Resolved(w, ps[i]))
    {
      ParentResolves(w, n, k, i);
      ResolvedAt(w, ps[i], k - 1);
    }
    ResolveStep(w, n, k);
    assert Values(ResolveEach(w, ps, k - 1)) == ResolvedParents(w, n);
  }

  lemma {:induction false} CommonDepth(w: World, ns: seq<string>) returns (k: nat)
    requires forall i :: 0 <= i < |ns| ==> Resolvable(w, ns[i])
    ensures forall i :: 0 <= i < |ns| ==> Resolve(w, ns[i], k).Some?
  {
    if ns == [] {
      k := 0;
    } else {
      var last := ns[|ns| - 1];
      var a := CommonDepth(w, ns[..|ns| - 1]);
      var b: nat :| Resolve(w, last, b).Some?;
      k := if a < b then b else a;
      forall i | 0 <= i < |ns|
        ensures Resolve(w, ns[i], k).Some?
      {
        if i < |ns| - 1 {
          assert ns[i] == ns[..|ns| - 1][i];
          ResolveDeeper(w, ns[i], a, k);
        } else {
          ResolveDeeper(w, last, b, k);
        }
      }
    }
  }

  lemma ResolvableIntro(w: World, n: string)
    requires n in w.presets && "" !in w.presets[n].environment && ParentsResolvable(w, n)
    requires Acceptable(Merged(w, n), Version(w, w.presets[n].origin))
    ensures Resolvable(w, n) && Resolved(w, n) == Merged(w, n)
  {
    hide InheritAll;
    var ps := w.presets[n].inherits;
    var k := CommonDepth(w, ps);
    forall i | 0 <= i < |ps|
      ensures Resolve(w, ps[i], k).value == Resolved(w, ps[i])
    {
      ResolvedAt(w, ps[i], k);
    }
    ResolveStep(w, n, k + 1);
    assert Values(ResolveEach(w, ps, k)) == ResolvedParents(w, n);
    ResolvedAt(w, n, k + 1);
  }

  /** Every field of a resolved preset is the preset's own value if set, else the first set value
      among its parents' resolved values, in `Inherits` order; map fields entry by entry. */
  lemma ResolvedField(w: World, n: string, slot: Slot)
    requires Resolvable(w, n)
    ensures n in w.presets && ParentsResolvable(w, n)
    ensures Read(Resolved(w, n), slot) ==
            FirstSet([Read(w.presets[n], slot)] + ReadEach(ResolvedParents(w, n), slot))
  {
    ResolvedUnfold(w, n);
    InheritAllReads(w.presets[n], ResolvedParents(w, n), slot);
    assert Read(DropNull(InheritAll(w.presets[n], ResolvedParents(w, n))), slot)
        == Read(InheritAll(w.presets[n], ResolvedParents(w, n)), slot);
  }

  /** The condition of a resolved preset is the first set one among its own and its parents' resolved ones, in
      `Inherits` order; a null found so means that there is none. */
  lemma ResolvedCondition(w: World, n: string)
    requires Resolvable(w, n)
    ensures n in w.presets && ParentsResolvable(w, n)
    ensures var c := FirstSet([w.presets[n].condition] + ConditionEach(ResolvedParents(w, n)));
            Resolved(w, n).condition == if c == Some(NullCondition) then None else c
  {
    hide InheritAll;
    ResolvedUnfold(w, n);
    InheritAllFirstCondition(w.presets[n], ResolvedParents(w, n));
  }

  // The inherits relation -----------------------------------------------------------------------

  ghost function InheritsGraph(w: World): Graph<string> {
    map n | n in w.presets :: set i | 0 <= i < |w.presets[n].inherits| :: w.presets[n].inherits[i]
  }

  lemma InheritsEdge(w: World, n: string, p: string)
    ensures Edge(InheritsGraph(w), n, p) <==> n in w.presets && p in w.presets[n].inherits
  {}

  lemma {:induction false} WalkSinks(w: World, walk: seq<string>, k: nat)
    requires Walk(InheritsGraph(w), walk) && Resolve(w, walk[0], k).Some?
    ensures k >= |walk| && Resolve(w, walk[|walk| - 1], k - |walk| + 1).Some?
    decreases |walk|
  {
    hide Combine;
    if |walk| > 1 {
      assert Hop(InheritsGraph(w), walk, 0);
      InheritsEdge(w, walk[0], walk[1]);
      var ps := w.presets[walk[0]].inherits;
      var i :| 0 <= i < |ps| && ps[i] == walk[1];
      ParentResolves(w, walk[0], k, i);
      WalkSlice(InheritsGraph(w), walk, 1, |walk|);
      WalkSinks(w, walk[1..|walk|], k - 1);
    }
  }

  lemma {:induction false} CyclesDoNotResolve(w: World, walk: seq<string>, k: nat)
    requires Cycle(InheritsGraph(w), walk)
    ensures Resolve(w, walk[0], k).None?
  {
    hide Combine;
    if Resolve(w, walk[0], k).Some? {
      WalkSinks(w, walk, k);
      CyclesDoNotResolve(w, walk, k - |walk| + 1);
    }
  }

  /** Every preset inherits only existing presets that its file can reach. */
  ghost predicate ParentsInheritable(w: World) {
    forall n, p :: n in w.presets && p in w.presets[n].inherits ==> Inheritable(w, w.presets[n].origin, p)
  }

  /** The checks on a preset's own fields: its variables are named and, once its parents are
      resolved and merged, the required fields are there. */
  ghost predicate FieldChecksPass(w: World) {
    forall n :: n in w.presets ==>
      "" !in w.presets[n].environment &&
      (ParentsResolvable(w, n) ==> Acceptable(Merged(w, n), Version(w, w.presets[n].origin)))
  }

  ghost predicate AllResolvable(w: World) {
    forall n :: n in w.presets ==> Resolvable(w, n)
  }

  lemma ResolvableIsAcyclic(w: World)
    requires AllResolvable(w)
    ensures Acyclic(InheritsGraph(w))
  {
    forall walk
      ensures !Cycle(InheritsGraph(w), walk)
    {
      if Cycle(InheritsGraph(w), walk) {
        assert Hop(InheritsGraph(w), walk, 0);
        var k: nat :| Resolve(w, walk[0], k).Some?;
        CyclesDoNotResolve(w, walk, k);
      }
    }
  }

  lemma AcyclicIsResolvable(w: World)
    requires ParentsInheritable(w) && Acyclic(InheritsGraph(w)) && FieldChecksPass(w)
    ensures AllResolvable(w)
  {
    var bad := set n | n in w.presets && !Resolvable(w, n);
    if bad != {} {
      forall n | n in bad
        ensures StaysIn(InheritsGraph(w), bad, n)
      {
        if ParentsResolvable(w, n) {
          ResolvableIntro(w, n);
        }
        var ps := w.presets[n].inherits;
        var i :| 0 <= i < |ps| && !(Inheritable(w, w.presets[n].origin, ps[i]) && Resolvable(w, ps[i]));
        assert ps[i] in ps;
        assert Inheritable(w, w.presets[n].origin, ps[i]);
        InheritsEdge(w, n, ps[i]);
        assert ps[i] in bad;
      }
      CycleInside(InheritsGraph(w), bad);
    }
    forall n | n in w.presets
      ensures Resolvable(w, n)
    {
      assert n !in bad;
    }
  }

  /** Every preset resolves exactly when all inherited names exist and are reachable, the inherits
      relation has no cycle and the per-preset field checks pass. */
  lemma AllResolvableIff(w: World)
    ensures AllResolvable(w) <==> ParentsInheritable(w) && Acyclic(InheritsGraph(w)) && FieldChecksPass(w)
  {
    if AllResolvable(w) {
      forall n | n in w.presets
        ensures ParentsResolvable(w, n) && "" !in w.presets[n].environment
        ensures Acceptable(Merged(w, n), Version(w, w.presets[n].origin))
      {
        ResolvedUnfold(w, n);
      }
      ResolvableIsAcyclic(w);
    }
    if ParentsInheritable(w) && Acyclic(InheritsGraph(w)) && FieldChecksPass(w) {
      AcyclicIsResolvable(w);
    }
  }

  // What stops a depth-first visit ----------------------------------------------------------------

  /** `n` resolves within a depth at which nothing in `busy` does: a visit of `n` that treats
      `busy` as forbidden meets neither a fault nor a forbidden name. */
  ghost predicate Unblocked(w: World, n: string, busy: set<string>) {
    exists k: nat :: Resolve(w, n, k).Some? && forall m :: m in busy ==> Resolve(w, m, k).None?
  }

  lemma {:induction false} LeastDepth(w: World, n: string, k: nat) returns (j: nat)
    requires Resolve(w, n, k).Some?
    ensures 0 < j <= k && Resolve(w, n, j).Some? && Resolve(w, n, j - 1).None?
  {
    hide Combine;
    if Resolve(w, n, k - 1).Some? {
      j := LeastDepth(w, n, k - 1);
    } else {
      j := k;
    }
  }

  lemma UnblockedUnfold(w: World, n: string, busy: set<string>)
    requires Unblocked(w, n, busy)
    ensures n !in busy && Resolvable(w, n) && n in w.presets
    ensures forall i :: 0 <= i < |w.presets[n].inherits| ==> Unblocked(w, w.presets[n].inherits[i], busy + {n})
  {
    hide Combine;
    var k: nat :| Resolve(w, n, k).Some? && forall m :: m in busy ==> Resolve(w, m, k).None?;
    var j := LeastDepth(w, n, k);
    var ps := w.presets[n].inherits;
    forall m | m in busy + {n}
      ensures Resolve(w, m, j - 1).None?
    {
      if Resolve(w, m, j - 1).Some? {
        ResolveDeeper(w, m, j - 1, k);
      }
    }
    forall i | 0 <= i < |ps|
      ensures Unblocked(w, ps[i], busy + {n})
    {
      ParentResolves(w, n, j, i);
    }
  }

  // Conditions --------------------------------------------------------------------------------------

  ghost predicate DeclaresCondition(w: World, n: string) {
    n in w.presets && w.presets[n].condition.Some? && w.presets[n].condition.value.RealCondition?
  }

  ghost predicate DeclaresNull(w: World, n: string) {
    n in w.presets && w.presets[n].condition == Some(NullCondition)
  }

  ghost predicate InheritedBySome(w: World, p: string) {
    exists n :: n in w.presets && p in w.presets[n].inherits
  }

  /** The preset or one of its ancestors declares a condition other than null. */
  ghost predicate Supplied(w: World, n: string) {
    exists m :: Reaches(InheritsGraph(w), n, m) && DeclaresCondition(w, m)
  }

  /** No preset that others inherit both declares null and has an ancestor with a condition. */
  ghost predicate NullsHarmless(w: World) {
    forall n :: DeclaresNull(w, n) && InheritedBySome(w, n) ==> !Supplied(w, n)
  }

  lemma SuppliedUnfold(w: World, n: string)
    ensures Supplied(w, n) <==>
            DeclaresCondition(w, n) || exists p :: Edge(InheritsGraph(w), n, p) && Supplied(w, p)
  {
    var g := InheritsGraph(w);
    if Supplied(w, n) && !DeclaresCondition(w, n) {
      var m :| Reaches(g, n, m) && DeclaresCondition(w, m);
      var p := ReachesFirst(g, n, m);
      assert Supplied(w, p);
    }
    if DeclaresCondition(w, n) {
      ReachesSelf(g, n);
    }
    if p :| Edge(g, n, p) && Supplied(w, p) {
      var m :| Reaches(g, p, m) && DeclaresCondition(w, m);
      ReachesStep(g, n, p, m);
    }
  }

  /** A resolved preset has a condition only if one is declared there or above. */
  lemma {:induction false} ConditionIsSupplied(w: World, n: string, k: nat)
    requires Resolve(w, n, k).Some? && Resolve(w, n, k).value.condition.Some?
    ensures Supplied(w, n)
    decreases k
  {
    hide Combine;
    var i := ConditionSource(w, n, k);
    SuppliedUnfold(w, n);
    if !DeclaresCondition(w, n) {
      var p := w.presets[n].inherits[i];
      ConditionIsSupplied(w, p, k - 1);
      InheritsEdge(w, n, p);
    }
  }

  lemma ConditionSource(w: World, n: string, k: nat) returns (i: nat)
    requires Resolve(w, n, k).Some? && Resolve(w, n, k).value.condition.Some?
    ensures k > 0 && n in w.presets
    ensures !DeclaresCondition(w, n) ==>
              i < |w.presets[n].inherits| &&
              Resolve(w, w.presets[n].inherits[i], k - 1).Some? &&
              Resolve(w, w.presets[n].inherits[i], k - 1).value.condition.Some?
  {
    hide InheritAll;
    i := 0;
    ResolveStep(w, n, k);
    var vals := ResolveEach(w, w.presets[n].inherits, k - 1);
    InheritAllCondition(w.presets[n], Values(vals));
    if !DeclaresCondition(w, n) {
      var v :| v in Values(vals) && v.condition.Some?;
      var j :| 0 <= j < |vals| && Values(vals)[j] == v;
      ParentResolves(w, n, k, j);
      i := j;
    }
  }

  /** A hidden preset that only declares a condition and what it inherits. */
  function Bare(inherits: seq<string>, condition: Option<Condition>): Preset {
    Preset(inherits, true, 0, condition, map[], "", "", "", None, None, "", "", "", "", map[], map[], None, map[],
           None, None, None, None, None, [], "")
  }

  lemma {:induction false} HiddenStays(own: Preset, parents: seq<Preset>)
    ensures DropNull(InheritAll(own, parents)).hidden == own.hidden
  {
    if parents != [] {
      HiddenStays(own, parents[..|parents| - 1]);
    }
  }

  lemma HiddenResolves(w: World, n: string)
    requires n in w.presets && w.presets[n].hidden && "" !in w.presets[n].environment && ParentsResolvable(w, n)
    ensures Resolvable(w, n)
  {
    HiddenStays(w.presets[n], ResolvedParents(w, n));
    ResolvableIntro(w, n);
  }

  /** Presets that all resolve, in which a null condition is not harmless: `c` inherits `b`, whose null is meant
      to switch the condition of `a` off. */
  lemma NullsCanHarm(json: string)
    ensures var w := World(map[0 := File(4, {0})],
                           map["a" := Bare([], Some(RealCondition(json))),
                               "b" := Bare(["a"], Some(NullCondition)), "c" := Bare(["b"], None)]);
            AllResolvable(w) && !NullsHarmless(w)
  {
    hide Resolvable, Acceptable, InheritAll;
    var w := World(map[0 := File(4, {0})],
                   map["a" := Bare([], Some(RealCondition(json))),
                       "b" := Bare(["a"], Some(NullCondition)), "c" := Bare(["b"], None)]);
    assert ["a"][0] == "a" && ["b"][0] == "b";
    HiddenResolves(w, "a");
    HiddenResolves(w, "b");
    HiddenResolves(w, "c");
    assert "b" in w.presets["c"].inherits && "a" in w.presets["b"].inherits;
    InheritsEdge(w, "b", "a");
    SuppliedUnfold(w, "a");
    SuppliedUnfold(w, "b");
    assert DeclaresNull(w, "b") && InheritedBySome(w, "b");
  }
}
