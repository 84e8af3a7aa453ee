/**
 The inheritance engine: a depth-first visit that overwrites the presets in place.  The status
 map is passed by value, so a preset is visited again for each preset that inherits it, and once
 more at the top level; correctness rests on a repeated visit changing nothing.
 */
module PresetInheritance {
  import opened Wrappers
  import opened Graphs
  import opened PresetFields
  import opened PresetResolution

  /** The parent number `i` of preset `n`. */
  ghost function Parent(w: World, n: string, i: nat): string
    requires n in w.presets && i < |w.presets[n].inherits|
  {
    w.presets[n].inherits[i]
  }

  // What a visited preset looks like ---------------------------------------------------------

  /** Preset `n` after `count` completed visits, `count` being at least one. */
  ghost predicate Settled(w: World, n: string, p: Preset, count: nat) {
    && Resolvable(w, n)
    && Strip(p) == Strip(Resolved(w, n))
    && p.condition != Some(NullCondition)
    && (Supplied(w, n) && (count >= 2 || DeclaresCondition(w, n)) ==> p.condition.Some?)
    && (NullsHarmless(w) && (count == 1 || InheritedBySome(w, n)) ==> p == Resolved(w, n))
  }

  ghost predicate Visited(w: World, n: string, p: Preset, count: nat)
    requires n in w.presets
  {
    if count == 0 then p == w.presets[n] else Settled(w, n, p, count)
  }

  /** A parent of `n` as `n` finds it during a visit that `count` visits preceded. */
  ghost predicate ParentReady(w: World, n: string, i: nat, p: Preset, count: nat)
    requires n in w.presets && i < |w.presets[n].inherits|
  {
    && Inheritable(w, w.presets[n].origin, Parent(w, n, i))
    && Resolvable(w, Parent(w, n, i))
    && Strip(p) == Strip(Resolved(w, Parent(w, n, i)))
    && p.condition != Some(NullCondition)
    && (count >= 1 && Supplied(w, Parent(w, n, i)) ==> p.condition.Some?)
    && (NullsHarmless(w) ==> p == Resolved(w, Parent(w, n, i)))
  }

  ghost predicate ParentsReady(w: World, n: string, parents: seq<Preset>, count: nat)
    requires n in w.presets
  {
    |parents| == |w.presets[n].inherits| &&
    forall i :: 0 <= i < |parents| ==> ParentReady(w, n, i, parents[i], count)
  }

  // One visit --------------------------------------------------------------------------------

  lemma ReadyParentsResolve(w: World, n: string, parents: seq<Preset>, count: nat)
    requires n in w.presets && ParentsReady(w, n, parents, count)
    ensures ParentsResolvable(w, n)
    ensures StripEach(parents) == StripEach(ResolvedParents(w, n))
    ensures NullsHarmless(w) ==> parents == ResolvedParents(w, n)
  {
    forall i | 0 <= i < |parents|
      ensures Inheritable(w, w.presets[n].origin, w.presets[n].inherits[i])
      ensures Resolvable(w, w.presets[n].inherits[i])
      ensures Strip(parents[i]) == Strip(Resolved(w, w.presets[n].inherits[i]))
      ensures NullsHarmless(w) ==> parents[i] == Resolved(w, w.presets[n].inherits[i])
    {
      assert ParentReady(w, n, i, parents[i], count);
    }
    assert ParentsResolvable(w, n);
  }

  /** Whatever the number of earlier visits, inheriting again ends in the merged preset, except
      perhaps for its condition. */
  lemma VisitMerges(w: World, n: string, start: Preset, parents: seq<Preset>, count: nat)
    requires n in w.presets && Visited(w, n, start, count) && ParentsReady(w, n, parents, count)
    ensures ParentsResolvable(w, n)
    ensures Strip(DropNull(InheritAll(start, parents))) == Strip(Merged(w, n))
  {
    hide InheritAll, DropNull, Acceptable, ParentReady, ResolvedParents;
    ReadyParentsResolve(w, n, parents, count);
    var own, vals := w.presets[n], ResolvedParents(w, n);
    var svals := StripEach(vals);
    StripInheritAll(start, parents);
    StripInheritAll(own, vals);
    StripDropNull(InheritAll(start, parents));
    StripDropNull(InheritAll(own, vals));
    if count > 0 {
      ResolvedUnfold(w, n);
      assert Strip(start) == InheritAll(Strip(own), svals);
      InheritAllAgain(Strip(own), svals);
    }
  }

  lemma StripDropNull(p: Preset)
    ensures Strip(DropNull(p)) == Strip(p)
  {}

  lemma AcceptableIgnoresCondition(p: Preset, q: Preset, version: int)
    requires Strip(p) == Strip(q)
    ensures Acceptable(p, version) == Acceptable(q, version)
  {
    assert p.warnings == Strip(p).warnings == q.warnings;
    assert p.errors == Strip(p).errors == q.errors;
    assert p.hidden == Strip(p).hidden && p.generator == Strip(p).generator;
    assert p.binaryDir == Strip(p).binaryDir && p.cacheVariables == Strip(p).cacheVariables;
  }

  lemma NoNullParents(w: World, n: string, parents: seq<Preset>, count: nat)
    requires n in w.presets && ParentsReady(w, n, parents, count)
    ensures forall p :: p in parents ==> p.condition != Some(NullCondition)
  {
    forall p | p in parents
      ensures p.condition != Some(NullCondition)
    {
      var i :| 0 <= i < |parents| && parents[i] == p;
      assert ParentReady(w, n, i, parents[i], count);
    }
  }

  /** A declared condition survives every visit, and from the second visit on a preset with a
      condition declared anywhere above it has a condition. */
  lemma SuppliedAfterVisit(w: World, n: string, start: Preset, parents: seq<Preset>, count: nat)
    requires n in w.presets && Visited(w, n, start, count) && ParentsReady(w, n, parents, count)
    requires Supplied(w, n) && (count >= 1 || DeclaresCondition(w, n))
    ensures DropNull(InheritAll(start, parents)).condition.Some?
  {
    hide InheritAll;
    InheritAllCondition(start, parents);
    NoNullParents(w, n, parents, count);
    if !DeclaresCondition(w, n) {
      SuppliedUnfold(w, n);
      var p :| Edge(InheritsGraph(w), n, p) && Supplied(w, p);
      InheritsEdge(w, n, p);
      var i :| 0 <= i < |w.presets[n].inherits| && w.presets[n].inherits[i] == p;
      assert ParentReady(w, n, i, parents[i], count);
      assert parents[i].condition.Some? && parents[i] in parents;
    }
  }

  lemma ConditionsAboveNone(w: World, n: string)
    requires Resolvable(w, n)
    ensures n in w.presets && ParentsResolvable(w, n)
    ensures !Supplied(w, n) ==> forall p :: p in ResolvedParents(w, n) ==> p.condition.None?
  {
    hide InheritAll;
    ResolvedUnfold(w, n);
    var ps := w.presets[n].inherits;
    SuppliedUnfold(w, n);
    forall p | p in ResolvedParents(w, n) && !Supplied(w, n)
      ensures p.condition.None?
    {
      var i :| 0 <= i < |ps| && ResolvedParents(w, n)[i] == p;
      var k: nat :| Resolve(w, ps[i], k).Some?;
      ResolvedAt(w, ps[i], k);
      InheritsEdge(w, n, ps[i]);
      if p.condition.Some? {
        ConditionIsSupplied(w, ps[i], k);
      }
    }
  }

  /** Where null conditions are harmless, a visit also ends in the resolved condition. */
  lemma FaithfulVisit(w: World, n: string, start: Preset, parents: seq<Preset>, count: nat)
    requires n in w.presets && Visited(w, n, start, count) && ParentsReady(w, n, parents, count)
    requires NullsHarmless(w) && (count == 0 || InheritedBySome(w, n)) && Resolvable(w, n)
    ensures DropNull(InheritAll(start, parents)).condition == Resolved(w, n).condition
  {
    hide InheritAll;
    ReadyParentsResolve(w, n, parents, count);
    ResolvedUnfold(w, n);
    if count > 0 {
      assert start == Resolved(w, n);
      InheritAllCondition(start, parents);
      InheritAllCondition(w.presets[n], parents);
      NoNullParents(w, n, parents, count);
      ConditionsAboveNone(w, n);
    }
  }

  lemma StripAndCondition(p: Preset, q: Preset)
    requires Strip(p) == Strip(q) && p.condition == q.condition
    ensures p == q
  {
    assert p == Strip(p).(condition := p.condition);
    assert q == Strip(q).(condition := q.condition);
  }

  lemma NoNullLeft(p: Preset)
    ensures DropNull(p).condition != Some(NullCondition)
  {}

  /** One completed visit takes a preset visited `count` times to one visited `count + 1` times. */
  lemma VisitSettles(w: World, n: string, start: Preset, parents: seq<Preset>, count: nat)
    requires n in w.presets && Visited(w, n, start, count) && ParentsReady(w, n, parents, count)
    requires "" !in w.presets[n].environment
    requires Acceptable(DropNull(InheritAll(start, parents)), Version(w, w.presets[n].origin))
    ensures Settled(w, n, DropNull(InheritAll(start, parents)), count + 1)
  {
    hide InheritAll, DropNull, Inheritable, ParentReady, Strip, Acceptable;
    var q := DropNull(InheritAll(start, parents));
    NoNullLeft(InheritAll(start, parents));
    VisitMerges(w, n, start, parents, count);
    AcceptableIgnoresCondition(q, Merged(w, n), Version(w, w.presets[n].origin));
    ResolvableIntro(w, n);
    if Supplied(w, n) && (count >= 1 || DeclaresCondition(w, n)) {
      SuppliedAfterVisit(w, n, start, parents, count);
    }
    if NullsHarmless(w) && (count == 0 || InheritedBySome(w, n)) {
      FaithfulVisit(w, n, start, parents, count);
      StripAndCondition(q, Resolved(w, n));
    }
  }

  /** A visit of a preset that resolves never fails its own checks. */
  lemma VisitAccepts(w: World, n: string, start: Preset, parents: seq<Preset>, count: nat)
    requires n in w.presets && Visited(w, n, start, count) && ParentsReady(w, n, parents, count)
    requires Resolvable(w, n)
    ensures Acceptable(DropNull(InheritAll(start, parents)), Version(w, w.presets[n].origin))
  {
    hide InheritAll;
    VisitMerges(w, n, start, parents, count);
    ResolvedUnfold(w, n);
    AcceptableIgnoresCondition(DropNull(InheritAll(start, parents)), Merged(w, n), Version(w, w.presets[n].origin));
  }

  lemma {:induction false} VariablesAreNamed(w: World, n: string, k: nat)
    requires Resolve(w, n, k).Some?
    ensures "" !in Resolve(w, n, k).value.environment
    decreases k
  {
    hide Combine;
    ResolvedAt(w, n, k);
    ResolvedField(w, n, Environment(""));
    var ps := w.presets[n].inherits;
    var inherited := ReadEach(ResolvedParents(w, n), Environment(""));
    ResolvedUnfold(w, n);
    forall i | 0 <= i < |ps|
      ensures inherited[i].None?
    {
      ParentResolves(w, n, k, i);
      VariablesAreNamed(w, ps[i], k - 1);
      ResolvedAt(w, ps[i], k - 1);
    }
    NothingSet([Read(w.presets[n], Environment(""))] + inherited);
  }

  lemma {:induction false} NothingSet<V>(values: seq<Option<V>>)
    requires forall i :: 0 <= i < |values| ==> values[i].None?
    ensures FirstSet(values).None?
  {
    if values != [] {
      NothingSet(values[1..]);
    }
  }

  lemma VisitStartsNamed(w: World, n: string, start: Preset, count: nat)
    requires n in w.presets && Visited(w, n, start, count)
    ensures Resolvable(w, n) ==> "" !in start.environment
    ensures "" !in start.environment ==> "" !in w.presets[n].environment
    ensures start.inherits == w.presets[n].inherits && start.origin == w.presets[n].origin
  {
    hide InheritAll;
    if Resolvable(w, n) {
      ResolvedUnfold(w, n);
      var k: nat :| Resolve(w, n, k).Some?;
      VariablesAreNamed(w, n, k);
      ResolvedAt(w, n, k);
    }
    if count > 0 {
      assert start.environment == Strip(start).environment == Resolved(w, n).environment;
      assert start.inherits == Strip(start).inherits == Resolved(w, n).inherits;
      assert start.origin == Strip(start).origin == Resolved(w, n).origin;
      InheritAllKeeps(w.presets[n], ResolvedParents(w, n));
    }
  }

  lemma {:induction false} InheritAllKeeps(p: Preset, parents: seq<Preset>)
    ensures InheritAll(p, parents).inherits == p.inherits
    ensures InheritAll(p, parents).origin == p.origin
  {
    if parents != [] {
      InheritAllKeeps(p, parents[..|parents| - 1]);
    }
  }

  // The state between visits --------------------------------------------------------------------

  /** The presets and the number of completed visits of each, while `busy` is being visited. */
  ghost predicate Consistent(w: World, cur: map<string, Preset>, visits: map<string, nat>, busy: set<string>) {
    && cur.Keys == w.presets.Keys == visits.Keys
    && (forall n :: n in cur && n !in busy ==> Visited(w, n, cur[n], visits[n]))
    && ParentsAhead(w, visits)
  }

  /** A parent has been visited at least as often as each of its children. */
  ghost predicate ParentsAhead(w: World, visits: map<string, nat>)
    requires visits.Keys == w.presets.Keys
  {
    forall c, i: nat {:trigger Parent(w, c, i)} :: c in visits && i < |w.presets[c].inherits| ==>
      Parent(w, c, i) in visits ==> visits[c] <= visits[Parent(w, c, i)]
  }

  /** Between two moments every parent gains at least as many visits as each of its children. */
  ghost predicate Advances(w: World, before: map<string, nat>, after: map<string, nat>) {
    && before.Keys == after.Keys == w.presets.Keys
    && (forall n :: n in before ==> before[n] <= after[n])
    && (forall c, i: nat {:trigger Parent(w, c, i)} :: c in before && i < |w.presets[c].inherits| ==>
          Parent(w, c, i) in before ==>
            after[c] - before[c] <= after[Parent(w, c, i)] - before[Parent(w, c, i)])
  }

  /** What a visit may not touch: presets being visited, and presets nobody inherits. */
  ghost predicate Spared(w: World, n: string, busy: set<string>, m: string) {
    m in busy || (m != n && !InheritedBySome(w, m))
  }

  ghost predicate Untouched(w: World, n: string, busy: set<string>,
                            cur: map<string, Preset>, visits: map<string, nat>,
                            cur': map<string, Preset>, visits': map<string, nat>)
  {
    && cur.Keys == visits.Keys == cur'.Keys == visits'.Keys
    && forall m :: m in cur && Spared(w, n, busy, m) ==> cur'[m] == cur[m] && visits'[m] == visits[m]
  }

  /** What a completed visit of `n` did to the presets and the visit counts. */
  ghost predicate VisitDone(w: World, n: string, busy: set<string>,
                            cur: map<string, Preset>, visits: map<string, nat>,
                            cur': map<string, Preset>, visits': map<string, nat>)
  {
    && Consistent(w, cur', visits', busy)
    && Untouched(w, n, busy, cur, visits, cur', visits')
    && Advances(w, visits, visits')
    && n in visits && visits'[n] == visits[n] + 1
    && ChildrenKeep(w, n, visits, visits')
  }

  /** No preset that inherits `n` is visited meanwhile. */
  ghost predicate ChildrenKeep(w: World, n: string, visits: map<string, nat>, visits': map<string, nat>)
    requires visits.Keys == visits'.Keys == w.presets.Keys
  {
    forall c, i: nat {:trigger Parent(w, c, i)} :: c in visits && i < |w.presets[c].inherits| ==>
      Parent(w, c, i) == n ==> visits'[c] == visits[c]
  }

  /** A visit of `n`, begun on `cur` and `visits`, that has inherited from `parents` so far. */
  ghost predicate Visiting(w: World, n: string, busy: set<string>,
                           cur: map<string, Preset>, visits: map<string, nat>,
                           cur': map<string, Preset>, visits': map<string, nat>, parents: seq<Preset>)
  {
    && n in cur && n !in busy && busy <= w.presets.Keys
    && Consistent(w, cur, visits, busy)
    && Consistent(w, cur', visits', busy + {n})
    && Untouched(w, n, busy, cur, visits, cur', visits')
    && Advances(w, visits, visits')
    && visits'[n] == visits[n]
    && |parents| <= |w.presets[n].inherits|
    && (forall j :: 0 <= j < |parents| ==> ParentReady(w, n, j, parents[j], visits[n]))
    && (forall j :: 0 <= j < |parents| ==> Gained(visits, visits', Parent(w, n, j)))
    && cur'[n] == InheritAll(cur[n], parents)
  }

  ghost predicate Gained(visits: map<string, nat>, visits': map<string, nat>, p: string) {
    p in visits && p in visits' && visits'[p] > visits[p]
  }

  lemma VisitBegins(w: World, n: string, busy: set<string>, cur: map<string, Preset>, visits: map<string, nat>)
    requires n in cur && n !in busy && busy <= w.presets.Keys && Consistent(w, cur, visits, busy)
    ensures n in w.presets && Visiting(w, n, busy, cur, visits, cur, visits, [])
    ensures cur[n].inherits == w.presets[n].inherits
    ensures Resolvable(w, n) ==> "" !in cur[n].environment
  {
    hide InheritedBySome, Settled;
    assert Visited(w, n, cur[n], visits[n]);
    VisitStartsNamed(w, n, cur[n], visits[n]);
  }

  lemma InheritAllNext(child: Preset, parents: seq<Preset>, p: Preset)
    ensures InheritAll(child, parents + [p]) == Inherit(InheritAll(child, parents), p)
  {
    hide Inherit;
    assert (parents + [p])[..|parents|] == parents;
  }

  lemma VisitedParentReady(w: World, n: string, i: nat, p: Preset, count: nat, parentCount: nat)
    requires n in w.presets && i < |w.presets[n].inherits|
    requires Inheritable(w, w.presets[n].origin, Parent(w, n, i))
    requires Visited(w, Parent(w, n, i), p, parentCount) && parentCount > count
    ensures ParentReady(w, n, i, p, count)
  {
    assert Parent(w, n, i) in w.presets[n].inherits;
    assert InheritedBySome(w, Parent(w, n, i));
  }

  /** A parent visited while `n` is being visited is another preset, and not one in progress. */
  lemma VisitedParent(w: World, n: string, busy: set<string>,
                      cur: map<string, Preset>, visits: map<string, nat>, i: nat,
                      cur': map<string, Preset>, visits': map<string, nat>)
    requires n in w.presets && i < |w.presets[n].inherits| && busy <= w.presets.Keys
    requires Consistent(w, cur, visits, busy + {n})
    requires VisitDone(w, Parent(w, n, i), busy + {n}, cur, visits, cur', visits')
    ensures var p := Parent(w, n, i);
            p in cur' && p !in busy && p != n && Visited(w, p, cur'[p], visits'[p]) && visits'[p] > visits[n]
    ensures cur'[n] == cur[n] && visits'[n] == visits[n]
    ensures forall m :: m in cur && Spared(w, n, busy, m) ==> cur'[m] == cur[m] && visits'[m] == visits[m]
  {
    hide Visited;
    var p := Parent(w, n, i);
    assert p in w.presets[n].inherits;
    assert InheritedBySome(w, p);
    assert Spared(w, p, busy + {n}, n);
    assert p in busy + {n} ==> Spared(w, p, busy + {n}, p);
    assert visits[n] <= visits[p];
    forall m | m in cur && Spared(w, n, busy, m)
      ensures Spared(w, p, busy + {n}, m)
    {}
  }

  lemma AdvancesTwice(w: World, a: map<string, nat>, b: map<string, nat>, c: map<string, nat>)
    requires Advances(w, a, b) && Advances(w, b, c)
    ensures Advances(w, a, c)
  {}

  /** Overwriting a preset that is being visited disturbs nothing. */
  lemma OverwriteBusy(w: World, n: string, busy: set<string>,
                      cur: map<string, Preset>, visits: map<string, nat>,
                      cur': map<string, Preset>, visits': map<string, nat>, q: Preset)
    requires n in cur' && n in busy && Consistent(w, cur', visits', busy)
    requires n in cur && n !in busy - {n} && Untouched(w, n, busy - {n}, cur, visits, cur', visits')
    ensures Consistent(w, cur'[n := q], visits', busy)
    ensures Untouched(w, n, busy - {n}, cur, visits, cur'[n := q], visits')
  {
    hide Visited, InheritedBySome;
  }

  lemma UntouchedTwice(w: World, n: string, busy: set<string>,
                       cur: map<string, Preset>, visits: map<string, nat>,
                       mid: map<string, Preset>, midVisits: map<string, nat>,
                       cur': map<string, Preset>, visits': map<string, nat>)
    requires Untouched(w, n, busy, cur, visits, mid, midVisits)
    requires mid.Keys == cur'.Keys == visits'.Keys
    requires forall m :: m in mid && Spared(w, n, busy, m) ==> cur'[m] == mid[m] && visits'[m] == midVisits[m]
    ensures Untouched(w, n, busy, cur, visits, cur', visits')
  {
    hide Spared;
  }

  lemma NextReady(w: World, n: string, count: nat, visits: map<string, nat>, visits': map<string, nat>,
                  midVisits: map<string, nat>, parents: seq<Preset>, p: Preset)
    requires n in w.presets && |parents| < |w.presets[n].inherits|
    requires Advances(w, midVisits, visits')
    requires forall j :: 0 <= j < |parents| ==> ParentReady(w, n, j, parents[j], count)
    requires forall j :: 0 <= j < |parents| ==> Gained(visits, midVisits, Parent(w, n, j))
    requires ParentReady(w, n, |parents|, p, count) && Gained(visits, visits', Parent(w, n, |parents|))
    ensures var next := parents + [p];
            (forall j :: 0 <= j < |next| ==> ParentReady(w, n, j, next[j], count)) &&
            (forall j :: 0 <= j < |next| ==> Gained(visits, visits', Parent(w, n, j)))
  {
    hide ParentReady;
    forall j | 0 <= j < |parents|
      ensures Gained(visits, visits', Parent(w, n, j))
    {
      assert Gained(visits, midVisits, Parent(w, n, j));
    }
  }

  lemma ParentVisited(w: World, n: string, busy: set<string>,
                      cur: map<string, Preset>, visits: map<string, nat>,
                      mid: map<string, Preset>, midVisits: map<string, nat>, parents: seq<Preset>,
                      cur': map<string, Preset>, visits': map<string, nat>)
    requires Visiting(w, n, busy, cur, visits, mid, midVisits, parents)
    requires |parents| < |w.presets[n].inherits|
    requires Inheritable(w, w.presets[n].origin, Parent(w, n, |parents|))
    requires VisitDone(w, Parent(w, n, |parents|), busy + {n}, mid, midVisits, cur', visits')
    ensures n in cur' && Parent(w, n, |parents|) in cur'
    ensures Visiting(w, n, busy, cur, visits,
                     cur'[n := Inherit(cur'[n], cur'[Parent(w, n, |parents|)])], visits',
                     parents + [cur'[Parent(w, n, |parents|)]])
  {
    hide Inherit, InheritAll, Visited, ParentReady, Inheritable, Spared, ParentsAhead;
    var i, p := |parents|, Parent(w, n, |parents|);
    VisitedParent(w, n, busy, mid, midVisits, i, cur', visits');
    VisitedParentReady(w, n, i, cur'[p], visits[n], visits'[p]);
    InheritAllNext(cur[n], parents, cur'[p]);
    AdvancesTwice(w, visits, midVisits, visits');
    assert Gained(visits, visits', p);
    NextReady(w, n, visits[n], visits, visits', midVisits, parents, cur'[p]);
    UntouchedTwice(w, n, busy, cur, visits, mid, midVisits, cur', visits');
    assert busy + {n} - {n} == busy;
    OverwriteBusy(w, n, busy + {n}, cur, visits, cur', visits', Inherit(cur'[n], cur'[p]));
  }

  lemma FinishConsistent(w: World, n: string, busy: set<string>,
                         cur: map<string, Preset>, visits: map<string, nat>, q: Preset)
    requires n in cur && n !in busy && Consistent(w, cur, visits, busy + {n})
    requires Visited(w, n, q, visits[n] + 1)
    requires forall i: nat {:trigger Parent(w, n, i)} :: i < |w.presets[n].inherits| ==>
               Parent(w, n, i) in visits ==> visits[n] < visits[Parent(w, n, i)]
    ensures Consistent(w, cur[n := q], visits[n := visits[n] + 1], busy)
  {
    hide Visited;
  }

  lemma FinishUntouched(w: World, n: string, busy: set<string>,
                        cur: map<string, Preset>, visits: map<string, nat>,
                        cur': map<string, Preset>, visits': map<string, nat>, q: Preset)
    requires n in visits' && n !in busy && Untouched(w, n, busy, cur, visits, cur', visits')
    ensures Untouched(w, n, busy, cur, visits, cur'[n := q], visits'[n := visits'[n] + 1])
  {
    hide InheritedBySome;
  }

  lemma FinishAdvances(w: World, n: string, visits: map<string, nat>, visits': map<string, nat>)
    requires n in visits && Advances(w, visits, visits') && visits'[n] == visits[n]
    requires forall j :: 0 <= j < |w.presets[n].inherits| ==> Gained(visits, visits', Parent(w, n, j))
    ensures Advances(w, visits, visits'[n := visits'[n] + 1])
    ensures ChildrenKeep(w, n, visits, visits'[n := visits'[n] + 1])
  {
    var visits2 := visits'[n := visits'[n] + 1];
    forall c, i: nat | c in visits && i < |w.presets[c].inherits| && Parent(w, c, i) in visits
      ensures visits2[c] - visits[c] <= visits2[Parent(w, c, i)] - visits[Parent(w, c, i)]
    {
      assert c == n ==> Gained(visits, visits', Parent(w, n, i));
    }
  }

  lemma VisitEndsSettled(w: World, n: string, busy: set<string>,
                         cur: map<string, Preset>, visits: map<string, nat>,
                         cur': map<string, Preset>, visits': map<string, nat>, parents: seq<Preset>)
    requires Visiting(w, n, busy, cur, visits, cur', visits', parents)
    requires |parents| == |w.presets[n].inherits|
    ensures "" !in cur[n].environment && Acceptable(DropNull(cur'[n]), Version(w, w.presets[n].origin)) ==>
              Visited(w, n, DropNull(cur'[n]), visits'[n] + 1)
    ensures Resolvable(w, n) ==> Acceptable(DropNull(cur'[n]), Version(w, w.presets[n].origin))
    ensures cur[n].inherits == w.presets[n].inherits
  {
    hide InheritAll, DropNull, Settled, ParentReady, InheritedBySome, Acceptable, Advances, ParentsAhead, Untouched;
    assert Visited(w, n, cur[n], visits[n]);
    VisitStartsNamed(w, n, cur[n], visits[n]);
    if "" !in cur[n].environment && Acceptable(DropNull(cur'[n]), Version(w, w.presets[n].origin)) {
      VisitSettles(w, n, cur[n], parents, visits[n]);
    }
    if Resolvable(w, n) {
      VisitAccepts(w, n, cur[n], parents, visits[n]);
    }
  }

  lemma VisitEnds(w: World, n: string, busy: set<string>,
                  cur: map<string, Preset>, visits: map<string, nat>,
                  cur': map<string, Preset>, visits': map<string, nat>, parents: seq<Preset>)
    requires Visiting(w, n, busy, cur, visits, cur', visits', parents)
    requires |parents| == |w.presets[n].inherits|
    requires Visited(w, n, DropNull(cur'[n]), visits'[n] + 1)
    ensures VisitDone(w, n, busy, cur, visits, cur'[n := DropNull(cur'[n])], visits'[n := visits'[n] + 1])
  {
    hide InheritAll, DropNull, Visited, ParentReady, InheritedBySome, Inherit, Spared;
    FinishAdvances(w, n, visits, visits');
    forall i: nat {:trigger Parent(w, n, i)} | i < |w.presets[n].inherits|
      ensures visits'[n] < visits'[Parent(w, n, i)]
    {
      assert Gained(visits, visits', Parent(w, n, i));
      assert visits[n] <= visits[Parent(w, n, i)];
    }
    FinishConsistent(w, n, busy, cur', visits', DropNull(cur'[n]));
    FinishUntouched(w, n, busy, cur, visits, cur', visits', DropNull(cur'[n]));
  }

  lemma VisitedWasFree(w: World, n: string, busy: set<string>,
                       cur: map<string, Preset>, visits: map<string, nat>,
                       cur': map<string, Preset>, visits': map<string, nat>)
    requires VisitDone(w, n, busy, cur, visits, cur', visits')
    ensures n !in busy
  {
    hide Visited, ParentsAhead, Advances;
    assert n in busy ==> Spared(w, n, busy, n);
  }

  /** What a visit in progress tells about the preset and about the presets still to visit. */
  lemma VisitingFacts(w: World, n: string, busy: set<string>,
                      cur: map<string, Preset>, visits: map<string, nat>,
                      cur': map<string, Preset>, visits': map<string, nat>, parents: seq<Preset>)
    requires Visiting(w, n, busy, cur, visits, cur', visits', parents)
    ensures cur'.Keys == w.presets.Keys && n in visits' && n !in busy
    ensures Consistent(w, cur', visits', busy + {n})
    ensures cur'[n].origin == w.presets[n].origin
    ensures forall p :: p in cur' && p !in busy && p != n ==> cur'[p].origin == w.presets[p].origin
  {
    hide InheritAll, ParentReady, InheritedBySome, Advances, ParentsAhead, Untouched, Settled;
    assert Visited(w, n, cur[n], visits[n]);
    VisitStartsNamed(w, n, cur[n], visits[n]);
    InheritAllKeeps(cur[n], parents);
    forall p | p in cur' && p !in busy && p != n
      ensures cur'[p].origin == w.presets[p].origin
    {
      assert Visited(w, p, cur'[p], visits'[p]);
      VisitStartsNamed(w, p, cur'[p], visits'[p]);
    }
  }

  /** A preset whose visit cannot fail has parents that exist, are reachable, and whose visits
      cannot fail either. */
  lemma UnblockedParents(w: World, n: string, busy: set<string>)
    requires Unblocked(w, n, busy)
    ensures n in w.presets && n !in busy && Resolvable(w, n)
    ensures forall i :: 0 <= i < |w.presets[n].inherits| ==>
              Inheritable(w, w.presets[n].origin, Parent(w, n, i)) &&
              Unblocked(w, Parent(w, n, i), busy + {n}) && Parent(w, n, i) !in busy + {n}
  {
    hide InheritAll, Unblocked;
    UnblockedUnfold(w, n, busy);
    ResolvedUnfold(w, n);
    forall i | 0 <= i < |w.presets[n].inherits|
      ensures Parent(w, n, i) !in busy + {n}
    {
      UnblockedUnfold(w, Parent(w, n, i), busy + {n});
    }
  }

  // All presets ------------------------------------------------------------------------------

  /** The state between top-level visits, `done` being the presets already visited there. */
  ghost predicate BetweenVisits(w: World, cur: map<string, Preset>, visits: map<string, nat>, done: set<string>) {
    && Consistent(w, cur, visits, {})
    && done <= w.presets.Keys
    && (forall n :: n in done ==> visits[n] >= 1)
    && (forall c, i: nat {:trigger Parent(w, c, i)} :: c in visits && i < |w.presets[c].inherits| ==>
          Parent(w, c, i) in done ==> visits[c] + 1 <= visits[Parent(w, c, i)])
    && (forall n :: n in visits && !InheritedBySome(w, n) ==> visits[n] == if n in done then 1 else 0)
  }

  lemma TopLevelVisit(w: World, n: string, done: set<string>,
                      cur: map<string, Preset>, visits: map<string, nat>,
                      cur': map<string, Preset>, visits': map<string, nat>)
    requires BetweenVisits(w, cur, visits, done) && n in cur && n !in done
    requires VisitDone(w, n, {}, cur, visits, cur', visits')
    ensures BetweenVisits(w, cur', visits', done + {n})
  {
    hide Visited, InheritedBySome;
    forall c, i: nat {:trigger Parent(w, c, i)} |
      c in visits && i < |w.presets[c].inherits| && Parent(w, c, i) in done + {n}
      ensures visits'[c] + 1 <= visits'[Parent(w, c, i)]
    {
      assert visits[c] <= visits[Parent(w, c, i)];
    }
    forall m | m in visits && !InheritedBySome(w, m)
      ensures visits'[m] == if m in done + {n} then 1 else 0
    {
      if m != n {
        assert Spared(w, n, {}, m);
      }
    }
  }

  lemma NoVisitYet(w: World, visits: map<string, nat>)
    requires visits.Keys == w.presets.Keys && forall n :: n in visits ==> visits[n] == 0
    ensures BetweenVisits(w, w.presets, visits, {})
  {}

  lemma NoneBusy(status: map<string, CycleStatus>)
    requires forall n :: n in status ==> status[n] == Unvisited
    ensures Busy(status) == {}
  {}

  lemma StartVisit(w: World, n: string, cur: map<string, Preset>, visits: map<string, nat>, done: set<string>)
    requires BetweenVisits(w, cur, visits, done)
    ensures cur.Keys == w.presets.Keys && Consistent(w, cur, visits, {})
    ensures AllResolvable(w) && n in w.presets ==> Unblocked(w, n, {})
  {}

  /** Every preset is its declarative resolution, the condition aside; the conditions are too exactly
      when no inherited preset declares null below an ancestor's condition. */
  ghost predicate Inherited(w: World, cur: map<string, Preset>) {
    && cur.Keys == w.presets.Keys
    && AllResolvable(w)
    && (forall n :: n in cur ==> Strip(cur[n]) == Strip(Resolved(w, n)))
    && ((forall n :: n in cur ==> cur[n] == Resolved(w, n)) <==> NullsHarmless(w))
  }

  lemma NullResolvesToNone(w: World, n: string)
    requires DeclaresNull(w, n) && Resolvable(w, n)
    ensures Resolved(w, n).condition.None?
  {
    hide InheritAll;
    ResolvedUnfold(w, n);
    InheritAllCondition(w.presets[n], ResolvedParents(w, n));
  }

  /** Every preset has been visited, and every inherited one at least twice. */
  lemma VisitCounts(w: World, cur: map<string, Preset>, visits: map<string, nat>, n: string)
    requires BetweenVisits(w, cur, visits, w.presets.Keys) && n in cur
    ensures n in visits && Settled(w, n, cur[n], visits[n])
    ensures if InheritedBySome(w, n) then visits[n] >= 2 else visits[n] == 1
  {
    hide Settled;
    assert Visited(w, n, cur[n], visits[n]);
    if InheritedBySome(w, n) {
      var c :| c in w.presets && n in w.presets[c].inherits;
      var i :| 0 <= i < |w.presets[c].inherits| && w.presets[c].inherits[i] == n;
      assert Parent(w, c, i) == n;
    }
  }

  /** Once every preset has been visited at the top level, the presets are resolved, and their
      conditions too exactly when null conditions are harmless. */
  lemma AllVisited(w: World, cur: map<string, Preset>, visits: map<string, nat>)
    requires BetweenVisits(w, cur, visits, w.presets.Keys)
    ensures AllResolvable(w) && Inherited(w, cur)
  {
    hide InheritedBySome, Supplied, DeclaresNull, Consistent, Resolved, Resolvable, Strip;
    assert cur.Keys == w.presets.Keys by {
      StartVisit(w, "", cur, visits, w.presets.Keys);
    }
    forall n | n in cur
      ensures Resolvable(w, n)
      ensures Strip(cur[n]) == Strip(Resolved(w, n))
      ensures NullsHarmless(w) ==> cur[n] == Resolved(w, n)
    {
      VisitCounts(w, cur, visits, n);
    }
    if n :| DeclaresNull(w, n) && InheritedBySome(w, n) && Supplied(w, n) {
      assert n in cur by {
        NullIsPreset(w, n);
      }
      VisitCounts(w, cur, visits, n);
      NullResolvesToNone(w, n);
    }
  }

  lemma NullIsPreset(w: World, n: string)
    requires DeclaresNull(w, n)
    ensures n in w.presets
  {}

  // What the presets are after inheritance ----------------------------------------------------------------

  /** The parents of a preset among the presets as they are. */
  ghost function ParentsIn(cur: map<string, Preset>, inherits: seq<string>): seq<Preset>
    requires forall i :: 0 <= i < |inherits| ==> inherits[i] in cur
  {
    seq(|inherits|, i requires 0 <= i < |inherits| => cur[inherits[i]])
  }

  /** What inheritance makes of a preset: what it inherits, whether it is hidden and where it comes from stay, and
      every field is its own if set, else the first set one among its parents as they are, in order. */
  ghost predicate FieldsInherited(own: Preset, result: Preset, cur: map<string, Preset>) {
    && result.inherits == own.inherits && result.hidden == own.hidden && result.origin == own.origin
    && (forall i :: 0 <= i < |own.inherits| ==> own.inherits[i] in cur)
    && forall slot :: Read(result, slot) == FirstSet([Read(own, slot)] + ReadEach(ParentsIn(cur, own.inherits), slot))
  }

  /** The same for the condition, a null meaning that there is none. */
  ghost predicate ConditionInherited(own: Preset, result: Preset, cur: map<string, Preset>) {
    && (forall i :: 0 <= i < |own.inherits| ==> own.inherits[i] in cur)
    && var c := FirstSet([own.condition] + ConditionEach(ParentsIn(cur, own.inherits)));
       result.condition == if c == Some(NullCondition) then None else c
  }

  /** The checks that a preset passes: every variable has a name and, unless it is hidden, it has a generator and a
      binary directory if its file is older than version 3, no diagnostic is an error while it is no warning, and
      every cache variable has a name. */
  predicate Complete(p: Preset, version: int) {
    && "" !in p.environment
    && (!p.hidden ==>
          && (version >= 3 || (|p.generator| > 0 && |p.binaryDir| > 0))
          && (forall d :: d in p.errors && p.errors[d] && d in p.warnings ==> p.warnings[d])
          && "" !in p.cacheVariables)
  }

  lemma SameParents(w: World, cur: map<string, Preset>, n: string, slot: Slot)
    requires Inherited(w, cur) && n in cur && n in w.presets && ParentsResolvable(w, n)
    ensures forall i :: 0 <= i < |w.presets[n].inherits| ==> w.presets[n].inherits[i] in cur
    ensures ReadEach(ResolvedParents(w, n), slot) == ReadEach(ParentsIn(cur, w.presets[n].inherits), slot)
    ensures NullsHarmless(w) ==> ResolvedParents(w, n) == ParentsIn(cur, w.presets[n].inherits)
  {
    hide Read, Inherited, Resolved, Resolvable, NullsHarmless;
    var ps := w.presets[n].inherits;
    forall i | 0 <= i < |ps|
      ensures ps[i] in cur && Resolvable(w, ps[i]) && Read(Resolved(w, ps[i]), slot) == Read(cur[ps[i]], slot)
      ensures NullsHarmless(w) ==> Resolved(w, ps[i]) == cur[ps[i]]
    {
      assert Inheritable(w, w.presets[n].origin, ps[i]);
      SameParent(w, cur, ps[i], slot);
    }
  }

  lemma SameParent(w: World, cur: map<string, Preset>, p: string, slot: Slot)
    requires Inherited(w, cur) && p in w.presets && Resolvable(w, p)
    ensures p in cur && Read(Resolved(w, p), slot) == Read(cur[p], slot)
    ensures NullsHarmless(w) ==> Resolved(w, p) == cur[p]
  {
    hide Read, NullsHarmless, Resolvable, Resolved;
    assert p in cur.Keys;
    ReadIgnoresCondition(Resolved(w, p), slot);
    ReadIgnoresCondition(cur[p], slot);
  }

  lemma ReadIgnoresCondition(p: Preset, slot: Slot)
    ensures Read(p, slot) == Read(Strip(p), slot)
  {}

  lemma {:induction false} InheritAllKeepsHidden(p: Preset, parents: seq<Preset>)
    ensures InheritAll(p, parents).hidden == p.hidden
  {
    if parents != [] {
      InheritAllKeepsHidden(p, parents[..|parents| - 1]);
    }
  }

  lemma InheritedFields(w: World, cur: map<string, Preset>, n: string)
    requires Inherited(w, cur) && n in cur
    ensures FieldsInherited(w.presets[n], cur[n], cur)
    ensures NullsHarmless(w) ==> ConditionInherited(w.presets[n], cur[n], cur)
    ensures Complete(cur[n], Version(w, cur[n].origin))
  {
    hide Read, InheritAll, NullsHarmless, Inheritable, FirstSet;
    assert Resolvable(w, n);
    ResolvedUnfold(w, n);
    InheritAllKeeps(w.presets[n], ResolvedParents(w, n));
    InheritAllKeepsHidden(w.presets[n], ResolvedParents(w, n));
    assert Strip(cur[n]) == Strip(Merged(w, n));
    SameParents(w, cur, n, Generator);
    forall slot
      ensures Read(cur[n], slot)
              == FirstSet([Read(w.presets[n], slot)] + ReadEach(ParentsIn(cur, w.presets[n].inherits), slot))
    {
      SameParents(w, cur, n, slot);
      ResolvedField(w, n, slot);
      ReadIgnoresCondition(cur[n], slot);
      ReadIgnoresCondition(Resolved(w, n), slot);
    }
    ResolvedCondition(w, n);
    var k: nat :| Resolve(w, n, k).Some?;
    VariablesAreNamed(w, n, k);
    ResolvedAt(w, n, k);
    assert cur[n].environment == Strip(cur[n]).environment;
    CompleteIffAcceptable(cur[n], Merged(w, n), Version(w, cur[n].origin));
  }

  /** A preset without parents resolves exactly when it passes these checks. */
  lemma ParentlessResolvesIff(w: World, n: string)
    requires n in w.presets && w.presets[n].inherits == []
    ensures Resolvable(w, n) <==> Complete(w.presets[n], Version(w, w.presets[n].origin))
  {
    var own := w.presets[n];
    assert ParentsResolvable(w, n) && ResolvedParents(w, n) == [];
    assert InheritAll(own, []) == own && Strip(Merged(w, n)) == Strip(own);
    if Resolvable(w, n) {
      ResolvedUnfold(w, n);
      CompleteIffAcceptable(own, Merged(w, n), Version(w, own.origin));
    }
    if Complete(own, Version(w, own.origin)) {
      ResolvableIntro(w, n);
    }
  }

  /** A visible preset with nothing but a name is enough for a file of version 3, and not for one of version 2. */
  lemma VersionThreeNeedsLess()
    ensures var p := Bare([], None).(hidden := false);
            && Resolvable(World(map[0 := File(3, {0})], map["p" := p]), "p")
            && !Resolvable(World(map[0 := File(2, {0})], map["p" := p]), "p")
  {
    hide Resolvable;
    var p := Bare([], None).(hidden := false);
    ParentlessResolvesIff(World(map[0 := File(3, {0})], map["p" := p]), "p");
    ParentlessResolvesIff(World(map[0 := File(2, {0})], map["p" := p]), "p");
  }

  lemma CompleteIffAcceptable(p: Preset, q: Preset, version: int)
    requires Strip(p) == Strip(q) && Acceptable(q, version) && "" !in p.environment
    ensures Complete(p, version)
  {
    assert p.errors == Strip(p).errors && p.warnings == Strip(p).warnings;
    assert p.cacheVariables == Strip(p).cacheVariables && p.hidden == Strip(p).hidden;
    assert p.generator == Strip(p).generator && p.binaryDir == Strip(p).binaryDir;
  }

  class PresetGraph {
    const files: map<FileId, File>
    var presets: map<string, Preset>
    ghost var visits: map<string, nat>

    constructor (files: map<FileId, File>, presets: map<string, Preset>)
      ensures this.files == files && this.presets == presets
    {
      this.files, this.presets := files, presets;
      this.visits := map[];
    }

    /** One depth-first visit.  It succeeds whenever nothing at or above the preset is at fault and
        no preset in progress is met again; on success the preset and everything above it is settled. */
    method VisitPreset(ghost w: World, name: string, cycleStatus: map<string, CycleStatus>) returns (ok: bool)
      requires w.files == files && name in presets
      requires forall n :: n in cycleStatus ==> cycleStatus[n] != Verified
      requires Busy(cycleStatus) <= w.presets.Keys
      requires Consistent(w, presets, visits, Busy(cycleStatus))
      modifies this
      ensures ok ==> VisitDone(w, name, Busy(cycleStatus), old(presets), old(visits), presets, visits)
      ensures Unblocked(w, name, Busy(cycleStatus)) ==> ok
      decreases w.presets.Keys - Busy(cycleStatus)
    {
      hide Visiting, Unblocked, VisitDone, Resolvable, Inherit, DropNull, Acceptable, Visited, Consistent;
      ghost var busy := Busy(cycleStatus);
      if Unblocked(w, name, busy) {
        UnblockedParents(w, name, busy);
      }
      if name in cycleStatus && cycleStatus[name] == InProgress {
        return false;
      }
      if name in cycleStatus && cycleStatus[name] == Verified {
        assert false;
        return true;
      }
      var status := cycleStatus[name := InProgress];
      assert Busy(status) == busy + {name};
      ghost var cur, counts := presets, visits;
      VisitBegins(w, name, busy, cur, counts);
      if "" in presets[name].environment {
        return false;
      }
      ghost var parents: seq<Preset> := [];
      var inherits := presets[name].inherits;
      for i := 0 to |inherits|
        invariant |parents| == i && inherits == w.presets[name].inherits
        invariant Visiting(w, name, busy, cur, counts, presets, visits, parents)
      {
        VisitingFacts(w, name, busy, cur, counts, presets, visits, parents);
        var parent := inherits[i];
        assert parent == Parent(w, name, |parents|);
        if parent !in presets {
          return false;
        }
        if presets[name].origin !in files || presets[parent].origin !in files[presets[name].origin].reachable {
          return false;
        }
        ghost var mid, midCounts := presets, visits;
        var visited := VisitPreset(w, parent, status);
        if !visited {
          return false;
        }
        VisitedWasFree(w, parent, busy + {name}, mid, midCounts, presets, visits);
        ParentVisited(w, name, busy, cur, counts, mid, midCounts, parents, presets, visits);
        parents := parents + [presets[parent]];
        presets := presets[name := Inherit(presets[name], presets[parent])];
      }
      VisitingFacts(w, name, busy, cur, counts, presets, visits, parents);
      VisitEndsSettled(w, name, busy, cur, counts, presets, visits, parents);
      var origin := presets[name].origin;
      if !Acceptable(DropNull(presets[name]), if origin in files then files[origin].version else 0) {
        return false;
      }
      VisitEnds(w, name, busy, cur, counts, presets, visits, parents);
      presets := presets[name := DropNull(presets[name])];
      visits := visits[name := visits[name] + 1];
      return true;
    }

    /** The top-level loop: every preset once, in any order. */
    method VisitAll(ghost w: World) returns (ok: bool)
      requires w == World(files, presets) && visits.Keys == presets.Keys
      requires BetweenVisits(w, presets, visits, {})
      modifies this
      ensures ok ==> BetweenVisits(w, presets, visits, w.presets.Keys)
      ensures AllResolvable(w) ==> ok
    {
      hide Unblocked, VisitDone, BetweenVisits, Consistent, AllResolvable, Busy;
      var cycleStatus := map n | n in presets :: Unvisited;
      NoneBusy(cycleStatus);
      ghost var done := {};
      var todo := presets.Keys;
      while todo != {}
        invariant todo <= w.presets.Keys && done == w.presets.Keys - todo
        invariant BetweenVisits(w, presets, visits, done)
      {
        var n :| n in todo;
        ghost var cur, counts := presets, visits;
        StartVisit(w, n, cur, counts, done);
        var visited := VisitPreset(w, n, cycleStatus);
        if !visited {
          return false;
        }
        TopLevelVisit(w, n, done, cur, counts, presets, visits);
        todo, done := todo - {n}, done + {n};
      }
      assert done == w.presets.Keys;
      return true;
    }

    /** Inheritance over all presets: it succeeds exactly when the inherited names exist and are
        reachable, no preset inherits itself through others and the field checks pass. */
    method ComputePresetInheritance() returns (ok: bool)
      modifies this
      ensures var w := World(files, old(presets));
              ok <==> ParentsInheritable(w) && Acyclic(InheritsGraph(w)) && FieldChecksPass(w)
      ensures ok ==> Inherited(World(files, old(presets)), presets)
      ensures ok ==> presets.Keys == old(presets).Keys
      ensures ok ==> forall n :: n in presets ==> FieldsInherited(old(presets)[n], presets[n], presets)
      ensures ok && NullsHarmless(World(files, old(presets))) ==>
              forall n :: n in presets ==> ConditionInherited(old(presets)[n], presets[n], presets)
      ensures ok ==> forall n :: n in presets ==>
                Complete(presets[n], if presets[n].origin in files then files[presets[n].origin].version else 0)
      ensures ok ==> forall n, p :: n in presets && p in old(presets)[n].inherits ==>
                p in presets && old(presets)[n].origin in files &&
                old(presets)[p].origin in files[old(presets)[n].origin].reachable
    {
      hide FieldChecksPass, ParentsInheritable, Acyclic, BetweenVisits, Inherited, AllResolvable;
      ghost var w := World(files, presets);
      AllResolvableIff(w);
      visits := map n | n in presets :: 0;
      NoVisitYet(w, visits);
      ok := VisitAll(w);
      if ok {
        AllVisited(w, presets, visits);
        hide FieldsInherited, ConditionInherited, Complete, NullsHarmless;
        assert presets.Keys == w.presets.Keys by {
          InheritedKeys(w, presets);
        }
        forall n | n in presets
          ensures FieldsInherited(w.presets[n], presets[n], presets)
          ensures NullsHarmless(w) ==> ConditionInherited(w.presets[n], presets[n], presets)
          ensures Complete(presets[n], Version(w, presets[n].origin))
        {
          InheritedFields(w, presets, n);
        }
        ParentsThere(w);
      }
    }
  }

  lemma InheritedKeys(w: World, cur: map<string, Preset>)
    requires Inherited(w, cur)
    ensures cur.Keys == w.presets.Keys
  {}

  lemma ParentsThere(w: World)
    requires ParentsInheritable(w)
    ensures forall n, p :: n in w.presets && p in w.presets[n].inherits ==>
              p in w.presets && w.presets[n].origin in w.files &&
              w.presets[p].origin in w.files[w.presets[n].origin].reachable
  {}
}
