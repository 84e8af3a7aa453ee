/**
 Importing a pkg-config package with everything it requires: a worklist of requirements not yet
 met and a table of packages already imported, with version constraints, requirements bound to
 other targets by the caller, and targets left by earlier imports.
 */
module PkgConfig {
  import opened Wrappers
  import opened Graphs

  /** One `Requires` entry: a package name and a version constraint. */
  datatype Dependency = Dependency(name: string, constraint: string)

  datatype Package = Package(version: string, needs: seq<Dependency>)

  /** What an import can see.  `meets` is the version comparison; `existing` holds the versions of the
      foreign targets, under their prefixed names. */
  datatype World = World(packages: map<string, Package>, providers: map<string, string>,
                         prefix: string, existing: map<string, string>, meets: (string, string) -> bool)

  /** The VERSION argument as given: absent, unreadable, or a constraint naming a version. */
  datatype VersionArgument = NoVersion | BadVersion | Wanted(constraint: string, version: string)

  datatype Request = Request(package: string, version: VersionArgument, exact: bool)

  datatype Entry = Entry(dep: Dependency, parent: string)

  type Stack = map<string, seq<Entry>>

  predicate Provided(w: World, n: string) {
    n in w.providers
  }

  predicate Existing(w: World, n: string) {
    w.prefix + n in w.existing
  }

  predicate RootAccepted(w: World, r: Request, version: string) {
    if r.version.BadVersion? then false
    else if r.exact then version == (if r.version.Wanted? then r.version.version else "")
    else r.version.Wanted? ==> w.meets(r.version.constraint, version)
  }

  // What an import should achieve ------------------------------------------------------------------

  /** A requirement that has to be imported: neither bound by the caller nor met by a target. */
  predicate Open(w: World, d: Dependency) {
    !Provided(w, d.name) && !Existing(w, d.name)
  }

  ghost function RequiresGraph(w: World): Graph<string> {
    map a | a in w.packages :: set i | 0 <= i < |w.packages[a].needs| && Open(w, w.packages[a].needs[i]) ::
      w.packages[a].needs[i].name
  }

  lemma RequiresEdge(w: World, a: string, d: Dependency)
    requires a in w.packages && d in w.packages[a].needs && Open(w, d)
    ensures Edge(RequiresGraph(w), a, d.name)
  {
    var i :| 0 <= i < |w.packages[a].needs| && w.packages[a].needs[i] == d;
  }

  lemma RequiresEdgeFrom(w: World, a: string, b: string) returns (d: Dependency)
    requires Edge(RequiresGraph(w), a, b)
    ensures a in w.packages && d in w.packages[a].needs && Open(w, d) && d.name == b
  {
    var i :| 0 <= i < |w.packages[a].needs| && Open(w, w.packages[a].needs[i]) && w.packages[a].needs[i].name == b;
    d := w.packages[a].needs[i];
  }

  ghost predicate Needed(w: World, root: string, n: string) {
    Reaches(RequiresGraph(w), root, n)
  }

  /** The requirement `d` of package `owner` is met.  A package that requires itself is only held to
      its own constraint when it is the package asked for. */
  ghost predicate Met(w: World, root: string, owner: string, d: Dependency) {
    if Provided(w, d.name) then true
    else if Existing(w, d.name) then w.meets(d.constraint, w.existing[w.prefix + d.name])
    else (d.name == owner && owner != root) ||
         (d.name in w.packages && w.meets(d.constraint, w.packages[d.name].version))
  }

  /** The package asked for is acceptable, everything needed exists, and every requirement is met. */
  ghost predicate Importable(w: World, r: Request) {
    && r.package in w.packages
    && RootAccepted(w, r, w.packages[r.package].version)
    && forall n :: Needed(w, r.package, n) ==>
         n in w.packages && forall d :: d in w.packages[n].needs ==> Met(w, r.package, n, d)
  }

  /** Two packages, the second of which has a requirement on itself that it does not meet. */
  function SelfRequiring(): World {
    World(map["a" := Package("1", [Dependency("b", "good")]), "b" := Package("1", [Dependency("b", "bad")])],
          map[], "", map[], (c, v) => c == "good")
  }

  /** Such a requirement counts when the package itself is asked for, and is forgotten when another one needs it. */
  lemma SelfRequirementForgotten()
    ensures Importable(SelfRequiring(), Request("a", NoVersion, false))
    ensures !Importable(SelfRequiring(), Request("b", NoVersion, false))
  {
    var w := SelfRequiring();
    var g := RequiresGraph(w);
    assert w.packages["a"].needs == [Dependency("b", "good")] && w.packages["b"].needs == [Dependency("b", "bad")];
    forall n | Needed(w, "a", n)
      ensures n == "a" || n == "b"
    {
      ReachesStays(g, {"a", "b"}, "a", n);
    }
    ReachesSelf(g, "b");
    assert Dependency("b", "bad") in w.packages["b"].needs && !Met(w, "b", "b", Dependency("b", "bad"));
  }

  /** The version asked for, written out: an unreadable one is never met; an exact one has to be the package's, and
      asks for the empty version when none is given; any other is a constraint. */
  predicate VersionFits(w: World, r: Request, version: string) {
    match r.version
    case BadVersion => false
    case NoVersion => !r.exact || version == ""
    case Wanted(constraint, wanted) => if r.exact then version == wanted else w.meets(constraint, version)
  }

  /** The requirement `d` of `n` is bound by the caller, or met by an existing target or else by a package in `s`. */
  predicate FitsRequirement(w: World, root: string, s: set<string>, n: string, d: Dependency) {
    d.name in w.providers ||
    if w.prefix + d.name in w.existing then w.meets(d.constraint, w.existing[w.prefix + d.name])
    else
      d.name in s && d.name in w.packages &&
      ((d.name == n && n != root) || w.meets(d.constraint, w.packages[d.name].version))
  }

  /** The packages in `s`, with the one asked for among them, have all that they require. */
  predicate Fits(w: World, r: Request, s: set<string>) {
    && r.package in s && r.package in w.packages && VersionFits(w, r, w.packages[r.package].version)
    && forall n :: n in s ==>
         n in w.packages &&
         forall i :: 0 <= i < |w.packages[n].needs| ==> FitsRequirement(w, r.package, s, n, w.packages[n].needs[i])
  }

  ghost predicate SomeFit(w: World, r: Request) {
    exists s :: Fits(w, r, s)
  }

  /** A request can be met exactly when there are packages that fit. */
  lemma ImportableIff(w: World, r: Request)
    ensures Importable(w, r) <==> SomeFit(w, r)
  {
    hide Needed;
    NeededRoot(w, r.package);
    if Importable(w, r) {
      var s := set n | n in w.packages && Needed(w, r.package, n);
      forall n | n in s
        ensures forall i :: 0 <= i < |w.packages[n].needs| ==>
                FitsRequirement(w, r.package, s, n, w.packages[n].needs[i])
      {
        forall i | 0 <= i < |w.packages[n].needs|
          ensures FitsRequirement(w, r.package, s, n, w.packages[n].needs[i])
        {
          var d := w.packages[n].needs[i];
          assert Met(w, r.package, n, d);
          if Open(w, d) {
            NeededNext(w, r.package, n, d);
          }
        }
      }
      assert Fits(w, r, s);
    }
    if s :| Fits(w, r, s) {
      FittingIsImportable(w, r, s);
    }
  }

  lemma FittingIsImportable(w: World, r: Request, s: set<string>)
    requires Fits(w, r, s)
    ensures Importable(w, r)
  {
    forall n | Needed(w, r.package, n)
      ensures n in w.packages && forall d :: d in w.packages[n].needs ==> Met(w, r.package, n, d)
    {
      forall c, e | c in s && Edge(RequiresGraph(w), c, e) ensures e in s {
        var d := RequiresEdgeFrom(w, c, e);
        var i :| 0 <= i < |w.packages[c].needs| && w.packages[c].needs[i] == d;
        assert FitsRequirement(w, r.package, s, c, w.packages[c].needs[i]);
      }
      ReachesStays(RequiresGraph(w), s, r.package, n);
      forall d | d in w.packages[n].needs ensures Met(w, r.package, n, d) {
        var i :| 0 <= i < |w.packages[n].needs| && w.packages[n].needs[i] == d;
        assert FitsRequirement(w, r.package, s, n, w.packages[n].needs[i]);
      }
    }
  }

  /** A package that requires nothing can be imported exactly when it is there and its version fits. */
  lemma LonePackage(w: World, r: Request)
    requires r.package in w.packages ==> w.packages[r.package].needs == []
    ensures Importable(w, r) <==> r.package in w.packages && VersionFits(w, r, w.packages[r.package].version)
  {
    if r.package in w.packages {
      forall n | Needed(w, r.package, n) ensures n == r.package {
        ReachesStays(RequiresGraph(w), {r.package}, r.package, n);
      }
    }
  }

  /** A package with a single requirement, on a package that requires nothing or on itself, can be imported exactly
      when its version fits and the requirement is bound by the caller, or met by the target or else the package
      of that name. */
  lemma OneRequirement(w: World, r: Request, d: Dependency)
    requires r.package in w.packages && w.packages[r.package].needs == [d]
    requires d.name != r.package && d.name in w.packages ==> w.packages[d.name].needs == []
    ensures Importable(w, r) <==>
            VersionFits(w, r, w.packages[r.package].version) &&
            (d.name in w.providers ||
             if w.prefix + d.name in w.existing then w.meets(d.constraint, w.existing[w.prefix + d.name])
             else d.name in w.packages && w.meets(d.constraint, w.packages[d.name].version))
  {
    var root := r.package;
    forall n | Needed(w, root, n) ensures n == root || (n == d.name && Open(w, d)) {
      NeededOf(w, root, d, n);
    }
    ReachesSelf(RequiresGraph(w), root);
    assert d in w.packages[root].needs;
    if Open(w, d) {
      NeededNext(w, root, root, d);
    }
    assert Importable(w, r) ==> Met(w, root, root, d);
  }

  lemma NeededOf(w: World, root: string, d: Dependency, n: string)
    requires root in w.packages && w.packages[root].needs == [d] && Needed(w, root, n)
    requires d.name != root && d.name in w.packages ==> w.packages[d.name].needs == []
    ensures n == root || (n == d.name && Open(w, d))
  {
    ReachesStays(RequiresGraph(w), if Open(w, d) then {root, d.name} else {root}, root, n);
  }

  // The worklist --------------------------------------------------------------------------------------

  predicate Pending(w: World, out: map<string, Package>, d: Dependency) {
    Open(w, d) && d.name !in out
  }

  /** A requirement on something already there is checked at once. */
  predicate CheckedNow(w: World, out: map<string, Package>, d: Dependency) {
    if Provided(w, d.name) then true
    else if Existing(w, d.name) then w.meets(d.constraint, w.existing[w.prefix + d.name])
    else d.name in out ==> w.meets(d.constraint, out[d.name].version)
  }

  function Push(s: Stack, d: Dependency, parent: string): Stack {
    s[d.name := (if d.name in s then s[d.name] else []) + [Entry(d, parent)]]
  }

  /** The stack after every pending requirement of `parent` has been recorded, in order. */
  function PushAll(w: World, out: map<string, Package>, s: Stack, needs: seq<Dependency>, parent: string): Stack {
    if needs == [] then s
    else
      var before := PushAll(w, out, s, needs[..|needs| - 1], parent);
      var d := needs[|needs| - 1];
      if Pending(w, out, d) then Push(before, d, parent) else before
  }

  lemma {:induction false} PushAllEntries(w: World, out: map<string, Package>, s: Stack, needs: seq<Dependency>,
                                          parent: string, n: string)
    ensures var t := PushAll(w, out, s, needs, parent);
            && (n in t <==> n in s || exists d :: d in needs && Pending(w, out, d) && d.name == n)
            && (n in t ==> forall e :: e in t[n] <==>
                  (n in s && e in s[n]) ||
                  (e.parent == parent && e.dep in needs && Pending(w, out, e.dep) && e.dep.name == n))
  {
    if needs != [] {
      var front, last := needs[..|needs| - 1], needs[|needs| - 1];
      PushAllEntries(w, out, s, front, parent, n);
      assert needs == front + [last];
    }
  }

  method CheckPackageDependencies(w: World, name: string, pkg: Package, inStack: Stack, outStack: map<string, Package>)
    returns (ok: bool, inStack': Stack)
    ensures ok <==> forall d :: d in pkg.needs ==> CheckedNow(w, outStack, d)
    ensures ok ==> inStack' == PushAll(w, outStack, inStack, pkg.needs, name)
  {
    inStack' := inStack;
    for i := 0 to |pkg.needs|
      invariant forall j :: 0 <= j < i ==> CheckedNow(w, outStack, pkg.needs[j])
      invariant inStack' == PushAll(w, outStack, inStack, pkg.needs[..i], name)
    {
      var dep := pkg.needs[i];
      assert pkg.needs[..i + 1][..i] == pkg.needs[..i] && dep in pkg.needs;
      if Provided(w, dep.name) {
        continue;
      }
      if Existing(w, dep.name) {
        if !w.meets(dep.constraint, w.existing[w.prefix + dep.name]) {
          return false, inStack';
        }
        continue;
      }
      if dep.name in outStack {
        if !w.meets(dep.constraint, outStack[dep.name].version) {
          return false, inStack';
        }
        continue;
      }
      inStack' := Push(inStack', dep, name);
    }
    assert pkg.needs[..|pkg.needs|] == pkg.needs;
    return true, inStack';
  }

  /** Reads a package and holds it to every requirement recorded for it. */
  method ImportPackage(w: World, name: string, reqs: seq<Entry>) returns (result: Option<Package>)
    ensures result.Some? <==>
              name in w.packages && forall e :: e in reqs ==> w.meets(e.dep.constraint, w.packages[name].version)
    ensures result.Some? ==> result.value == w.packages[name]
  {
    if name !in w.packages {
      return None;
    }
    for i := 0 to |reqs|
      invariant forall j :: 0 <= j < i ==> w.meets(reqs[j].dep.constraint, w.packages[name].version)
    {
      if !w.meets(reqs[i].dep.constraint, w.packages[name].version) {
        assert reqs[i] in reqs;
        return None;
      }
    }
    return Some(w.packages[name]);
  }

  // What holds whenever a package is picked ------------------------------------------------------------

  ghost predicate GoodEntry(w: World, root: string, out: map<string, Package>, n: string, e: Entry) {
    && e.dep.name == n && Open(w, e.dep)
    && e.parent in out && e.parent in w.packages && e.dep in w.packages[e.parent].needs
    && (e.parent == n ==> n == root)
  }

  ghost predicate GoodStack(w: World, root: string, s: Stack, out: map<string, Package>) {
    forall n :: n in s ==> GoodEntries(w, root, out, n, s[n])
  }

  ghost predicate GoodEntries(w: World, root: string, out: map<string, Package>, n: string, es: seq<Entry>) {
    && Needed(w, root, n) && (n in out ==> n == root)
    && forall e :: e in es ==> GoodEntry(w, root, out, n, e)
  }

  ghost predicate GoodOutput(w: World, root: string, out: map<string, Package>) {
    root in out && forall n :: n in out ==> Needed(w, root, n) && n in w.packages && out[n] == w.packages[n]
  }

  /** A requirement of an imported package is met, or recorded for a package still to come. */
  ghost predicate Settled(w: World, root: string, s: Stack, out: map<string, Package>, a: string, d: Dependency) {
    Recorded(s, a, d) || (Met(w, root, a, d) && (Open(w, d) ==> d.name in out))
  }

  ghost predicate Recorded(s: Stack, a: string, d: Dependency) {
    d.name in s && Entry(d, a) in s[d.name]
  }

  ghost predicate AllSettled(w: World, root: string, s: Stack, out: map<string, Package>) {
    forall a, d :: a in out && a in w.packages && d in w.packages[a].needs ==> Settled(w, root, s, out, a, d)
  }

  ghost predicate Invariant(w: World, root: string, s: Stack, out: map<string, Package>) {
    GoodStack(w, root, s, out) && GoodOutput(w, root, out) && AllSettled(w, root, s, out)
  }

  lemma NeededNext(w: World, root: string, a: string, d: Dependency)
    requires Needed(w, root, a) && a in w.packages && d in w.packages[a].needs && Open(w, d)
    ensures Needed(w, root, d.name)
  {
    RequiresEdge(w, a, d);
    ReachesSelf(RequiresGraph(w), d.name);
    ReachesStep(RequiresGraph(w), a, d.name, d.name);
    ReachesTransitive(RequiresGraph(w), root, a, d.name);
  }

  /** The package asked for has been read and its requirements recorded. */
  lemma RootImported(w: World, root: string)
    requires root in w.packages
    requires forall d :: d in w.packages[root].needs ==> CheckedNow(w, map[], d)
    ensures Invariant(w, root, PushAll(w, map[], map[], w.packages[root].needs, root), map[root := w.packages[root]])
  {
    var needs, out := w.packages[root].needs, map[root := w.packages[root]];
    var s := PushAll(w, map[], map[], needs, root);
    ReachesSelf(RequiresGraph(w), root);
    forall n | n in s
      ensures GoodEntries(w, root, out, n, s[n])
    {
      PushAllEntries(w, map[], map[], needs, root, n);
      var d :| d in needs && Pending(w, map[], d) && d.name == n;
      NeededNext(w, root, root, d);
    }
    forall d | d in needs
      ensures Settled(w, root, s, out, root, d)
    {
      PushAllEntries(w, map[], map[], needs, root, d.name);
    }
  }

  /** One turn of the loop: `n` has been read, held to its requirements and its own checked. */
  lemma NextImported(w: World, root: string, s: Stack, out: map<string, Package>, n: string)
    requires Invariant(w, root, s, out) && n in s && n in w.packages
    requires forall e :: e in s[n] ==> w.meets(e.dep.constraint, w.packages[n].version)
    requires forall d :: d in w.packages[n].needs ==> CheckedNow(w, out, d)
    ensures Invariant(w, root, PushAll(w, out, s, w.packages[n].needs, n) - {n}, out[n := w.packages[n]])
  {
    NextStack(w, root, s, out, n);
    NextSettled(w, root, s, out, n);
  }

  lemma NextStack(w: World, root: string, s: Stack, out: map<string, Package>, n: string)
    requires GoodStack(w, root, s, out) && GoodOutput(w, root, out) && n in s && n in w.packages
    ensures GoodStack(w, root, PushAll(w, out, s, w.packages[n].needs, n) - {n}, out[n := w.packages[n]])
    ensures GoodOutput(w, root, out[n := w.packages[n]])
  {
    hide Needed;
    var needs, out' := w.packages[n].needs, out[n := w.packages[n]];
    var t := PushAll(w, out, s, needs, n);
    forall m | m in t && m != n
      ensures GoodEntries(w, root, out', m, t[m])
    {
      PushAllEntries(w, out, s, needs, n, m);
      if m in s {
        assert GoodEntries(w, root, out, m, s[m]);
      } else {
        var d :| d in needs && Pending(w, out, d) && d.name == m;
        NeededNext(w, root, n, d);
      }
      forall e | e in t[m]
        ensures GoodEntry(w, root, out', m, e)
      {
        if m in s && e in s[m] {
          assert GoodEntry(w, root, out, m, e);
        }
      }
    }
  }

  lemma NextSettled(w: World, root: string, s: Stack, out: map<string, Package>, n: string)
    requires Invariant(w, root, s, out) && n in s && n in w.packages
    requires forall e :: e in s[n] ==> w.meets(e.dep.constraint, w.packages[n].version)
    requires forall d :: d in w.packages[n].needs ==> CheckedNow(w, out, d)
    ensures AllSettled(w, root, PushAll(w, out, s, w.packages[n].needs, n) - {n}, out[n := w.packages[n]])
  {
    hide Needed;
    var needs, out' := w.packages[n].needs, out[n := w.packages[n]];
    var t := PushAll(w, out, s, needs, n) - {n};
    forall a, d | a in out' && a in w.packages && d in w.packages[a].needs
      ensures Settled(w, root, t, out', a, d)
    {
      PushAllEntries(w, out, s, needs, n, d.name);
      if a in out {
        assert Settled(w, root, s, out, a, d);
        if Recorded(s, a, d) && d.name == n {
          assert GoodEntry(w, root, out, n, Entry(d, a));
        }
      }
    }
  }

  // Every way to fail is a reason not to be importable ---------------------------------------------------

  lemma Missing(w: World, r: Request, s: Stack, out: map<string, Package>, n: string)
    requires Invariant(w, r.package, s, out) && n in s && n !in w.packages
    ensures !Importable(w, r)
  {
    assert GoodEntries(w, r.package, out, n, s[n]);
  }

  lemma UnmetEntry(w: World, r: Request, s: Stack, out: map<string, Package>, n: string, e: Entry)
    requires Invariant(w, r.package, s, out) && n in s && e in s[n] && n in w.packages
    requires !w.meets(e.dep.constraint, w.packages[n].version)
    ensures !Importable(w, r)
  {
    assert GoodEntries(w, r.package, out, n, s[n]);
    assert GoodEntry(w, r.package, out, n, e);
    assert Needed(w, r.package, e.parent);
    assert !Met(w, r.package, e.parent, e.dep);
  }

  lemma UnmetNow(w: World, r: Request, s: Stack, out: map<string, Package>, n: string, d: Dependency)
    requires Invariant(w, r.package, s, out) && n in s && n in w.packages && d in w.packages[n].needs
    requires !CheckedNow(w, out, d)
    ensures !Importable(w, r)
  {
    assert GoodEntries(w, r.package, out, n, s[n]);
    assert !Met(w, r.package, n, d);
  }

  lemma UnmetRoot(w: World, r: Request, d: Dependency)
    requires r.package in w.packages && d in w.packages[r.package].needs && !CheckedNow(w, map[], d)
    ensures !Importable(w, r)
  {
    ReachesSelf(RequiresGraph(w), r.package);
    assert !Met(w, r.package, r.package, d);
  }

  // The end -----------------------------------------------------------------------------------------------

  lemma {:induction false} NeededIsImported(w: World, root: string, out: map<string, Package>, walk: seq<string>)
    requires Invariant(w, root, map[], out) && Walk(RequiresGraph(w), walk) && walk[0] in out
    ensures walk[|walk| - 1] in out
    decreases |walk|
  {
    if |walk| > 1 {
      assert Hop(RequiresGraph(w), walk, 0);
      var d := RequiresEdgeFrom(w, walk[0], walk[1]);
      assert Settled(w, root, map[], out, walk[0], d);
      WalkSlice(RequiresGraph(w), walk, 1, |walk|);
      NeededIsImported(w, root, out, walk[1..|walk|]);
    }
  }

  /** With nothing left to import, the imported packages are exactly the needed ones and every
      requirement is met. */
  lemma Finished(w: World, r: Request, out: map<string, Package>)
    requires Invariant(w, r.package, map[], out) && RootAccepted(w, r, out[r.package].version)
    ensures Importable(w, r)
    ensures forall n :: n in out <==> Needed(w, r.package, n)
  {
    forall n | Needed(w, r.package, n)
      ensures n in out
    {
      var walk :| Walk(RequiresGraph(w), walk) && walk[0] == r.package && walk[|walk| - 1] == n;
      NeededIsImported(w, r.package, out, walk);
    }
    forall n, d | n in out && d in w.packages[n].needs
      ensures Met(w, r.package, n, d)
    {
      assert Settled(w, r.package, map[], out, n, d);
    }
  }

  lemma FinishedPackages(w: World, root: string, out: map<string, Package>)
    requires Invariant(w, root, map[], out)
    ensures root in out && forall n :: n in out ==> n in w.packages && out[n] == w.packages[n]
  {}

  /** Picking a package that is already imported leaves fewer packages to pick. */
  lemma PickShrinks(w: World, root: string, s: Stack, out: map<string, Package>, n: string)
    requires Invariant(w, root, s, out) && n in s && n in out && n in w.packages
    ensures (PushAll(w, out, s, w.packages[n].needs, n) - {n}).Keys == s.Keys - {n}
  {
    var t := PushAll(w, out, s, w.packages[n].needs, n);
    forall m | m in t
      ensures m in s
    {
      PushAllEntries(w, out, s, w.packages[n].needs, n, m);
    }
    forall m | m in s
      ensures m in t
    {
      PushAllEntries(w, out, s, w.packages[n].needs, n, m);
    }
  }

  ghost function ToImport(w: World, out: map<string, Package>): set<string> {
    w.packages.Keys - out.Keys
  }

  /** One turn of the worklist loop: read the picked package, hold it to what is recorded for it, record
      or check what it requires, and move it to the imported packages. */
  method ImportPicked(w: World, ghost r: Request, name: string, inStack: Stack, outStack: map<string, Package>)
    returns (ok: bool, inStack': Stack, outStack': map<string, Package>)
    requires Invariant(w, r.package, inStack, outStack) && name in inStack
    ensures !ok ==> !Importable(w, r)
    ensures ok ==>
              Invariant(w, r.package, inStack', outStack') && name in w.packages &&
              outStack' == outStack[name := w.packages[name]] &&
              (ToImport(w, outStack') < ToImport(w, outStack) ||
               (ToImport(w, outStack') == ToImport(w, outStack) && inStack'.Keys < inStack.Keys))
  {
    hide Invariant, CheckedNow, PushAll, Importable;
    var package := ImportPackage(w, name, inStack[name]);
    if package.None? {
      if name in w.packages {
        var e :| e in inStack[name] && !w.meets(e.dep.constraint, w.packages[name].version);
        UnmetEntry(w, r, inStack, outStack, name, e);
      } else {
        Missing(w, r, inStack, outStack, name);
      }
      return false, inStack, outStack;
    }
    ok, inStack' := CheckPackageDependencies(w, name, package.value, inStack, outStack);
    if !ok {
      var d :| d in package.value.needs && !CheckedNow(w, outStack, d);
      UnmetNow(w, r, inStack, outStack, name, d);
      return false, inStack, outStack;
    }
    NextImported(w, r.package, inStack, outStack, name);
    if name in outStack {
      PickShrinks(w, r.package, inStack, outStack, name);
      assert name in inStack.Keys && outStack[name := package.value].Keys == outStack.Keys;
    } else {
      assert name in ToImport(w, outStack) && name !in ToImport(w, outStack[name := package.value]);
    }
    return true, inStack' - {name}, outStack[name := package.value];
  }

  /** Imports a package and everything it needs.  The next package is picked from the stack in any
      order; the outcome depends only on what can be seen. */
  method Resolve(w: World, r: Request) returns (result: Option<map<string, Package>>)
    ensures result.Some? <==> Importable(w, r)
    ensures result.Some? ==>
              (forall n :: n in result.value <==> Needed(w, r.package, n)) &&
              (forall n :: n in result.value ==> n in w.packages && result.value[n] == w.packages[n])
    ensures result.Some? ==> r.package in result.value && VersionFits(w, r, result.value[r.package].version)
    ensures result.Some? <==> SomeFit(w, r)
  {
    ImportableIff(w, r);
    hide Invariant, CheckedNow, PushAll, Needed, Met, ToImport;
    if r.package !in w.packages {
      return None;
    }
    var root := w.packages[r.package];
    if !RootAccepted(w, r, root.version) {
      return None;
    }
    var ok, inStack := CheckPackageDependencies(w, r.package, root, map[], map[]);
    if !ok {
      var d :| d in root.needs && !CheckedNow(w, map[], d);
      UnmetRoot(w, r, d);
      return None;
    }
    RootImported(w, r.package);
    var outStack := map[r.package := root];
    while inStack != map[]
      invariant Invariant(w, r.package, inStack, outStack)
      decreases ToImport(w, outStack), inStack.Keys
    {
      var name :| name in inStack.Keys;
      ok, inStack, outStack := ImportPicked(w, r, name, inStack, outStack);
      if !ok {
        return None;
      }
    }
    FinishedPackages(w, r.package, outStack);
    Finished(w, r, outStack);
    return Some(outStack);
  }

  // Targets -------------------------------------------------------------------------------------------------

  /** A link of an imported target: to a target bound by the caller, or to a foreign target. */
  datatype Link = Bound(target: string) | Foreign(target: string, constraint: string)

  datatype Target = Target(version: string, links: seq<Link>)

  function LinkFor(w: World, d: Dependency): Link {
    if Provided(w, d.name) then Bound(w.providers[d.name]) else Foreign(w.prefix + d.name, d.constraint)
  }

  function CreateTarget(w: World, p: Package): Target {
    Target(p.version, seq(|p.needs|, i requires 0 <= i < |p.needs| => LinkFor(w, p.needs[i])))
  }

  /** Every foreign link leads to a target, of a version the link asks for unless it is the target's own. */
  ghost predicate Linked(meets: (string, string) -> bool, targets: map<string, Target>) {
    forall k, l :: k in targets && l in targets[k].links && l.Foreign? ==> LinkHolds(meets, targets, k, l)
  }

  ghost predicate LinkHolds(meets: (string, string) -> bool, targets: map<string, Target>, k: string, l: Link)
    requires l.Foreign?
  {
    l.target in targets && (l.target == k || meets(l.constraint, targets[l.target].version))
  }

  function Versions(targets: map<string, Target>): map<string, string> {
    map k | k in targets :: targets[k].version
  }

  lemma NeededIsNew(w: World, root: string, n: string)
    requires Needed(w, root, n) && !Existing(w, root)
    ensures !Existing(w, n)
  {
    if n != root {
      NeededLast(w, root, n);
    }
  }

  lemma NeededLast(w: World, root: string, n: string)
    requires Needed(w, root, n) && n != root
    ensures !Provided(w, n) && !Existing(w, n)
  {
    var g := RequiresGraph(w);
    var walk :| Walk(g, walk) && walk[0] == root && walk[|walk| - 1] == n;
    assert Hop(g, walk, |walk| - 2);
    var d := RequiresEdgeFrom(w, walk[|walk| - 2], n);
  }

  /** The targets of one import, beside those already there. */
  ghost predicate Added(w: World, targets: map<string, Target>, out: map<string, Package>, targets': map<string,
                        Target>) {
    && (forall k :: k in targets' <==> k in targets || exists n :: n in out && k == w.prefix + n)
    && (forall k :: k in targets ==> targets'[k] == targets[k])
    && (forall n :: n in out ==> w.prefix + n in targets' && targets'[w.prefix + n] == CreateTarget(w, out[n]))
  }

  lemma LinkedAfter(w: World, r: Request, targets: map<string, Target>, out: map<string, Package>,
                    targets': map<string, Target>)
    requires w.existing == Versions(targets) && Linked(w.meets, targets) && Added(w, targets, out, targets')
    requires Importable(w, r)
    requires forall n :: n in out <==> Needed(w, r.package, n)
    requires forall n :: n in out ==> n in w.packages && out[n] == w.packages[n]
    ensures Linked(w.meets, targets')
  {
    forall k, l | k in targets' && l in targets'[k].links && l.Foreign?
      ensures LinkHolds(w.meets, targets', k, l)
    {
      if k in targets {
        assert LinkHolds(w.meets, targets, k, l);
      } else {
        var n :| n in out && k == w.prefix + n;
        NewLinkHolds(w, r, targets, out, targets', n, l);
      }
    }
  }

  lemma NewLinkHolds(w: World, r: Request, targets: map<string, Target>, out: map<string, Package>,
                     targets': map<string, Target>, n: string, l: Link)
    requires w.existing == Versions(targets) && Added(w, targets, out, targets') && Importable(w, r)
    requires forall m :: m in out <==> Needed(w, r.package, m)
    requires forall m :: m in out ==> m in w.packages && out[m] == w.packages[m]
    requires n in out && l in CreateTarget(w, out[n]).links && l.Foreign?
    ensures LinkHolds(w.meets, targets', w.prefix + n, l)
  {
    hide Needed, RootAccepted;
    var needs := out[n].needs;
    var i :| 0 <= i < |needs| && l == LinkFor(w, needs[i]);
    var d := needs[i];
    assert d in w.packages[n].needs && Met(w, r.package, n, d);
    if !Existing(w, d.name) {
      NeededNext(w, r.package, n, d);
      assert d.name in out;
    }
  }

  class Makefile {
    const meets: (string, string) -> bool
    var targets: map<string, Target>

    constructor (meets: (string, string) -> bool)
      ensures this.meets == meets && targets == map[] && Linked(meets, targets)
    {
      this.meets, targets := meets, map[];
    }

    /** One new foreign target for each imported package. */
    method AddTargets(w: World, out: map<string, Package>)
      requires forall n :: n in out ==> w.prefix + n !in targets
      modifies this
      ensures Added(w, old(targets), out, targets)
    {
      hide CreateTarget;
      var todo := out.Keys;
      assert out - todo == map[];
      while todo != {}
        invariant todo <= out.Keys
        invariant Added(w, old(targets), out - todo, targets)
      {
        var n :| n in todo;
        PrefixedDiffer(w.prefix, n, out.Keys - todo);
        assert w.prefix + n !in targets;
        ghost var before := targets;
        targets := targets[w.prefix + n := CreateTarget(w, out[n])];
        assert targets - {w.prefix + n} == before;
        AddedOne(w, old(targets), out, todo, n, targets);
        todo := todo - {n};
      }
      assert out - todo == out;
    }

    /** The POPULATE command.  Whatever was imported before, a package already there is found at once;
        otherwise it is found exactly when it can be imported, and then the new targets are exactly the
        needed packages.  Every link of every target keeps leading somewhere acceptable. */
    method Populate(packages: map<string, Package>, providers: map<string, string>, prefix: string, r: Request)
      returns (found: bool)
      requires Linked(meets, targets)
      modifies this
      ensures Linked(meets, targets)
      ensures var w := World(packages, providers, prefix, Versions(old(targets)), meets);
              found <==> prefix + r.package in old(targets) || Importable(w, r)
      ensures !found || prefix + r.package in old(targets) ==> targets == old(targets)
      ensures var w := World(packages, providers, prefix, Versions(old(targets)), meets);
              found && prefix + r.package !in old(targets) ==>
                forall k :: k in targets <==> k in old(targets) || exists n ::
                  Needed(w, r.package, n) && k == prefix + n
      ensures forall k :: k in old(targets) ==> k in targets && targets[k] == old(targets)[k]
      ensures found ==> prefix + r.package in targets
      ensures forall n :: prefix + n in targets && prefix + n !in old(targets) ==>
                n in packages && MadeFrom(targets[prefix + n], packages[n], providers, prefix)
      ensures forall n :: prefix + n in targets && prefix + n !in old(targets) && n != r.package ==>
                n !in providers && exists m :: NewRequires(packages, prefix, targets, m, n)
      ensures forall n :: prefix + n in targets && prefix + n !in old(targets) ==>
                RequirementsMet(packages[n], n == r.package, n, providers, prefix, old(targets), targets, meets)
    {
      hide Importable, Needed, Linked, CreateTarget;
      if prefix + r.package in targets {
        return true;
      }
      var w := World(packages, providers, prefix, Versions(targets), meets);
      var resolved := Resolve(w, r);
      if resolved.None? {
        return false;
      }
      var out := resolved.value;
      NeededRoot(w, r.package);
      forall n | n in out
        ensures w.prefix + n !in targets
      {
        NeededIsNew(w, r.package, n);
      }
      AddTargets(w, out);
      LinkedAfter(w, r, old(targets), out, targets);
      forall n | prefix + n in targets && prefix + n !in old(targets)
        ensures n in packages && MadeFrom(targets[prefix + n], packages[n], providers, prefix)
        ensures n != r.package ==>
                  n !in providers && exists m :: NewRequires(packages, prefix, targets, m, n)
        ensures RequirementsMet(packages[n], n == r.package, n, providers, prefix, old(targets), targets, meets)
      {
        NewTarget(w, r, old(targets), out, targets, n);
      }
      return true;
    }
  }

  /** The target of a package: its version, and for every requirement, in order, a link to the target that the
      caller binds it to, or else to the foreign target of that name. */
  ghost predicate MadeFrom(t: Target, p: Package, providers: map<string, string>, prefix: string) {
    && t.version == p.version && |t.links| == |p.needs|
    && forall i :: 0 <= i < |p.needs| ==>
         t.links[i] == if p.needs[i].name in providers then Bound(providers[p.needs[i].name])
                       else Foreign(prefix + p.needs[i].name, p.needs[i].constraint)
  }

  /** Every requirement is bound by the caller, or met by a target that was there, or met by a new one; a package that
      requires itself is held to that only when it is the one asked for. */
  ghost predicate RequirementsMet(p: Package, asked: bool, n: string, providers: map<string, string>, prefix: string,
                                  before: map<string, Target>, after: map<string, Target>,
                                  meets: (string, string) -> bool)
  {
    forall i :: 0 <= i < |p.needs| && p.needs[i].name !in providers ==>
      RequirementMet(p.needs[i], asked, n, prefix, before, after, meets)
  }

  ghost predicate RequirementMet(d: Dependency, asked: bool, n: string, prefix: string,
                                 before: map<string, Target>, after: map<string, Target>,
                                 meets: (string, string) -> bool)
  {
    && prefix + d.name in after
    && (if prefix + d.name in before then meets(d.constraint, before[prefix + d.name].version)
        else (d.name == n && !asked) || meets(d.constraint, after[prefix + d.name].version))
  }

  /** The target of `m` is of a package that requires `n`. */
  ghost predicate NewRequires(packages: map<string, Package>, prefix: string, after: map<string, Target>,
                              m: string, n: string)
  {
    && prefix + m in after && m in packages
    && exists i :: 0 <= i < |packages[m].needs| && packages[m].needs[i].name == n
  }

  lemma NeededBy(w: World, root: string, n: string) returns (m: string)
    requires Needed(w, root, n) && n != root
    ensures Needed(w, root, m) && m in w.packages
    ensures exists i :: 0 <= i < |w.packages[m].needs| && w.packages[m].needs[i].name == n
  {
    var g := RequiresGraph(w);
    var walk :| Walk(g, walk) && walk[0] == root && walk[|walk| - 1] == n;
    var k := |walk| - 2;
    m := walk[k];
    assert Hop(g, walk, k);
    var d := RequiresEdgeFrom(w, m, n);
    WalkSlice(g, walk, 0, k + 1);
    var v := walk[0..k + 1];
    assert Walk(g, v) && v[0] == root && v[|v| - 1] == m;
  }

  lemma NewTarget(w: World, r: Request, targets: map<string, Target>, out: map<string, Package>,
                  targets': map<string, Target>, n: string)
    requires w.existing == Versions(targets) && Added(w, targets, out, targets') && Importable(w, r)
    requires forall m :: m in out <==> Needed(w, r.package, m)
    requires forall m :: m in out ==> m in w.packages && out[m] == w.packages[m]
    requires w.prefix + n in targets' && w.prefix + n !in targets
    ensures n in w.packages && MadeFrom(targets'[w.prefix + n], w.packages[n], w.providers, w.prefix)
    ensures n != r.package ==>
              n !in w.providers && exists m :: NewRequires(w.packages, w.prefix, targets', m, n)
    ensures RequirementsMet(w.packages[n], n == r.package, n, w.providers, w.prefix, targets, targets', w.meets)
  {
    hide Importable, RootAccepted;
    var m :| m in out && w.prefix + n == w.prefix + m;
    assert (w.prefix + n)[|w.prefix|..] == n && (w.prefix + m)[|w.prefix|..] == m;
    if n != r.package {
      NeededLast(w, r.package, n);
      var parent := NeededBy(w, r.package, n);
      assert NewRequires(w.packages, w.prefix, targets', parent, n);
    }
    var needs := w.packages[n].needs;
    forall i | 0 <= i < |needs| && needs[i].name !in w.providers
      ensures RequirementMet(needs[i], n == r.package, n, w.prefix, targets, targets', w.meets)
    {
      NewRequirement(w, r, targets, out, targets', n, needs[i]);
    }
  }

  lemma NewRequirement(w: World, r: Request, targets: map<string, Target>, out: map<string, Package>,
                       targets': map<string, Target>, n: string, d: Dependency)
    requires w.existing == Versions(targets) && Added(w, targets, out, targets') && Importable(w, r)
    requires forall m :: m in out <==> Needed(w, r.package, m)
    requires forall m :: m in out ==> m in w.packages && out[m] == w.packages[m]
    requires n in out && d in w.packages[n].needs && d.name !in w.providers
    ensures RequirementMet(d, n == r.package, n, w.prefix, targets, targets', w.meets)
  {
    hide Needed, RootAccepted;
    assert Met(w, r.package, n, d);
    if !Existing(w, d.name) {
      NeededNext(w, r.package, n, d);
      assert d.name in out && targets'[w.prefix + d.name] == CreateTarget(w, out[d.name]);
    }
  }

  lemma NeededRoot(w: World, root: string)
    ensures Needed(w, root, root)
  {
    ReachesSelf(RequiresGraph(w), root);
  }

  lemma PrefixedDiffer(prefix: string, n: string, ns: set<string>)
    requires n !in ns
    ensures forall m :: m in ns ==> prefix + m != prefix + n
  {
    forall m | m in ns
      ensures prefix + m != prefix + n
    {
      assert (prefix + m)[|prefix|..] == m && (prefix + n)[|prefix|..] == n;
    }
  }

  lemma AddedOne(w: World, before: map<string, Target>, out: map<string, Package>, todo: set<string>, n: string,
                 targets': map<string, Target>)
    requires n in todo && todo <= out.Keys && w.prefix + n in targets'
    requires Added(w, before, out - todo, targets' - {w.prefix + n})
    requires targets'[w.prefix + n] == CreateTarget(w, out[n]) && w.prefix + n !in before
    requires forall m :: m in out && m !in todo ==> w.prefix + m != w.prefix + n
    ensures Added(w, before, out - (todo - {n}), targets')
  {
    var done := out - (todo - {n});
    assert forall m :: m in done <==> m == n || m in out - todo;
    forall k
      ensures k in targets' <==> k in before || exists m :: m in done && k == w.prefix + m
    {
      if k in targets' && k != w.prefix + n {
        assert k in targets' - {w.prefix + n};
      }
    }
  }
}
