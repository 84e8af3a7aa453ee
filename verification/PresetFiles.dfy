/**
 Reading a presets file with everything it includes: files are read depth-first, each once, the
 set of files reachable from a file being built while its includes are read.
 */
module PresetFiles {
  import opened Wrappers
  import opened Graphs
  import PresetFields

  type FileId = PresetFields.FileId

  datatype Kind = Configure | Build | Test | Package | Workflow

  /** A preset of a file; `accepted` says that its own version checks and immediate macros pass. */
  datatype Declaration = Declaration(kind: Kind, name: string, accepted: bool)

  /** The decoded contents of a file; `valid` covers its syntax and the checks on its root object.
      An include is the path it expands to, or `None` when its macros do not expand. */
  datatype Document = Document(valid: bool, declarations: seq<Declaration>, includes: seq<Option<string>>)

  /** The file system: paths name files, several paths possibly the same one. */
  datatype Disk = Disk(paths: map<string, FileId>, documents: map<FileId, Document>, projectFile: string)

  datatype RootType = AnyRoot | ProjectRoot | UserRoot
  datatype ReadReason = AsRoot | AsIncluded

  predicate SameFile(disk: Disk, a: string, b: string) {
    a in disk.paths && b in disk.paths && disk.paths[a] == disk.paths[b]
  }

  predicate Readable(disk: Disk, path: string) {
    path in disk.paths && disk.paths[path] in disk.documents && disk.documents[disk.paths[path]].valid
  }

  /** The paths a file leads to: its includes and, for the user's root file, the project's file. */
  function Included(disk: Disk, user: Option<FileId>, f: FileId): seq<Option<string>> {
    (if f in disk.documents then disk.documents[f].includes else []) +
    (if user == Some(f) && disk.projectFile in disk.paths then [Some(disk.projectFile)] else [])
  }

  predicate Resolves(disk: Disk, i: Option<string>) {
    i.Some? && i.value in disk.paths
  }

  ghost function IncludeGraph(disk: Disk, user: Option<FileId>): Graph<FileId> {
    map f | f in disk.documents ::
      set i | 0 <= i < |Included(disk, user, f)| && Resolves(disk, Included(disk, user, f)[i]) ::
        disk.paths[Included(disk, user, f)[i].value]
  }

  lemma IncludeEdge(disk: Disk, user: Option<FileId>, f: FileId, i: nat)
    requires f in disk.documents && i < |Included(disk, user, f)| && Resolves(disk, Included(disk, user, f)[i])
    ensures Edge(IncludeGraph(disk, user), f, disk.paths[Included(disk, user, f)[i].value])
  {}

  // What a successful read means --------------------------------------------------------------------

  /** The file and everything it declares and names directly is in order. */
  ghost predicate GoodFile(disk: Disk, user: Option<FileId>, f: FileId) {
    && f in disk.documents && disk.documents[f].valid
    && (forall i :: 0 <= i < |disk.documents[f].declarations| ==> GoodDeclaration(disk.documents[f].declarations[i]))
    && (forall i :: 0 <= i < |Included(disk, user, f)| ==> Resolves(disk, Included(disk, user, f)[i]))
  }

  predicate GoodDeclaration(d: Declaration) {
    d.name != "" && d.accepted
  }

  datatype Key = Key(kind: Kind, name: string)

  function KeyOf(d: Declaration): Key {
    Key(d.kind, d.name)
  }

  /** The same preset is declared at both places. */
  ghost predicate Clash(disk: Disk, f: FileId, i: nat, h: FileId, j: nat) {
    && f in disk.documents && i < |disk.documents[f].declarations|
    && h in disk.documents && j < |disk.documents[h].declarations|
    && KeyOf(disk.documents[f].declarations[i]) == KeyOf(disk.documents[h].declarations[j])
    && !(f == h && i == j)
  }

  ghost predicate From(disk: Disk, user: Option<FileId>, root: FileId, f: FileId) {
    Reaches(IncludeGraph(disk, user), root, f)
  }

  /** Every file reached is good, none leads back to itself, and no preset is declared twice. */
  ghost predicate WellFormed(disk: Disk, user: Option<FileId>, root: FileId) {
    && (forall f :: From(disk, user, root, f) ==> GoodFile(disk, user, f))
    && (forall f, h :: From(disk, user, root, f) && Edge(IncludeGraph(disk, user), f, h) ==>
          !Reaches(IncludeGraph(disk, user), h, f))
    && (forall f, i: nat, h, j: nat :: From(disk, user, root, f) && From(disk, user, root, h) ==>
        !Clash(disk, f, i, h, j))
  }

  // The state of a read -------------------------------------------------------------------------------

  datatype LoadedFile = LoadedFile(filename: string, id: FileId)

  ghost function Ids(files: seq<LoadedFile>): set<FileId> {
    set i | 0 <= i < |files| :: files[i].id
  }

  ghost function Elements(fs: seq<FileId>): set<FileId> {
    set i | 0 <= i < |fs| :: fs[i]
  }

  ghost predicate Declares(disk: Disk, f: FileId, k: Key) {
    f in disk.documents && exists i ::
      0 <= i < |disk.documents[f].declarations| && KeyOf(disk.documents[f].declarations[i]) == k
  }

  /** Files read and the files still being read: every file comes from the root, the files in progress
      lead from one to the next, and a finished file leads to finished files only. */
  ghost predicate Reading(disk: Disk, user: Option<FileId>, root: FileId,
                          files: seq<LoadedFile>, busy: seq<FileId>, reachable: map<FileId, set<FileId>>)
  {
    var g := IncludeGraph(disk, user);
    && (forall i :: 0 <= i < |files| ==>
        files[i].filename in disk.paths && disk.paths[files[i].filename] == files[i].id)
    && (forall f :: f in Ids(files) ==> From(disk, user, root, f) && f in reachable && f in disk.documents)
    && Elements(busy) <= Ids(files)
    && (busy != [] ==> Walk(g, busy))
    && (forall f :: f in Ids(files) && f !in Elements(busy) ==> FileDone(disk, user, f, reachable[f]))
    && (forall f, h :: f in Ids(files) && f !in Elements(busy) && Edge(g, f, h) ==>
        h in Ids(files) && h !in Elements(busy))
  }

  /** A finished file: in order, with its exact set of reachable files, and on no cycle. */
  ghost predicate FileDone(disk: Disk, user: Option<FileId>, f: FileId, reachable: set<FileId>) {
    && GoodFile(disk, user, f)
    && (forall h :: h in reachable <==> Reaches(IncludeGraph(disk, user), f, h))
    && (forall h :: Edge(IncludeGraph(disk, user), f, h) ==> !Reaches(IncludeGraph(disk, user), h, f))
  }

  /** The registered presets are exactly the declarations of the files read, each from its own file. */
  ghost predicate Registered(disk: Disk, files: seq<LoadedFile>, presets: map<Key, FileId>) {
    && (forall k :: k in presets ==> presets[k] in Ids(files) && Declares(disk, presets[k], k))
    && (forall f, k :: f in Ids(files) && Declares(disk, f, k) ==> k in presets && presets[k] == f)
    && (forall f, i: nat, h, j: nat :: f in Ids(files) && h in Ids(files) ==> !Clash(disk, f, i, h, j))
  }

  // The file being read -------------------------------------------------------------------------------

  /** The file that include number `i` of `f` leads to. */
  ghost function Target(disk: Disk, user: Option<FileId>, f: FileId, i: nat): FileId
    requires i < |Included(disk, user, f)| && Resolves(disk, Included(disk, user, f)[i])
  {
    disk.paths[Included(disk, user, f)[i].value]
  }

  /** File `f` is the last one in progress and its first `n` includes have been read. */
  ghost predicate ReadIncludes(disk: Disk, user: Option<FileId>, files: seq<LoadedFile>, busy: seq<FileId>,
                               reachable: map<FileId, set<FileId>>, f: FileId, n: nat)
  {
    && busy != [] && busy[|busy| - 1] == f && f in reachable && f in disk.documents
    && n <= |Included(disk, user, f)|
    && (forall i :: 0 <= i < n ==> Resolves(disk, Included(disk, user, f)[i]))
    && (forall i :: 0 <= i < n ==>
        Target(disk, user, f, i) in Ids(files) && Target(disk, user, f, i) !in Elements(busy))
    && Spans(disk, user, f, n, reachable[f])
  }

  /** The set holds `f` and exactly what its first `n` includes reach. */
  ghost predicate Spans(disk: Disk, user: Option<FileId>, f: FileId, n: nat, s: set<FileId>)
    requires n <= |Included(disk, user, f)|
    requires forall i :: 0 <= i < n ==> Resolves(disk, Included(disk, user, f)[i])
  {
    forall h :: h in s <==> h == f || exists i ::
      0 <= i < n && Reaches(IncludeGraph(disk, user), Target(disk, user, f, i), h)
  }

  lemma SpansNext(disk: Disk, user: Option<FileId>, f: FileId, n: nat, s: set<FileId>, t: set<FileId>)
    requires n < |Included(disk, user, f)|
    requires forall i :: 0 <= i < n + 1 ==> Resolves(disk, Included(disk, user, f)[i])
    requires Spans(disk, user, f, n, s)
    requires forall h :: h in t <==> Reaches(IncludeGraph(disk, user), Target(disk, user, f, n), h)
    ensures Spans(disk, user, f, n + 1, s + t)
  {
    hide Reaches, Target;
    forall h
      ensures h in s + t <==>
        h == f || exists i :: 0 <= i < n + 1 && Reaches(IncludeGraph(disk, user), Target(disk, user, f, i), h)
    {
      if i :| 0 <= i < n && Reaches(IncludeGraph(disk, user), Target(disk, user, f, i), h) {
        assert 0 <= i < n + 1;
      }
    }
  }

  lemma GrowBusy(disk: Disk, user: Option<FileId>, root: FileId, files: seq<LoadedFile>, busy: seq<FileId>,
                 reachable: map<FileId, set<FileId>>, f: FileId, s: set<FileId>)
    requires Reading(disk, user, root, files, busy, reachable) && f in Elements(busy)
    ensures Reading(disk, user, root, files, busy, reachable[f := s])
  {
    hide From, FileDone, IncludeGraph, Walk;
  }

  lemma AddFile(disk: Disk, user: Option<FileId>, root: FileId, files: seq<LoadedFile>, busy: seq<FileId>,
                reachable: map<FileId, set<FileId>>, filename: string)
    requires Reading(disk, user, root, files, busy, reachable) && filename in disk.paths
    requires var f := disk.paths[filename];
             f !in Ids(files) && f in disk.documents && From(disk, user, root, f) &&
             (busy != [] ==> Edge(IncludeGraph(disk, user), busy[|busy| - 1], f))
    ensures var f := disk.paths[filename];
            var files' := files + [LoadedFile(filename, f)];
            && Ids(files') == Ids(files) + {f}
            && Reading(disk, user, root, files', busy + [f], reachable[f := {f}])
            && ReadIncludes(disk, user, files', busy + [f], reachable[f := {f}], f, 0)
  {
    hide From, FileDone;
    var f := disk.paths[filename];
    var files', busy' := files + [LoadedFile(filename, f)], busy + [f];
    assert Ids(files') == Ids(files) + {f} by {
      assert forall i :: 0 <= i < |files| ==> files'[i] == files[i];
      assert files'[|files|].id == f;
    }
    assert Elements(busy') == Elements(busy) + {f} by {
      assert forall i :: 0 <= i < |busy| ==> busy'[i] == busy[i];
      assert busy'[|busy|] == f;
    }
    if busy != [] {
      WalkAppend(IncludeGraph(disk, user), busy, f);
    }
  }

  /** One include has been read; what it reaches is added. */
  lemma AddReachable(disk: Disk, user: Option<FileId>, root: FileId, files: seq<LoadedFile>, busy: seq<FileId>,
                     reachable: map<FileId, set<FileId>>, f: FileId, n: nat,
                     files': seq<LoadedFile>, reachable': map<FileId, set<FileId>>)
    requires ReadIncludes(disk, user, files, busy, reachable, f, n)
    requires n < |Included(disk, user, f)| && Resolves(disk, Included(disk, user, f)[n])
    requires Reading(disk, user, root, files', busy, reachable') && Ids(files) <= Ids(files')
    requires reachable'[f] == reachable[f]
    requires Target(disk, user, f, n) in Ids(files') && Target(disk, user, f, n) !in Elements(busy)
    ensures var t := Target(disk, user, f, n);
            && t in reachable'
            && Reading(disk, user, root, files', busy, reachable'[f := reachable'[f] + reachable'[t]])
            && ReadIncludes(disk, user, files', busy, reachable'[f := reachable'[f] + reachable'[t]], f, n + 1)
  {
    hide From, IncludeGraph;
    var t := Target(disk, user, f, n);
    assert FileDone(disk, user, t, reachable'[t]);
    assert busy[|busy| - 1] in Elements(busy);
    SpansNext(disk, user, f, n, reachable[f], reachable'[t]);
    GrowBusy(disk, user, root, files', busy, reachable', f, reachable'[f] + reachable'[t]);
  }

  /** All includes have been read: the file is finished. */
  lemma FinishFile(disk: Disk, user: Option<FileId>, root: FileId, files: seq<LoadedFile>, busy: seq<FileId>,
                   reachable: map<FileId, set<FileId>>, f: FileId)
    requires Reading(disk, user, root, files, busy + [f], reachable) && f !in Elements(busy)
    requires ReadIncludes(disk, user, files, busy + [f], reachable, f, |Included(disk, user, f)|)
    requires GoodFile(disk, user, f)
    ensures Reading(disk, user, root, files, busy, reachable) && f in Ids(files)
  {
    var g := IncludeGraph(disk, user);
    var busy' := busy + [f];
    assert Elements(busy') == Elements(busy) + {f} by {
      assert forall i :: 0 <= i < |busy| ==> busy'[i] == busy[i];
      assert busy'[|busy|] == f;
    }
    var done := Ids(files) - Elements(busy');
    forall h | Edge(g, f, h)
      ensures h in done && !Reaches(g, h, f)
    {
      var i :| 0 <= i < |Included(disk, user, f)| && Resolves(disk, Included(disk, user, f)[i]) &&
        h == Target(disk, user, f, i);
      if Reaches(g, h, f) {
        ReachesStays(g, done, h, f);
      }
    }
    forall h
      ensures h in reachable[f] <==> Reaches(g, f, h)
    {
      if h == f {
        ReachesSelf(g, f);
      } else if Reaches(g, f, h) {
        var m := ReachesFirst(g, f, h);
        var i :| 0 <= i < |Included(disk, user, f)| && Resolves(disk, Included(disk, user, f)[i]) &&
          m == Target(disk, user, f, i);
      } else if h in reachable[f] {
        var i :| 0 <= i < |Included(disk, user, f)| && Reaches(g, Target(disk, user, f, i), h);
        IncludeEdge(disk, user, f, i);
        ReachesStep(g, f, Target(disk, user, f, i), h);
      }
    }
    assert FileDone(disk, user, f, reachable[f]);
    if busy != [] {
      WalkSlice(g, busy', 0, |busy|);
      assert busy'[0..|busy|] == busy;
    }
  }

  // Faults ------------------------------------------------------------------------------------------------

  lemma FromEdge(disk: Disk, user: Option<FileId>, root: FileId, f: FileId, h: FileId)
    requires From(disk, user, root, f) && Edge(IncludeGraph(disk, user), f, h)
    ensures From(disk, user, root, h)
  {
    ReachesSelf(IncludeGraph(disk, user), h);
    ReachesStep(IncludeGraph(disk, user), f, h, h);
    ReachesTransitive(IncludeGraph(disk, user), root, f, h);
  }

  /** Meeting a file in progress again is a cycle. */
  lemma MetAgain(disk: Disk, user: Option<FileId>, root: FileId, files: seq<LoadedFile>, busy: seq<FileId>,
                 reachable: map<FileId, set<FileId>>, f: FileId)
    requires Reading(disk, user, root, files, busy, reachable) && f in Elements(busy)
    requires Edge(IncludeGraph(disk, user), busy[|busy| - 1], f)
    ensures !WellFormed(disk, user, root)
  {
    hide WellFormed, FileDone, IncludeGraph, From;
    var g, last := IncludeGraph(disk, user), busy[|busy| - 1];
    var i :| 0 <= i < |busy| && busy[i] == f;
    WalkSlice(g, busy, i, |busy|);
    var w := busy[i..|busy|];
    assert Walk(g, w) && w[0] == f && w[|w| - 1] == last;
    assert last in Elements(busy);
    ReturnIsFault(disk, user, root, last, f);
  }

  lemma ReturnIsFault(disk: Disk, user: Option<FileId>, root: FileId, f: FileId, h: FileId)
    requires From(disk, user, root, f) && Edge(IncludeGraph(disk, user), f, h) &&
             Reaches(IncludeGraph(disk, user), h, f)
    ensures !WellFormed(disk, user, root)
  {
    hide From, Clash, GoodFile;
  }

  // Registering presets ---------------------------------------------------------------------------------------

  function Keys(ds: seq<Declaration>): seq<Key> {
    seq(|ds|, i requires 0 <= i < |ds| => KeyOf(ds[i]))
  }

  /** The keys of all presets, file by file in the order of reading. */
  ghost function KeysIn(disk: Disk, files: seq<LoadedFile>): seq<Key> {
    if files == [] then []
    else
      var last := files[|files| - 1].id;
      KeysIn(disk, files[..|files| - 1]) +
      (if last in disk.documents then Keys(disk.documents[last].declarations) else [])
  }

  ghost predicate Distinct(ks: seq<Key>) {
    forall i, j :: 0 <= i < j < |ks| ==> ks[i] != ks[j]
  }

  /** Nothing stands against registering these declarations beside `presets`. */
  ghost predicate Registrable(presets: map<Key, FileId>, ds: seq<Declaration>) {
    && (forall i :: 0 <= i < |ds| ==> GoodDeclaration(ds[i]) && KeyOf(ds[i]) !in presets)
    && Distinct(Keys(ds))
  }

  ghost predicate AddedTo(presets: map<Key, FileId>, f: FileId, ks: seq<Key>, presets': map<Key, FileId>) {
    && (forall k :: k in presets' <==> k in presets || k in ks)
    && (forall k :: k in presets' ==> presets'[k] == if k in ks then f else presets[k])
  }

  lemma RegisterFile(disk: Disk, user: Option<FileId>, root: FileId, files: seq<LoadedFile>, presets: map<Key, FileId>,
                     file: LoadedFile, presets': map<Key, FileId>)
    requires Registered(disk, files, presets) && file.id in disk.documents && file.id !in Ids(files)
    requires Registrable(presets, disk.documents[file.id].declarations)
    requires AddedTo(presets, file.id, Keys(disk.documents[file.id].declarations), presets')
    requires Ids(files + [file]) == Ids(files) + {file.id}
    ensures Registered(disk, files + [file], presets')
  {
    var f, ds := file.id, disk.documents[file.id].declarations;
    var files' := files + [file];
    forall k
      ensures k in Keys(ds) <==> Declares(disk, f, k)
    {
      if k in Keys(ds) {
        var i :| 0 <= i < |ds| && Keys(ds)[i] == k;
      }
      if Declares(disk, f, k) {
        var i :| 0 <= i < |ds| && KeyOf(ds[i]) == k;
        assert Keys(ds)[i] == k;
      }
    }
    forall g, i: nat, h, j: nat | g in Ids(files') && h in Ids(files')
      ensures !Clash(disk, g, i, h, j)
    {
      NoClash(disk, files, presets, f, g, i, h, j);
    }
  }

  lemma NoClash(disk: Disk, files: seq<LoadedFile>, presets: map<Key, FileId>, f: FileId, g: FileId, i: nat,
                h: FileId, j: nat)
    requires Registered(disk, files, presets) && f in disk.documents && f !in Ids(files)
    requires Registrable(presets, disk.documents[f].declarations)
    requires g in Ids(files) + {f} && h in Ids(files) + {f}
    ensures !Clash(disk, g, i, h, j)
  {
    var ks := Keys(disk.documents[f].declarations);
    assert forall a, b :: 0 <= a < |ks| && 0 <= b < |ks| && ks[a] == ks[b] ==> a == b;
    if g in disk.documents && i < |disk.documents[g].declarations| {
      assert Declares(disk, g, KeyOf(disk.documents[g].declarations[i]));
      assert g == f ==> ks[i] == KeyOf(disk.documents[g].declarations[i]);
    }
    if h in disk.documents && j < |disk.documents[h].declarations| {
      assert Declares(disk, h, KeyOf(disk.documents[h].declarations[j]));
      assert h == f ==> ks[j] == KeyOf(disk.documents[h].declarations[j]);
    }
  }

  lemma NotRegistrable(disk: Disk, user: Option<FileId>, root: FileId, files: seq<LoadedFile>, presets: map<Key,
                       FileId>, f: FileId)
    requires Registered(disk, files, presets) && f !in Ids(files) && f in disk.documents && From(disk, user, root, f)
    requires forall h :: h in Ids(files) ==> From(disk, user, root, h)
    requires !Registrable(presets, disk.documents[f].declarations)
    ensures !WellFormed(disk, user, root)
  {
    hide From;
    var ds := disk.documents[f].declarations;
    if i :| 0 <= i < |ds| && !GoodDeclaration(ds[i]) {
      assert !GoodFile(disk, user, f);
    } else if i :| 0 <= i < |ds| && KeyOf(ds[i]) in presets {
      var h := presets[KeyOf(ds[i])];
      var j :| 0 <= j < |disk.documents[h].declarations| && KeyOf(disk.documents[h].declarations[j]) == KeyOf(ds[i]);
      assert Clash(disk, f, i, h, j);
    } else {
      var i, j :| 0 <= i < j < |Keys(ds)| && Keys(ds)[i] == Keys(ds)[j];
      assert Clash(disk, f, i, f, j);
    }
  }

  lemma KeysInNext(disk: Disk, files: seq<LoadedFile>, file: LoadedFile)
    requires file.id in disk.documents
    ensures KeysIn(disk, files + [file]) == KeysIn(disk, files) + Keys(disk.documents[file.id].declarations)
  {
    assert (files + [file])[..|files|] == files;
  }

  /** The presets of a file stand one after the other, behind those of the files before it. */
  lemma {:induction false} KeysAt(disk: Disk, files: seq<LoadedFile>, n: nat, i: nat)
    requires n < |files| && forall m :: 0 <= m < |files| ==> files[m].id in disk.documents
    requires i < |disk.documents[files[n].id].declarations|
    ensures var d, k := disk.documents[files[n].id].declarations[i], |KeysIn(disk, files[..n])| + i;
            k < |KeysIn(disk, files)| && KeysIn(disk, files)[k] == Key(d.kind, d.name)
  {
    hide Keys;
    var last := |files| - 1;
    var ds := disk.documents[files[n].id].declarations;
    if n < last {
      assert files[..last][..n] == files[..n];
      KeysAt(disk, files[..last], n, i);
    } else {
      KeyAt(ds, i);
    }
  }

  lemma KeyAt(ds: seq<Declaration>, i: nat)
    requires i < |ds|
    ensures |Keys(ds)| == |ds| && Keys(ds)[i] == Key(ds[i].kind, ds[i].name)
  {}

  // The reader ------------------------------------------------------------------------------------------------

  ghost predicate Sound(disk: Disk, user: Option<FileId>, root: FileId, files: seq<LoadedFile>, busy: seq<FileId>,
                        reachable: map<FileId, set<FileId>>, presets: map<Key, FileId>, order: seq<Key>)
  {
    && Reading(disk, user, root, files, busy, reachable)
    && Registered(disk, files, presets)
    && order == KeysIn(disk, files)
  }

  ghost predicate KeepsBusy(busy: seq<FileId>, reachable: map<FileId, set<FileId>>,
                            reachable': map<FileId, set<FileId>>)
  {
    forall b :: b in Elements(busy) ==> b in reachable && b in reachable' && reachable'[b] == reachable[b]
  }

  ghost function RootOf(disk: Disk, filename: string): FileId {
    if filename in disk.paths then disk.paths[filename] else 0
  }

  ghost function UserOf(disk: Disk, filename: string, rootType: RootType): Option<FileId> {
    if rootType == UserRoot then Some(RootOf(disk, filename)) else None
  }

  /** The set holds exactly the files reached from `f`. */
  ghost predicate IsClosure(disk: Disk, user: Option<FileId>, f: FileId, s: set<FileId>) {
    forall h :: h in s <==> From(disk, user, f, h)
  }

  /** What a finished read leaves behind. */
  ghost predicate AllRead(disk: Disk, user: Option<FileId>, root: FileId, files: seq<LoadedFile>,
                          reachable: map<FileId, set<FileId>>, presets: map<Key, FileId>, order: seq<Key>)
  {
    && (forall f :: f in Ids(files) <==> From(disk, user, root, f))
    && (forall f :: f in Ids(files) ==> f in reachable && IsClosure(disk, user, f, reachable[f]))
    && (forall f, k :: f in Ids(files) ==> (Declares(disk, f, k) <==> k in presets && presets[k] == f))
    && order == KeysIn(disk, files)
  }

  lemma ReadIsWellFormed(disk: Disk, user: Option<FileId>, root: FileId, files: seq<LoadedFile>,
                         reachable: map<FileId, set<FileId>>, presets: map<Key, FileId>, order: seq<Key>)
    requires Sound(disk, user, root, files, [], reachable, presets, order) && root in Ids(files)
    ensures WellFormed(disk, user, root) && AllRead(disk, user, root, files, reachable, presets, order)
  {
    hide IncludeGraph, Reaches;
    assert Elements([]) == {};
    forall f | From(disk, user, root, f)
      ensures f in Ids(files)
    {
      ReachesStays(IncludeGraph(disk, user), Ids(files), root, f);
    }
    assert forall f :: f in Ids(files) ==> FileDone(disk, user, f, reachable[f]);
  }

  // What was read, in terms of the documents -----------------------------------------------------------------

  /** The document of `f` includes a path of `h`. */
  ghost predicate Includes(disk: Disk, f: FileId, h: FileId) {
    f in disk.documents && exists i :: 0 <= i < |disk.documents[f].includes| && IncludesAt(disk, f, i, h)
  }

  ghost predicate IncludesAt(disk: Disk, f: FileId, i: nat, h: FileId)
    requires f in disk.documents && i < |disk.documents[f].includes|
  {
    var p := disk.documents[f].includes[i]; p.Some? && p.value in disk.paths && disk.paths[p.value] == h
  }

  /** The user's root file leads to the project's file besides. */
  ghost predicate LeadsTo(disk: Disk, userRoot: bool, root: FileId, f: FileId, h: FileId) {
    Includes(disk, f, h) ||
    (userRoot && f == root && disk.projectFile in disk.paths && disk.paths[disk.projectFile] == h)
  }

  /** The document is valid, its presets are named and pass their checks, and its includes lead somewhere. */
  ghost predicate InOrder(disk: Disk, f: FileId) {
    && f in disk.documents && disk.documents[f].valid
    && (forall i :: 0 <= i < |disk.documents[f].declarations| ==>
          disk.documents[f].declarations[i].name != "" && disk.documents[f].declarations[i].accepted)
    && (forall i :: 0 <= i < |disk.documents[f].includes| ==>
          disk.documents[f].includes[i].Some? && disk.documents[f].includes[i].value in disk.paths)
  }

  /** Two places do not declare presets of the same kind and name. */
  ghost predicate NoSecond(disk: Disk, f: FileId, i: nat, h: FileId, j: nat)
    requires f in disk.documents && i < |disk.documents[f].declarations|
    requires h in disk.documents && j < |disk.documents[h].declarations|
  {
    var a, b := disk.documents[f].declarations[i], disk.documents[h].declarations[j];
    a.kind == b.kind && a.name == b.name ==> f == h && i == j
  }

  /** The files that were read: all in order, those that a file leads to are read and reached by it and do not reach
      it, nothing else is read or reached, and no preset is declared twice. */
  ghost predicate FilesRead(disk: Disk, userRoot: bool, root: FileId, read: set<FileId>, reachable: map<FileId,
                            set<FileId>>) {
    && root in read
    && (forall f :: f in read ==> InOrder(disk, f) && f in reachable && f in reachable[f])
    && (forall f, h :: f in read && LeadsTo(disk, userRoot, root, f, h) ==>
          h in read && reachable[h] <= reachable[f] && f !in reachable[h])
    && (forall f :: f in read && f != root ==> exists g :: g in read && LeadsTo(disk, userRoot, root, g, f))
    && (forall f, h :: f in read && h in reachable[f] && h != f ==>
          exists g :: LeadsTo(disk, userRoot, root, f, g) && g in reachable && h in reachable[g])
    && (forall f, i: nat, h, j: nat ::
          (f in read && h in read && i < |disk.documents[f].declarations| && j < |disk.documents[h].declarations|) ==>
            NoSecond(disk, f, i, h, j))
  }

  /** There are files that could have been read so. */
  ghost predicate FilesFit(disk: Disk, userRoot: bool, root: FileId) {
    exists read, reachable :: FilesRead(disk, userRoot, root, read, reachable)
  }

  lemma EdgeIff(disk: Disk, user: Option<FileId>, root: FileId, f: FileId, h: FileId)
    requires user.Some? ==> user.value == root
    ensures Edge(IncludeGraph(disk, user), f, h) <==> f in disk.documents && LeadsTo(disk, user.Some?, root, f, h)
  {
    if f in disk.documents {
      var ds, ins := disk.documents[f].includes, Included(disk, user, f);
      assert forall i :: 0 <= i < |ds| ==> ins[i] == ds[i];
      if Edge(IncludeGraph(disk, user), f, h) {
        var i :| 0 <= i < |ins| && Resolves(disk, ins[i]) && disk.paths[ins[i].value] == h;
        if i < |ds| {
          assert IncludesAt(disk, f, i, h);
        }
      }
      if i: nat :| i < |ds| && IncludesAt(disk, f, i, h) {
        IncludeEdge(disk, user, f, i);
      }
      if user == Some(f) && disk.projectFile in disk.paths {
        assert ins[|ds|] == Some(disk.projectFile);
        IncludeEdge(disk, user, f, |ds|);
      }
    }
  }

  lemma FileInOrder(disk: Disk, user: Option<FileId>, f: FileId)
    requires GoodFile(disk, user, f)
    ensures InOrder(disk, f)
  {
    var ds, ins := disk.documents[f].includes, Included(disk, user, f);
    forall i | 0 <= i < |ds| ensures ds[i].Some? && ds[i].value in disk.paths {
      assert ins[i] == ds[i] && Resolves(disk, ins[i]);
    }
    assert forall i :: 0 <= i < |disk.documents[f].declarations| ==> GoodDeclaration(disk.documents[f].declarations[i]);
  }

  lemma NextRead(disk: Disk, user: Option<FileId>, root: FileId, read: set<FileId>, reachable: map<FileId, set<FileId>>,
                 f: FileId, h: FileId)
    requires Exact(disk, user, root, read, reachable) && f in read && Edge(IncludeGraph(disk, user), f, h)
    ensures h in read && reachable[h] <= reachable[f] && f !in reachable[h]
  {
    hide IncludeGraph, GoodFile, Clash;
    var g := IncludeGraph(disk, user);
    FromEdge(disk, user, root, f, h);
    forall x | x in reachable[h] ensures x in reachable[f] {
      ReachesStep(g, f, h, x);
    }
  }

  /** What a finished read leaves behind, as far as the files are concerned. */
  ghost predicate Exact(disk: Disk, user: Option<FileId>, root: FileId, read: set<FileId>,
                        reachable: map<FileId, set<FileId>>)
  {
    && WellFormed(disk, user, root)
    && (forall f :: f in read <==> From(disk, user, root, f))
    && (forall f :: f in read ==> f in reachable && IsClosure(disk, user, f, reachable[f]))
  }

  lemma ReachedBy(disk: Disk, user: Option<FileId>, root: FileId, read: set<FileId>, reachable: map<FileId,
                  set<FileId>>,
                  f: FileId, h: FileId)
    requires Exact(disk, user, root, read, reachable) && (user.Some? ==> user.value == root)
    requires f in read && h in reachable[f] && h != f
    ensures exists x :: LeadsTo(disk, user.Some?, root, f, x) && x in reachable && h in reachable[x]
  {
    hide IncludeGraph, GoodFile, Clash, LeadsTo;
    var g := IncludeGraph(disk, user);
    var x := ReachesFirst(g, f, h);
    EdgeIff(disk, user, root, f, x);
    FromEdge(disk, user, root, f, x);
    assert x in read;
  }

  lemma LastRead(disk: Disk, user: Option<FileId>, root: FileId, read: set<FileId>, reachable: map<FileId, set<FileId>>,
                 f: FileId)
    requires Exact(disk, user, root, read, reachable) && (user.Some? ==> user.value == root)
    requires f in read && f != root
    ensures exists x :: x in read && LeadsTo(disk, user.Some?, root, x, f)
  {
    hide IncludeGraph, GoodFile, Clash, LeadsTo;
    var g := IncludeGraph(disk, user);
    var w :| Walk(g, w) && w[0] == root && w[|w| - 1] == f;
    var n := |w| - 2;
    WalkSlice(g, w, 0, n + 1);
    var v := w[0..n + 1];
    assert Walk(g, v) && v[0] == root && v[|v| - 1] == w[n];
    assert From(disk, user, root, w[n]);
    assert Hop(g, w, n);
    EdgeIff(disk, user, root, w[n], f);
  }

  lemma ReadInTerms(disk: Disk, user: Option<FileId>, root: FileId, read: set<FileId>, reachable: map<FileId,
                    set<FileId>>)
    requires Exact(disk, user, root, read, reachable) && (user.Some? ==> user.value == root)
    ensures FilesRead(disk, user.Some?, root, read, reachable)
  {
    hide IncludeGraph, LeadsTo, Reaches, InOrder, GoodFile;
    ReachesSelf(IncludeGraph(disk, user), root);
    forall f | f in read ensures InOrder(disk, f) && f in reachable[f] && f in disk.documents {
      assert GoodFile(disk, user, f);
      FileInOrder(disk, user, f);
      GoodFileIsThere(disk, user, f);
      ReachesSelf(IncludeGraph(disk, user), f);
    }
    forall f, h | f in read && LeadsTo(disk, user.Some?, root, f, h)
      ensures h in read && reachable[h] <= reachable[f] && f !in reachable[h]
    {
      EdgeIff(disk, user, root, f, h);
      NextRead(disk, user, root, read, reachable, f, h);
    }
    forall f | f in read && f != root ensures exists x :: x in read && LeadsTo(disk, user.Some?, root, x, f) {
      LastRead(disk, user, root, read, reachable, f);
    }
    forall f, h | f in read && h in reachable[f] && h != f
      ensures exists x :: LeadsTo(disk, user.Some?, root, f, x) && x in reachable && h in reachable[x]
    {
      ReachedBy(disk, user, root, read, reachable, f, h);
    }
    forall f, i: nat, h, j: nat | f in read && h in read &&
        i < |disk.documents[f].declarations| && j < |disk.documents[h].declarations|
      ensures NoSecond(disk, f, i, h, j)
    {
      assert !Clash(disk, f, i, h, j);
    }
  }

  lemma GoodFileIsThere(disk: Disk, user: Option<FileId>, f: FileId)
    requires GoodFile(disk, user, f)
    ensures f in disk.documents
  {}

  lemma {:induction false} WalkIsReached(disk: Disk, user: Option<FileId>, root: FileId, read: set<FileId>,
                                         reachable: map<FileId, set<FileId>>, w: seq<FileId>)
    requires FilesRead(disk, user.Some?, root, read, reachable) && (user.Some? ==> user.value == root)
    requires Walk(IncludeGraph(disk, user), w) && w[0] in read
    ensures w[|w| - 1] in read && reachable[w[|w| - 1]] <= reachable[w[0]]
    decreases |w|
  {
    hide IncludeGraph, FilesRead;
    ReadAreReachable(disk, user.Some?, root, read, reachable);
    if |w| > 1 {
      var g := IncludeGraph(disk, user);
      assert Hop(g, w, 0);
      StepIsReached(disk, user, root, read, reachable, w[0], w[1]);
      WalkSlice(g, w, 1, |w|);
      WalkIsReached(disk, user, root, read, reachable, w[1..|w|]);
    }
  }

  lemma ReadAreReachable(disk: Disk, userRoot: bool, root: FileId, read: set<FileId>, reachable: map<FileId,
                         set<FileId>>)
    requires FilesRead(disk, userRoot, root, read, reachable)
    ensures forall f :: f in read ==> f in reachable
  {
    hide LeadsTo, InOrder, NoSecond;
  }

  lemma StepIsReached(disk: Disk, user: Option<FileId>, root: FileId, read: set<FileId>,
                      reachable: map<FileId, set<FileId>>, f: FileId, h: FileId)
    requires FilesRead(disk, user.Some?, root, read, reachable) && (user.Some? ==> user.value == root)
    requires f in read && Edge(IncludeGraph(disk, user), f, h)
    ensures h in read && f in reachable && h in reachable && reachable[h] <= reachable[f]
  {
    hide IncludeGraph, LeadsTo, InOrder, NoSecond;
    EdgeIff(disk, user, root, f, h);
  }

  lemma InOrderIsGood(disk: Disk, user: Option<FileId>, f: FileId)
    requires InOrder(disk, f)
    ensures GoodFile(disk, user, f)
  {
    var ds, ins := disk.documents[f].includes, Included(disk, user, f);
    forall i | 0 <= i < |ins| ensures Resolves(disk, ins[i]) {
      if i < |ds| {
        assert ins[i] == ds[i];
      }
    }
  }

  /** Files that fit together as a finished read leaves them are reason enough for a read to succeed. */
  lemma FittingFilesSuffice(disk: Disk, user: Option<FileId>, root: FileId, read: set<FileId>,
                            reachable: map<FileId, set<FileId>>)
    requires FilesRead(disk, user.Some?, root, read, reachable) && (user.Some? ==> user.value == root)
    ensures WellFormed(disk, user, root)
  {
    hide IncludeGraph, LeadsTo, InOrder, GoodFile, NoSecond;
    var g := IncludeGraph(disk, user);
    forall f | From(disk, user, root, f) ensures f in read && GoodFile(disk, user, f) && f in disk.documents {
      var w :| Walk(g, w) && w[0] == root && w[|w| - 1] == f;
      WalkIsReached(disk, user, root, read, reachable, w);
      InOrderIsGood(disk, user, f);
      GoodFileIsThere(disk, user, f);
    }
    forall f, h | From(disk, user, root, f) && Edge(g, f, h) ensures !Reaches(g, h, f) {
      EdgeIff(disk, user, root, f, h);
      if Reaches(g, h, f) {
        var w :| Walk(g, w) && w[0] == h && w[|w| - 1] == f;
        WalkIsReached(disk, user, root, read, reachable, w);
      }
    }
    forall f, i: nat, h, j: nat | From(disk, user, root, f) && From(disk, user, root, h)
      ensures !Clash(disk, f, i, h, j)
    {
      if Clash(disk, f, i, h, j) {
        SecondIsClash(disk, f, i, h, j);
      }
    }
  }

  lemma SecondIsClash(disk: Disk, f: FileId, i: nat, h: FileId, j: nat)
    requires Clash(disk, f, i, h, j)
    ensures f in disk.documents && i < |disk.documents[f].declarations|
    ensures h in disk.documents && j < |disk.documents[h].declarations|
    ensures !NoSecond(disk, f, i, h, j)
  {}

  lemma ReadIsExact(disk: Disk, user: Option<FileId>, root: FileId, files: seq<LoadedFile>,
                    reachable: map<FileId, set<FileId>>, presets: map<Key, FileId>, order: seq<Key>)
    requires WellFormed(disk, user, root) && AllRead(disk, user, root, files, reachable, presets, order)
    ensures Exact(disk, user, root, Ids(files), reachable)
  {
    hide WellFormed, From, Declares, KeysIn;
  }

  lemma ProjectRead(disk: Disk, root: FileId, read: set<FileId>, reachable: map<FileId, set<FileId>>)
    requires FilesRead(disk, true, root, read, reachable) && disk.projectFile in disk.paths
    ensures disk.paths[disk.projectFile] in read
    ensures root in reachable && disk.paths[disk.projectFile] in reachable[root]
  {
    assert LeadsTo(disk, true, root, root, disk.paths[disk.projectFile]);
  }

  ghost predicate DeclaredAt(disk: Disk, f: FileId, i: nat, k: Key) {
    && f in disk.documents && i < |disk.documents[f].declarations|
    && disk.documents[f].declarations[i].kind == k.kind && disk.documents[f].declarations[i].name == k.name
  }

  lemma PresetsRead(disk: Disk, user: Option<FileId>, root: FileId, files: seq<LoadedFile>,
                    reachable: map<FileId, set<FileId>>, presets: map<Key, FileId>, order: seq<Key>)
    requires Sound(disk, user, root, files, [], reachable, presets, order)
    ensures forall k :: k in presets <==> exists f, i: nat :: f in Ids(files) && DeclaredAt(disk, f, i, k)
    ensures forall f, i: nat, k :: f in Ids(files) && DeclaredAt(disk, f, i, k) ==> k in presets && presets[k] == f
  {
    hide Reading, Clash, KeysIn, Ids;
    forall f, i: nat, k | f in Ids(files) && DeclaredAt(disk, f, i, k) ensures k in presets && presets[k] == f {
      assert KeyOf(disk.documents[f].declarations[i]) == k;
      assert Declares(disk, f, k);
    }
    forall k | k in presets ensures exists f, i: nat :: f in Ids(files) && DeclaredAt(disk, f, i, k) {
      var f := presets[k];
      assert Declares(disk, f, k);
      var i: nat :| i < |disk.documents[f].declarations| && KeyOf(disk.documents[f].declarations[i]) == k;
      assert DeclaredAt(disk, f, i, k);
    }
  }

  class Reader {
    const disk: Disk
    var files: seq<LoadedFile>
    var inProgress: seq<FileId>
    var reachable: map<FileId, set<FileId>>
    var presets: map<Key, FileId>
    var order: seq<Key>

    constructor (disk: Disk)
      ensures this.disk == disk && files == [] && inProgress == [] && reachable == map[]
      ensures presets == map[] && order == []
    {
      this.disk := disk;
      files, inProgress, reachable, presets, order := [], [], map[], map[], [];
    }

    method FindLoaded(filename: string) returns (found: Option<FileId>)
      requires forall i :: 0 <= i < |files| ==>
               files[i].filename in disk.paths && disk.paths[files[i].filename] == files[i].id
      ensures found.Some? <==> filename in disk.paths && disk.paths[filename] in Ids(files)
      ensures found.Some? ==> found.value == disk.paths[filename]
    {
      for i := 0 to |files|
        invariant filename in disk.paths ==> forall j :: 0 <= j < i ==> files[j].id != disk.paths[filename]
      {
        if SameFile(disk, filename, files[i].filename) {
          return Some(files[i].id);
        }
      }
      return None;
    }

    method RegisterPresets(f: FileId, ds: seq<Declaration>) returns (ok: bool)
      modifies this`presets, this`order
      ensures ok <==> Registrable(old(presets), ds)
      ensures ok ==> AddedTo(old(presets), f, Keys(ds), presets) && order == old(order) + Keys(ds)
    {
      for i := 0 to |ds|
        invariant Registrable(old(presets), ds[..i])
        invariant AddedTo(old(presets), f, Keys(ds[..i]), presets)
        invariant order == old(order) + Keys(ds[..i])
      {
        assert Keys(ds[..i + 1]) == Keys(ds[..i]) + [KeyOf(ds[i])];
        if ds[i].name == "" || !ds[i].accepted {
          return false;
        }
        if KeyOf(ds[i]) in presets {
          Duplicate(old(presets), ds, i);
          return false;
        }
        RegistrableNext(old(presets), ds, i);
        presets := presets[KeyOf(ds[i]) := f];
        order := order + [KeyOf(ds[i])];
      }
      assert ds[..|ds|] == ds;
      return true;
    }

    /** The state of the reader, with `f` the file in progress whose first `n` includes have been read. */
    ghost predicate InFile(user: Option<FileId>, root: FileId, f: FileId, n: nat)
      reads this
    {
      && Sound(disk, user, root, files, inProgress, reachable, presets, order)
      && ReadIncludes(disk, user, files, inProgress, reachable, f, n)
      && root in Ids(files) && (user.Some? ==> user.value == root)
      && From(disk, user, root, f) && f !in Elements(inProgress[..|inProgress| - 1])
    }

    /** Where the next file is named: as the root of everything, or by the file in progress. */
    ghost predicate Named(user: Option<FileId>, root: FileId, filename: string, userRoot: bool)
      reads this
    {
      && Sound(disk, user, root, files, inProgress, reachable, presets, order)
      && (user.Some? ==> user.value == root)
      && if inProgress == [] then
           files == [] && (filename in disk.paths ==> disk.paths[filename] == root) && (userRoot <==>
             user == Some(root))
         else
           root in Ids(files) && !userRoot &&
           (filename in disk.paths ==> Edge(IncludeGraph(disk, user), inProgress[|inProgress| - 1],
               disk.paths[filename]))
    }

    /** Starts a file that has not been read: lists it, marks it in progress and registers its presets. */
    method OpenFile(ghost user: Option<FileId>, ghost root: FileId, filename: string, ghost userRoot: bool)
      returns (ok: bool)
      requires Named(user, root, filename, userRoot)
      requires Readable(disk, filename) && disk.paths[filename] !in Ids(files)
      modifies this
      ensures ok ==> InFile(user, root, disk.paths[filename], 0)
      ensures ok ==> inProgress == old(inProgress) + [disk.paths[filename]]
      ensures ok ==> reachable == old(reachable)[disk.paths[filename] := {disk.paths[filename]}]
      ensures ok ==> Ids(files) == Ids(old(files)) + {disk.paths[filename]}
      ensures ok ==> userRoot == (user == Some(disk.paths[filename]))
      ensures ok ==> forall i :: 0 <= i < |disk.documents[disk.paths[filename]].declarations| ==>
                       GoodDeclaration(disk.documents[disk.paths[filename]].declarations[i])
      ensures !ok ==> !WellFormed(disk, user, root)
    {
      hide WellFormed, Registered, IncludeGraph, Reading, ReadIncludes, From, AddedTo, Registrable, Keys, KeysIn, Ids;
      var f := disk.paths[filename];
      NamedFacts(disk, user, root, files, inProgress, reachable, presets, order);
      NamedFrom(disk, user, root, files, inProgress, reachable, f);
      AddFile(disk, user, root, files, inProgress, reachable, filename);
      KeysInNext(disk, files, LoadedFile(filename, f));
      files := files + [LoadedFile(filename, f)];
      inProgress := inProgress + [f];
      reachable := reachable[f := {f}];
      ok := RegisterPresets(f, disk.documents[f].declarations);
      if ok {
        RegisterFile(disk, user, root, old(files), old(presets), LoadedFile(filename, f), presets);
        RegistrableGood(old(presets), disk.documents[f].declarations);
        assert inProgress[..|inProgress| - 1] == old(inProgress);
      } else {
        NotRegistrable(disk, user, root, old(files), old(presets), f);
      }
    }

    /** Reads include number `n` of `f` and adds what it reaches to what `f` reaches. */
    method IncludeFile(ghost user: Option<FileId>, ghost root: FileId, f: FileId, ghost n: nat,
                       path: string, rootType: RootType, reason: ReadReason) returns (ok: bool)
      requires InFile(user, root, f, n) && !(rootType == UserRoot && reason == AsRoot)
      requires n < |Included(disk, user, f)| && Included(disk, user, f)[n] == Some(path)
      modifies this
      ensures ok ==> InFile(user, root, f, n + 1) && inProgress == old(inProgress)
      ensures ok ==> KeepsBusy(inProgress[..|inProgress| - 1], old(reachable), reachable)
      ensures ok ==> Ids(old(files)) <= Ids(files)
      ensures !ok ==> !WellFormed(disk, user, root)
      decreases disk.documents.Keys - Ids(files), 2
    {
      hide WellFormed, Sound, Registered, From, IncludeGraph, KeepsBusy, Spans;
      NamesInclude(disk, user, root, files, inProgress, reachable, presets, order, f, n, path);
      var includedFile;
      ok, includedFile := ReadJSONFile(user, root, path, rootType, reason);
      if !ok {
        if path !in disk.paths {
          UnresolvedInclude(disk, user, root, f, n);
        }
        return false;
      }
      IncludeRead(disk, user, root, old(files), inProgress, old(reachable), files, reachable, presets, order, f, n);
      reachable := reachable[f := reachable[f] + reachable[includedFile]];
      return true;
    }

    /** Reads one file, with its includes, unless it has been read. */
    method ReadJSONFile(ghost user: Option<FileId>, ghost root: FileId,
                        filename: string, rootType: RootType, reason: ReadReason) returns (ok: bool, file: FileId)
      requires Named(user, root, filename, rootType == UserRoot && reason == AsRoot)
      modifies this
      ensures ok ==> Sound(disk, user, root, files, inProgress, reachable, presets, order)
      ensures ok ==> inProgress == old(inProgress) && KeepsBusy(inProgress, old(reachable), reachable)
      ensures ok ==> Ids(old(files)) <= Ids(files)
      ensures ok ==> filename in disk.paths && file == disk.paths[filename]
      ensures ok ==> file in Ids(files) && file !in Elements(inProgress)
      ensures !ok ==> filename !in disk.paths || !WellFormed(disk, user, root)
      decreases disk.documents.Keys - Ids(files), 1
    {
      hide WellFormed, Sound, InFile, ReadIncludes, Reading, From, KeepsBusy, IncludeGraph;
      file := 0;
      NamedFacts(disk, user, root, files, inProgress, reachable, presets, order);
      var found := FindLoaded(filename);
      if found.Some? {
        file := found.value;
        if file in inProgress {
          MetAgain(disk, user, root, files, inProgress, reachable, file);
          return false, file;
        }
        return true, file;
      }
      if !Readable(disk, filename) {
        if filename in disk.paths {
          NamedFrom(disk, user, root, files, inProgress, reachable, disk.paths[filename]);
          Unreadable(disk, user, root, filename);
        }
        return false, file;
      }
      file := disk.paths[filename];
      ghost var busy, reached := inProgress, reachable;
      var started := OpenFile(user, root, filename, rootType == UserRoot && reason == AsRoot);
      if !started {
        return false, file;
      }
      KeepsBusyAdd(busy, reached, file, {file});
      ok := ReadIncludesOf(user, root, file, busy, rootType, reason);
      if !ok {
        return false, file;
      }
      KeepsBusyTwice(busy, reached, reached[file := {file}], reachable);
      InFileDone(user, root, file, busy);
      inProgress := inProgress[..|inProgress| - 1];
      return true, file;
    }

    /** The include loop of `file` and, for the user's root file, the project's file. */
    method ReadIncludesOf(ghost user: Option<FileId>, ghost root: FileId, file: FileId, ghost busy: seq<FileId>,
                          rootType: RootType, reason: ReadReason) returns (ok: bool)
      requires InFile(user, root, file, 0) && file in disk.documents && inProgress == busy + [file]
      requires (rootType == UserRoot && reason == AsRoot) == (user == Some(file))
      modifies this
      ensures ok ==> InFile(user, root, file, |Included(disk, user, file)|) && inProgress == busy + [file]
      ensures ok ==> KeepsBusy(busy, old(reachable), reachable) && Ids(old(files)) <= Ids(files)
      ensures !ok ==> !WellFormed(disk, user, root)
      decreases disk.documents.Keys - Ids(files), 3
    {
      hide WellFormed, InFile;
      InFileKeeps(user, root, file, busy);
      var includes := disk.documents[file].includes;
      for i := 0 to |includes|
        invariant InFile(user, root, file, i) && inProgress == busy + [file]
        invariant KeepsBusy(busy, old(reachable), reachable) && Ids(old(files)) <= Ids(files)
      {
        assert Included(disk, user, file)[i] == includes[i];
        if includes[i].None? {
          InFileFrom(user, root, file, i);
          UnresolvedInclude(disk, user, root, file, i);
          return false;
        }
        ghost var before := reachable;
        ok := IncludeFile(user, root, file, i, includes[i].value, rootType, AsIncluded);
        if !ok {
          return false;
        }
        assert inProgress[..|inProgress| - 1] == busy;
        KeepsBusyTwice(busy, old(reachable), before, reachable);
      }
      if rootType == UserRoot && reason == AsRoot && disk.projectFile in disk.paths {
        assert Included(disk, user, file)[|includes|] == Some(disk.projectFile);
        ghost var before := reachable;
        ok := IncludeFile(user, root, file, |includes|, disk.projectFile, ProjectRoot, AsRoot);
        if !ok {
          return false;
        }
        assert inProgress[..|inProgress| - 1] == busy;
        KeepsBusyTwice(busy, old(reachable), before, reachable);
      }
      return true;
    }

    lemma InFileKeeps(user: Option<FileId>, root: FileId, f: FileId, busy: seq<FileId>)
      requires InFile(user, root, f, 0) && inProgress == busy + [f]
      ensures KeepsBusy(busy, reachable, reachable)
    {
      hide Registered, FileDone, From, IncludeGraph;
      assert forall i :: 0 <= i < |busy| ==> inProgress[i] == busy[i];
    }

    /** Reads a presets file as the root of everything.  It succeeds exactly when every file reached is in
        order, no file includes itself through others and no preset is declared twice; then the files read
        are those reached, each with exactly the files it reaches, and the presets registered are theirs. */
    method ReadRoot(filename: string, rootType: RootType) returns (ok: bool)
      requires files == [] && inProgress == [] && presets == map[] && order == []
      modifies this
      ensures ok <==>
              filename in disk.paths && WellFormed(disk, UserOf(disk, filename, rootType), RootOf(disk, filename))
      ensures ok ==> inProgress == [] && AllRead(disk, UserOf(disk, filename, rootType), RootOf(disk, filename),
                                                 files, reachable, presets, order)
      ensures ok ==> FilesRead(disk, rootType == UserRoot, disk.paths[filename], Ids(files), reachable)
      ensures ok <==> filename in disk.paths && FilesFit(disk, rootType == UserRoot, disk.paths[filename])
      ensures ok && rootType == UserRoot && disk.projectFile in disk.paths ==>
                disk.paths[disk.projectFile] in Ids(files) &&
                disk.paths[disk.projectFile] in reachable[disk.paths[filename]]
      ensures ok ==> forall k :: k in presets <==> exists f, i: nat :: f in Ids(files) && DeclaredAt(disk, f, i, k)
      ensures ok ==> forall f, i: nat, k :: f in Ids(files) && DeclaredAt(disk, f, i, k) ==> presets[k] == f
    {
      hide WellFormed, AllRead, FilesRead;
      ghost var root, user := RootOf(disk, filename), UserOf(disk, filename, rootType);
      assert Ids([]) == {} && Elements([]) == {};
      if filename in disk.paths && FilesFit(disk, rootType == UserRoot, root) {
        ghost var read, reached :| FilesRead(disk, rootType == UserRoot, root, read, reached);
        FittingFilesSuffice(disk, user, root, read, reached);
      }
      var file;
      ok, file := ReadJSONFile(user, root, filename, rootType, AsRoot);
      if ok {
        ReadIsWellFormed(disk, user, root, files, reachable, presets, order);
        ReadIsExact(disk, user, root, files, reachable, presets, order);
        ReadInTerms(disk, user, root, Ids(files), reachable);
        PresetsRead(disk, user, root, files, reachable, presets, order);
        if rootType == UserRoot && disk.projectFile in disk.paths {
          ProjectRead(disk, root, Ids(files), reachable);
        }
      }
    }

    lemma InFileFrom(user: Option<FileId>, root: FileId, f: FileId, n: nat)
      requires InFile(user, root, f, n)
      ensures From(disk, user, root, f)
    {}

    lemma InFileDone(user: Option<FileId>, root: FileId, f: FileId, busy: seq<FileId>)
      requires InFile(user, root, f, |Included(disk, user, f)|) && inProgress == busy + [f]
      requires f in disk.documents && disk.documents[f].valid
      requires forall i :: 0 <= i < |disk.documents[f].declarations| ==>
               GoodDeclaration(disk.documents[f].declarations[i])
      ensures inProgress[..|inProgress| - 1] == busy && f !in Elements(busy) && f in Ids(files)
      ensures Sound(disk, user, root, files, busy, reachable, presets, order)
    {
      hide Registered, Reading, IncludeGraph;
      assert inProgress[..|inProgress| - 1] == busy;
      FinishFile(disk, user, root, files, busy, reachable, f);
    }
  }

  lemma RegistrableGood(presets: map<Key, FileId>, ds: seq<Declaration>)
    requires Registrable(presets, ds)
    ensures forall i :: 0 <= i < |ds| ==> GoodDeclaration(ds[i])
  {}

  lemma KeepsBusyAdd(busy: seq<FileId>, reachable: map<FileId, set<FileId>>, f: FileId, s: set<FileId>)
    requires f !in Elements(busy) && forall b :: b in Elements(busy) ==> b in reachable
    ensures KeepsBusy(busy, reachable, reachable[f := s])
  {}

  lemma KeepsBusyTwice(busy: seq<FileId>, a: map<FileId, set<FileId>>, b: map<FileId, set<FileId>>, c: map<FileId,
                       set<FileId>>)
    requires KeepsBusy(busy, a, b) && KeepsBusy(busy, b, c)
    ensures KeepsBusy(busy, a, c)
  {}

  lemma NamedFacts(disk: Disk, user: Option<FileId>, root: FileId, files: seq<LoadedFile>, busy: seq<FileId>,
                   reachable: map<FileId, set<FileId>>, presets: map<Key, FileId>, order: seq<Key>)
    requires Sound(disk, user, root, files, busy, reachable, presets, order)
    ensures Reading(disk, user, root, files, busy, reachable)
    ensures forall i :: 0 <= i < |files| ==>
            files[i].filename in disk.paths && disk.paths[files[i].filename] == files[i].id
    ensures Elements(busy) <= Ids(files)
    ensures forall f :: f in Elements(busy) <==> f in busy
    ensures forall f :: f in Ids(files) ==> f in reachable && From(disk, user, root, f)
    ensures KeepsBusy(busy, reachable, reachable)
  {}

  lemma Unreadable(disk: Disk, user: Option<FileId>, root: FileId, filename: string)
    requires filename in disk.paths && !Readable(disk, filename) && From(disk, user, root, disk.paths[filename])
    ensures !WellFormed(disk, user, root)
  {
    assert !GoodFile(disk, user, disk.paths[filename]);
  }

  lemma NamesInclude(disk: Disk, user: Option<FileId>, root: FileId, files: seq<LoadedFile>, busy: seq<FileId>,
                     reachable: map<FileId, set<FileId>>, presets: map<Key, FileId>, order: seq<Key>, f: FileId,
                     n: nat, path: string)
    requires Sound(disk, user, root, files, busy, reachable, presets, order)
    requires ReadIncludes(disk, user, files, busy, reachable, f, n)
    requires n < |Included(disk, user, f)| && Included(disk, user, f)[n] == Some(path)
    ensures path in disk.paths ==>
              Resolves(disk, Included(disk, user, f)[n]) && disk.paths[path] == Target(disk, user, f, n) &&
              Edge(IncludeGraph(disk, user), busy[|busy| - 1], disk.paths[path])
  {
    if path in disk.paths {
      IncludeEdge(disk, user, f, n);
    }
  }

  lemma IncludeRead(disk: Disk, user: Option<FileId>, root: FileId, files: seq<LoadedFile>, busy: seq<FileId>,
                    reachable: map<FileId, set<FileId>>, files': seq<LoadedFile>, reachable': map<FileId, set<FileId>>,
                    presets': map<Key, FileId>, order': seq<Key>, f: FileId, n: nat)
    requires ReadIncludes(disk, user, files, busy, reachable, f, n)
    requires n < |Included(disk, user, f)| && Resolves(disk, Included(disk, user, f)[n])
    requires Sound(disk, user, root, files', busy, reachable', presets', order') && Ids(files) <= Ids(files')
    requires KeepsBusy(busy, reachable, reachable')
    requires Target(disk, user, f, n) in Ids(files') && Target(disk, user, f, n) !in Elements(busy)
    ensures f in reachable' && Target(disk, user, f, n) in reachable'
    ensures var r := reachable'[f := reachable'[f] + reachable'[Target(disk, user, f, n)]];
            && Sound(disk, user, root, files', busy, r, presets', order')
            && ReadIncludes(disk, user, files', busy, r, f, n + 1)
            && (f !in Elements(busy[..|busy| - 1]) ==> KeepsBusy(busy[..|busy| - 1], reachable, r))
  {
    hide Registered, FileDone, From;
    assert f in Elements(busy) by {
      assert busy[|busy| - 1] in Elements(busy);
    }
    AddReachable(disk, user, root, files, busy, reachable, f, n, files', reachable');
    assert Elements(busy[..|busy| - 1]) <= Elements(busy) by {
      assert forall i :: 0 <= i < |busy| - 1 ==> busy[..|busy| - 1][i] == busy[i];
    }
  }

  lemma UnresolvedInclude(disk: Disk, user: Option<FileId>, root: FileId, f: FileId, n: nat)
    requires From(disk, user, root, f) && n < |Included(disk, user, f)| && !Resolves(disk, Included(disk, user, f)[n])
    ensures !WellFormed(disk, user, root)
  {
    assert !GoodFile(disk, user, f);
  }

  lemma NamedFrom(disk: Disk, user: Option<FileId>, root: FileId, files: seq<LoadedFile>, busy: seq<FileId>,
                  reachable: map<FileId, set<FileId>>, f: FileId)
    requires Reading(disk, user, root, files, busy, reachable)
    requires if busy == [] then f == root else Edge(IncludeGraph(disk, user), busy[|busy| - 1], f)
    ensures From(disk, user, root, f)
  {
    if busy == [] {
      ReachesSelf(IncludeGraph(disk, user), root);
    } else {
      assert busy[|busy| - 1] in Elements(busy);
      FromEdge(disk, user, root, busy[|busy| - 1], f);
    }
  }

  lemma RegistrableNext(presets: map<Key, FileId>, ds: seq<Declaration>, i: nat)
    requires i < |ds| && Registrable(presets, ds[..i]) && GoodDeclaration(ds[i])
    requires KeyOf(ds[i]) !in presets && KeyOf(ds[i]) !in Keys(ds[..i])
    ensures Registrable(presets, ds[..i + 1])
  {
    assert Keys(ds[..i + 1]) == Keys(ds[..i]) + [KeyOf(ds[i])];
    assert forall j :: 0 <= j < i ==> ds[..i + 1][j] == ds[..i][j];
  }

  lemma Duplicate(presets: map<Key, FileId>, ds: seq<Declaration>, i: nat)
    requires i < |ds| && (KeyOf(ds[i]) in presets || KeyOf(ds[i]) in Keys(ds[..i]))
    ensures !Registrable(presets, ds)
  {
    if KeyOf(ds[i]) in Keys(ds[..i]) {
      var j :| 0 <= j < i && Keys(ds[..i])[j] == KeyOf(ds[i]);
      assert Keys(ds)[j] == Keys(ds)[i];
    }
  }
}
