/** The cache manager: saving a cache to a text and loading it from one. */
module CacheManager {
  import opened Wrappers
  import opened Text
  import opened CacheHelp
  import opened CacheLine
  import opened CacheRecords
  import opened CacheFile

  /** What is put into the cache before it is saved. */
  datatype Stamp = Stamp(major: string, minor: string, patch: string, dir: string)

  /** An internal entry added to the cache: what is there already keeps its properties. */
  function Added(c: Cache, key: string, value: string, help: string): Cache {
    var props := if key in c then c[key].props else NONE;
    c[key := Entry(value, Internal, Some(help), props, true)]
  }

  const MAJOR: string := "CMAKE_CACHE_MAJOR_VERSION"
  const MINOR: string := "CMAKE_CACHE_MINOR_VERSION"
  const PATCH: string := "CMAKE_CACHE_PATCH_VERSION"
  const DIR: string := "CMAKE_CACHEFILE_DIR"

  predicate Bookkeeping(k: string) {
    k == MAJOR || k == MINOR || k == PATCH || k == DIR
  }

  function VersionHelp(part: string): string {
    part + " version of cmake used to create the current loaded cache"
  }

  function Stamped(c: Cache, s: Stamp): Cache {
    var c1 := Added(c, MAJOR, s.major, VersionHelp("Major"));
    var c2 := Added(c1, MINOR, s.minor, VersionHelp("Minor"));
    var c3 := Added(c2, PATCH, s.patch, VersionHelp("Patch"));
    Added(c3, DIR, s.dir, "This is the directory where this CMakeCache.txt was created")
  }

  lemma StampedLeaves(c: Cache, s: Stamp, k: string)
    requires !Bookkeeping(k)
    ensures Slot(Stamped(c, s), k) == Slot(c, k)
  {
    hide VersionHelp;
  }

  lemma StampedHas(c: Cache, s: Stamp)
    ensures var d := Stamped(c, s);
            && MAJOR in d && d[MAJOR].value == s.major && MINOR in d && d[MINOR].value == s.minor
            && PATCH in d && d[PATCH].value == s.patch && DIR in d && d[DIR].value == s.dir
  {
    hide VersionHelp;
    StampsDiffer();
  }

  lemma StampsDiffer()
    ensures MAJOR != MINOR && MAJOR != PATCH && MAJOR != DIR && MINOR != PATCH && MINOR != DIR && PATCH != DIR
  {
    assert MAJOR[13] == 'A' && MINOR[13] == 'I' && PATCH[12] == 'P' && DIR[11] == 'F';
  }

  method WriteNotes(notes: seq<string>) returns (text: string)
    ensures text == FileText(NoteItems(notes))
  {
    text := "";
    assert NoteItems(notes)[..0] == [];
    for i := 0 to |notes|
      invariant text == FileText(NoteItems(notes)[..i])
    {
      FileTextMore(NoteItems(notes), i);
      text := text + (notes[i] + "\n");
    }
    assert NoteItems(notes)[..|notes|] == NoteItems(notes);
  }

  lemma FileTextMore(items: seq<Item>, i: nat)
    requires i < |items|
    ensures FileText(items[..i + 1]) == FileText(items[..i]) + ItemText(items[i])
  {
    hide ItemText;
    assert items[..i + 1] == items[..i] + [items[i]];
    FileTextConcat(items[..i], [items[i]]);
    FileTextOne(items[i]);
  }

  lemma FileTextOne(i: Item)
    ensures FileText([i]) == ItemText(i)
  {
    hide ItemText;
    assert [i][1..] == [];
    assert ItemText(i) + "" == ItemText(i);
  }

  /** A line that starts with the written key is no help text, and is parsed as an entry of that key exactly when
      the key can be kept. */
  ghost predicate KeyIsReadBack(key: string, written: string, kind: Kind, rest: string) {
    var line := written + ":" + KindName(kind) + "=" + rest;
    && !IsHelp(line)
    && (NUL !in key && '\n' !in key ==>
          (ParseLine(line) == Some(Line(key, kind, Value(rest))) <==> KeyKept(key, line)))
  }

  method OutputKey(key: string) returns (s: string)
    ensures s == KeyText(key)
    ensures forall kind, rest :: KeyIsReadBack(key, s, kind, rest)
  {
    var q := if ':' in key || IsHelp(key) then "\"" else "";
    s := q + key + q;
    assert q == "" ==> s == key;
    forall kind, rest ensures KeyIsReadBack(key, s, kind, rest) {
      KeyTextIsReadBack(key, kind, rest);
    }
  }

  lemma KeyTextIsReadBack(key: string, kind: Kind, rest: string)
    ensures KeyIsReadBack(key, KeyText(key), kind, rest)
  {
    hide ParseLine, KeyText, MatchQuoted, Value, KindName;
    var line := Head(key, kind) + rest;
    assert line == KeyText(key) + ":" + KindName(kind) + "=" + rest;
    HeadIsNoHelp(key, kind, rest);
    if NUL !in key && '\n' !in key {
      if KeyKept(key, line) {
        KeyReads(key, kind, rest);
      } else {
        KeyLost(key, kind, rest);
      }
    }
  }

  method OutputValue(value: string) returns (s: string)
    ensures s == ValueText(UpToNewline(value))
    ensures Value(Seen(s)) == UpToNewline(value) <==> ValueKept(UpToNewline(value))
  {
    ValueRoundTrip(UpToNewline(value));
    var newline := IndexOf(value, '\n');
    var truncated := if newline < |value| then value[..newline] else value;
    assert truncated == UpToNewline(value);
    if truncated != "" && (truncated[|truncated| - 1] == ' ' || truncated[|truncated| - 1] == '\t') {
      s := "'" + truncated + "'";
    } else {
      s := truncated;
    }
  }

  /** A record, with its help text before it and the warning after it. */
  method WriteRecord(r: Record, notes: Notes, blank: bool) returns (text: string)
    ensures text == FileText(Annotated(r, notes, blank))
  {
    hide HelpText, KeyText, ValueText, FileText;
    var help := OutputHelpString(r.help);
    var key := OutputKey(r.line.key);
    var value := OutputValue(r.line.value);
    var line := key + ":" + KindName(r.line.kind) + "=" + value + "\n";
    assert line == LineEnd(r.line);
    var after := WriteNotes(notes.warning(r.line) + if blank then [""] else []);
    text := help + line + after;
    FileTextOne(Written(r));
    FileTextConcat([Written(r)], NoteItems(notes.warning(r.line) + if blank then [""] else []));
  }

  lemma {:induction false} AnnotatedConcat(a: seq<Record>, b: seq<Record>, notes: Notes, blank: bool)
    ensures AllAnnotated(a + b, notes, blank) == AllAnnotated(a, notes, blank) + AllAnnotated(b, notes, blank)
  {
    hide Annotated;
    if b == [] {
      assert a + b == a;
    } else {
      var n := |b| - 1;
      assert (a + b)[..|a| + n] == a + b[..n];
      AnnotatedConcat(a, b[..n], notes, blank);
    }
  }

  function TextOf(rs: seq<Record>, notes: Notes, blank: bool): string {
    FileText(AllAnnotated(rs, notes, blank))
  }

  lemma TextOfConcat(a: seq<Record>, b: seq<Record>, notes: Notes, blank: bool)
    ensures TextOf(a + b, notes, blank) == TextOf(a, notes, blank) + TextOf(b, notes, blank)
  {
    AnnotatedConcat(a, b, notes, blank);
    FileTextConcat(AllAnnotated(a, notes, blank), AllAnnotated(b, notes, blank));
  }

  lemma TextOfFew(r: Record, notes: Notes, blank: bool)
    ensures TextOf([], notes, blank) == ""
    ensures TextOf([r], notes, blank) == FileText(Annotated(r, notes, blank))
  {
    hide Annotated;
    assert [r][..0] == [];
    assert [] + Annotated(r, notes, blank) == Annotated(r, notes, blank);
  }

  class CacheManager {
    var cache: Cache

    constructor ()
      ensures cache == map[]
    {
      cache := map[];
    }

    method WritePropertyEntries(key: string, e: Entry, notes: Notes) returns (os: string)
      ensures os == TextOf(PropertyRecords(key, e), notes, false)
    {
      hide TextOf, PropertyRecord;
      var ps := [Advanced, Modified, Strings];
      os := "";
      ghost var all := [PropertyRecord(key, e, Advanced), PropertyRecord(key, e, Modified), PropertyRecord(key, e,
        Strings)];
      ghost var done: seq<Record> := [];
      ghost var none := Record("", Line("", Internal, ""));
      TextOfFew(none, notes, false);
      for i := 0 to 3
        invariant os == TextOf(done, notes, false)
        invariant done == if i == 0 then [] else if i == 1 then all[0] else if i == 2 then all[0] + all[1]
                          else all[0] + all[1] + all[2]
      {
        var entry := WritePropertyEntry(key, e, ps[i], notes);
        TextOfConcat(done, all[i], notes, false);
        os := os + entry;
        done := done + all[i];
      }
    }

    method WritePropertyEntry(key: string, e: Entry, p: Property, notes: Notes) returns (os: string)
      ensures os == TextOf(PropertyRecord(key, e, p), notes, false)
    {
      hide TextOf, FileText, Annotated;
      var value := Get(e.props, p);
      if value.Some? {
        var helpstring := PropertyName(p) + " property for variable: " + key;
        var r := Record(helpstring, Line(key + "-" + PropertyName(p), Internal, value.value));
        os := WriteRecord(r, notes, false);
        TextOfFew(r, notes, false);
      } else {
        os := "";
        TextOfFew(Record("", Line("", Internal, "")), notes, false);
      }
    }

    /** The cache is stamped and written; `keys` are its keys in the order of the map. */
    method SaveCache(stamp: Stamp, keys: seq<string>, notes: Notes) returns (fout: string)
      requires Enumerates(Stamped(cache, stamp), keys)
      modifies this
      ensures cache == Stamped(old(cache), stamp)
      ensures Slot(cache, "CMAKE_CACHE_MAJOR_VERSION").Some? && cache["CMAKE_CACHE_MAJOR_VERSION"].value == stamp.major
      ensures Slot(cache, "CMAKE_CACHE_MINOR_VERSION").Some? && cache["CMAKE_CACHE_MINOR_VERSION"].value == stamp.minor
      ensures Slot(cache, "CMAKE_CACHE_PATCH_VERSION").Some? && cache["CMAKE_CACHE_PATCH_VERSION"].value == stamp.patch
      ensures Slot(cache, "CMAKE_CACHEFILE_DIR").Some? && cache["CMAKE_CACHEFILE_DIR"].value == stamp.dir
      ensures forall k :: !Bookkeeping(k) ==> Slot(cache, k) == Slot(old(cache), k)
      ensures fout == FileText(Items(cache, keys, notes))
    {
      hide FileText, Externals, Hiddens, AllAnnotated, NoteItems, Stamped, TextOf, Annotated;
      StampedHas(cache, stamp);
      forall k | !Bookkeeping(k) ensures Slot(Stamped(cache, stamp), k) == Slot(cache, k) {
        StampedLeaves(cache, stamp, k);
      }
      cache := Stamped(cache, stamp);
      var header := WriteNotes(notes.header);
      var externals := WriteExternals(keys, notes);
      var middle := WriteNotes(notes.middle);
      var hiddens := WriteHiddens(keys, notes);
      var end := WriteNotes([""]);
      fout := header + externals + middle + hiddens + end;
      JoinItems(cache, keys, notes);
    }

    method WriteExternals(keys: seq<string>, notes: Notes) returns (fout: string)
      requires Within(cache, keys)
      ensures fout == TextOf(Externals(cache, keys), notes, true)
    {
      hide TextOf, FileText, Annotated;
      fout := "";
      ghost var none := Record("", Line("", Internal, ""));
      TextOfFew(none, notes, true);
      assert keys[..0] == [];
      for i := 0 to |keys|
        invariant fout == TextOf(Externals(cache, keys[..i]), notes, true)
      {
        var key := keys[i];
        var ce := cache[key];
        assert keys[..i + 1][..i] == keys[..i];
        TextOfConcat(Externals(cache, keys[..i]), External(key, ce), notes, true);
        if ce.initialized && !ce.kind.Internal? {
          var help := if ce.help.Some? then ce.help.value else "Missing description";
          var r := Record(help, Line(key, ce.kind, ce.value));
          TextOfFew(r, notes, true);
          var text := WriteRecord(r, notes, true);
          fout := fout + text;
        }
      }
      assert keys[..|keys|] == keys;
    }

    method WriteHiddens(keys: seq<string>, notes: Notes) returns (fout: string)
      requires Within(cache, keys)
      ensures fout == TextOf(Hiddens(cache, keys), notes, false)
    {
      hide TextOf, FileText, Annotated, PropertyRecords;
      fout := "";
      ghost var none := Record("", Line("", Internal, ""));
      TextOfFew(none, notes, false);
      assert keys[..0] == [];
      for i := 0 to |keys|
        invariant fout == TextOf(Hiddens(cache, keys[..i]), notes, false)
      {
        var key := keys[i];
        var ce := cache[key];
        assert keys[..i + 1][..i] == keys[..i];
        TextOfConcat(Hiddens(cache, keys[..i]), Hidden(key, ce), notes, false);
        if ce.initialized {
          var props := WritePropertyEntries(key, ce, notes);
          fout := fout + props;
          var r := Record(if ce.help.Some? then ce.help.value else "", Line(key, ce.kind, ce.value));
          TextOfConcat(PropertyRecords(key, ce), if ce.kind.Internal? then [r] else [], notes, false);
          TextOfFew(r, notes, false);
          if ce.kind.Internal? {
            var text := WriteRecord(r, notes, false);
            fout := fout + text;
          }
        }
      }
      assert keys[..|keys|] == keys;
    }

    /** A record of a property is stored with the entry it belongs to. */
    method ReadPropertyEntry(entryKey: string, kind: Kind, value: string) returns (done: bool)
      modifies this
      ensures done <==> kind.Internal? && Owner(entryKey).Some?
      ensures cache == if done then Store(old(cache), Record("", Line(entryKey, kind, value))) else old(cache)
    {
      hide HasSuffix;
      if !kind.Internal? {
        return false;
      }
      var ps := [Advanced, Modified, Strings];
      for i := 0 to 3
        invariant forall j :: 0 <= j < i ==> !HasSuffix(entryKey, ps[j])
        invariant cache == old(cache)
      {
        if HasSuffix(entryKey, ps[i]) {
          var key := WithoutSuffix(entryKey, ps[i]);
          assert Owner(entryKey) == Some((key, ps[i])) by {
            FirstSuffix(entryKey, ps, i);
          }
          var entry := if key in cache then cache[key] else Entry("", Uninitialized, None, NONE, false);
          cache := cache[key := entry.(props := Set(entry.props, ps[i], value))];
          return true;
        }
      }
      assert !HasSuffix(entryKey, ps[0]) && !HasSuffix(entryKey, ps[1]) && !HasSuffix(entryKey, ps[2]);
      return false;
    }

    /** The cache read from a text; the number of lines that could not be read. */
    method LoadCache(mode: Mode, text: string) returns (errors: nat)
      modifies this
      ensures Loaded(cache, errors) == Load(mode, Loaded(if mode.internal then map[] else old(cache), 0), text)
    {
      hide Load, LineOf, AfterLine, Seen, ReadHelp, ParseLine, Store, SkipSpaces, Skipped, Owner;
      errors := 0;
      if mode.internal {
        cache := map[];
      }
      ghost var start := cache;
      var fin := text;
      while fin != ""
        invariant Load(mode, Loaded(cache, errors), fin) == Load(mode, Loaded(start, 0), text)
        decreases |fin|
      {
        var line, rest := Seen(LineOf(fin)), AfterLine(fin);
        var realbuffer := SkipLeading(line);
        if Skipped(realbuffer) {
          LoadSkips(mode, Loaded(cache, errors), fin);
          fin := rest;
        } else {
          LoadNext(mode, Loaded(cache, errors), fin);
          var h := LoadHelp(realbuffer, rest);
          ReadHelpShorter(realbuffer, rest);
          errors := LoadEntry(mode, h, errors);
          fin := h.rest;
        }
      }
      NothingLoads(mode, Loaded(cache, errors));
    }

    method LoadEntry(mode: Mode, h: Help, before: nat) returns (errors: nat)
      modifies this
      ensures Loaded(cache, errors) == Take(mode, Loaded(old(cache), before), h)
    {
      hide ParseLine, Owner;
      errors := before;
      var l := ParseLine(h.line);
      if l.Some? {
        var key, value, kind, help := l.value.key, l.value.value, l.value.kind, h.help;
        if key !in mode.excludes {
          if mode.internal || !kind.Internal? || key in mode.includes {
            if !mode.internal {
              kind := Internal;
              help := "DO NOT EDIT, " + key + " loaded from external file.  To change this value edit this file: "
              + mode.path + "/CMakeCache.txt";
            }
            var done := ReadPropertyEntry(key, kind, value);
            if !done {
              cache := cache[key := Entry(value, kind, Some(help), NONE, true)];
            }
          }
        }
      } else {
        errors := errors + 1;
      }
    }
  }

  lemma FirstSuffix(key: string, ps: seq<Property>, i: nat)
    requires ps == [Advanced, Modified, Strings] && i < 3 && HasSuffix(key, ps[i])
    requires forall j :: 0 <= j < i ==> !HasSuffix(key, ps[j])
    ensures Owner(key) == Some((WithoutSuffix(key, ps[i]), ps[i]))
  {
    hide HasSuffix;
    assert i > 0 ==> !HasSuffix(key, ps[0]);
    assert i > 1 ==> !HasSuffix(key, ps[1]);
  }

  method SkipLeading(line: string) returns (first: string)
    ensures first == SkipSpaces(line)
  {
    first := line;
    while first != "" && Space(first[0])
      invariant SkipSpaces(first) == SkipSpaces(line)
      decreases |first|
    {
      first := first[1..];
    }
  }

  lemma JoinItems(c: Cache, keys: seq<string>, notes: Notes)
    requires Within(c, keys)
    ensures FileText(NoteItems(notes.header)) + TextOf(Externals(c, keys), notes, true) +
            FileText(NoteItems(notes.middle))
            + TextOf(Hiddens(c, keys), notes, false) + FileText(NoteItems([""]))
            == FileText(Items(c, keys, notes))
  {
    hide FileText, Externals, Hiddens, AllAnnotated, NoteItems;
    var h, x := NoteItems(notes.header), AllAnnotated(Externals(c, keys), notes, true);
    var m, y := NoteItems(notes.middle), AllAnnotated(Hiddens(c, keys), notes, false);
    FileTextConcat(h + x + m + y, [Note("")]);
    FileTextConcat(h + x + m, y);
    FileTextConcat(h + x, m);
    FileTextConcat(h, x);
    assert NoteItems([""]) == [Note("")];
  }

  /** What loading makes of a saved cache. */
  ghost function Reloaded(mode: Mode, c: Cache, stamp: Stamp, keys: seq<string>, notes: Notes): Loaded
    requires Within(Stamped(c, stamp), keys)
  {
    Load(mode, Loaded(map[], 0), FileText(Items(Stamped(c, stamp), keys, notes)))
  }

  /** When a cache whose records end where their texts end is saved and loaded, the errors are the lines that cannot
      be parsed, and an initialised entry that no illegible record concerns comes back exactly when its help text
      survives, the entry stands and its properties are kept. */
  lemma EntryComesBackIff(mode: Mode, c: Cache, stamp: Stamp, keys: seq<string>, notes: Notes, k: string)
    requires Whole(mode) && GoodNotes(notes) && Enumerates(Stamped(c, stamp), keys)
    requires AllContained(Records(Stamped(c, stamp), keys)) && Undisturbed(Records(Stamped(c, stamp), keys), k)
    requires k in c && !Bookkeeping(k) && c[k].initialized
    ensures var r, s := Reloaded(mode, c, stamp, keys, notes), Stamped(c, stamp);
            && r.errors == CountUnreadable(Records(s, keys)) && Slot(s, k) == Slot(c, k)
            && (Slot(r.cache, k) == Some(Expected(c[k]))
                <==> HelpKept(HelpOf(c[k])) && Stands(s, k) && PropertiesKept(s, k))
  {
    hide Load, FileText, Items, Stamped, Stands, PropertiesKept, HelpKept, AllContained, GoodNotes, Expected, Records;
    hide MeetAll, StoreAll, Undisturbed, CountUnreadable, Whole;
    var s := Stamped(c, stamp);
    StampedLeaves(c, stamp, k);
    SaveThenLoad(mode, s, keys, notes);
    MeetAllSlot(mode, Records(s, keys), k);
    MeetAllErrors(mode, Loaded(map[], 0), Records(s, keys));
    ComesBackIff(s, keys, k);
  }

  /** An internal entry with a property: its own record, written after that of the property, overwrites it. */
  lemma InternalEntriesLoseProperties(value: string, advanced: string)
    ensures var e := Entry(value, Internal, Some(""), Props(Some(advanced), None, None), true);
            Enumerates(map["A" := e], ["A"]) && Slot(Restored(map["A" := e], ["A"]), "A") != Some(Expected(e))
  {
    hide Restored, Owner, HelpKept, RereadHelp;
    var e := Entry(value, Internal, Some(""), Props(Some(advanced), None, None), true);
    var c: Cache := map["A" := e];
    assert Enumerates(c, ["A"]);
    ComesBackIff(c, ["A"], "A");
    assert PropertyKey("A", Advanced)[1] == '-';
    assert PropertyKey("A", Advanced) != "A";
    assert !PropertyKept(c, "A", Advanced);
  }
}
