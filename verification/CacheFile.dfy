/** The cache file as a text: what loading makes of it, and what is read of what was written. */
module CacheFile {
  import opened Wrappers
  import opened Text
  import opened CacheHelp
  import opened CacheLine
  import opened CacheRecords

  // Loading ---------------------------------------------------------------------------------------------

  predicate Space(c: char) {
    c == ' ' || c == '\t' || c == '\r' || c == '\n'
  }

  function SkipSpaces(s: string): string {
    if s != "" && Space(s[0]) then SkipSpaces(s[1..]) else s
  }

  /** Blank lines and comments. */
  predicate Skipped(first: string) {
    first == "" || first[0] == '#'
  }

  /** What to load: the project's own cache, or another one, of which only the visible entries and those in
      `includes` become internal entries here. */
  datatype Mode = Mode(internal: bool, excludes: set<string>, includes: set<string>, path: string)

  datatype Loaded = Loaded(cache: Cache, errors: nat)

  function Imported(mode: Mode, r: Record): Record {
    if mode.internal then r
    else
      Record("DO NOT EDIT, " + r.line.key + " loaded from external file.  To change this value edit this file: "
             + mode.path + "/CMakeCache.txt", r.line.(kind := Internal))
  }

  predicate Wanted(mode: Mode, l: Line) {
    l.key !in mode.excludes && (mode.internal || !l.kind.Internal? || l.key in mode.includes)
  }

  /** An entry line with the help text before it. */
  function Take(mode: Mode, c: Loaded, h: Help): Loaded {
    var l := ParseLine(h.line);
    if l.None? then c.(errors := c.errors + 1)
    else if !Wanted(mode, l.value) then c
    else c.(cache := Store(c.cache, Imported(mode, Record(h.help, l.value))))
  }

  function Load(mode: Mode, c: Loaded, text: string): Loaded
    decreases |text|
  {
    if text == "" then c
    else
      var first, rest := SkipSpaces(Seen(LineOf(text))), AfterLine(text);
      if Skipped(first) then Load(mode, c, rest)
      else
        var h := ReadHelp(first, rest);
        ReadHelpShorter(first, rest);
        Load(mode, Take(mode, c, h), h.rest)
  }

  lemma {:induction false} ReadHelpShorter(line: string, text: string)
    ensures |ReadHelp(line, text).rest| <= |text|
    decreases |text|
  {
    hide Seen, LineOf, AfterLine, ReadLine;
    if IsHelp(line) && text != "" {
      ReadHelpShorter(Seen(LineOf(text)), AfterLine(text));
    }
  }

  // One record ------------------------------------------------------------------------------------------

  function LineEnd(l: Line): string {
    LineText(l) + "\n"
  }

  function RecordText(r: Record): string {
    HelpText(r.help) + LineEnd(r.line)
  }

  /** What is seen of the line of a record. */
  function SeenOf(l: Line): string {
    Seen(LineOf(LineEnd(l)))
  }

  /** A line without a help text before it must not start like a comment, nor with a blank. */
  predicate Legible(r: Record) {
    && Readable(r.line, SeenOf(r.line))
    && (r.help == "" ==> SkipSpaces(SeenOf(r.line)) == SeenOf(r.line) && !Skipped(SeenOf(r.line)))
  }

  lemma LineIsCut(l: Line, rest: string)
    ensures LineOf(LineEnd(l) + rest) == LineOf(LineEnd(l))
    ensures LineEnd(l) + rest == LineOf(LineEnd(l)) + "\n" + AfterLine(LineEnd(l) + rest)
    ensures '\n' !in LineOf(LineEnd(l))
  {
    hide LineText, LineOf, AfterLine;
    assert LineEnd(l)[|LineText(l)|] == '\n';
    CutAtNewline(LineEnd(l), rest);
  }

  lemma CutAtNewline(t: string, rest: string)
    requires '\n' in t
    ensures LineOf(t + rest) == LineOf(t) && t + rest == LineOf(t) + "\n" + AfterLine(t + rest)
    ensures '\n' !in LineOf(t)
  {
    var i := IndexOf(t, '\n');
    assert t[..|t|] == t;
    IndexOfAppend(t, rest, '\n');
    assert (t + rest)[..i] == t[..i];
    assert t + rest == (t + rest)[..i] + [(t + rest)[i]] + (t + rest)[i + 1..];
  }

  /** The line of an entry is never taken for help. */
  lemma NoHelpLine(l: Line)
    ensures !IsHelp(SeenOf(l))
  {
    hide LineOf, Seen, IsHelp, Head, ValueText;
    var v := ValueText(UpToNewline(l.value));
    HeadIsNoHelp(l.key, l.kind, v + "\n");
    assert LineEnd(l) == Head(l.key, l.kind) + (v + "\n");
    HelpSeen(LineEnd(l));
  }

  lemma HelpSeen(t: string)
    ensures IsHelp(Seen(LineOf(t))) ==> IsHelp(t)
  {
    hide Seen;
    SeenShort(LineOf(t));
    assert forall i :: 0 <= i < |Seen(LineOf(t))| ==> Seen(LineOf(t))[i] == t[i];
  }

  lemma HeadIsNoHelp(key: string, kind: Kind, rest: string)
    ensures !IsHelp(Head(key, kind) + rest)
  {
    hide KindName;
    var t := Head(key, kind) + rest;
    if NeedsQuotes(key) {
      assert t[0] == '"';
    } else {
      assert t == key + ":" + (KindName(kind) + "=" + rest);
      assert |key| >= 1 ==> t[0] == key[0];
      assert |key| >= 2 ==> t[1] == key[1];
      assert |key| == 1 ==> t[1] == ':';
    }
  }

  lemma SkipSpacesOfHelp(s: string)
    requires IsHelp(s)
    ensures SkipSpaces(s) == s && !Skipped(s)
  {}

  /** What is read first of a record's text, whatever comes after it. */
  lemma RecordReads(r: Record, rest: string)
    ensures var text := RecordText(r) + rest;
            var first := SkipSpaces(Seen(LineOf(text)));
            && (r.help == "" ==>
                  first == SkipSpaces(SeenOf(r.line)) && AfterLine(text) == AfterLine(LineEnd(r.line) + rest))
            && (r.help != "" ==>
                  !Skipped(first) && ReadHelp(first, AfterLine(text))
                                     == Help(RereadHelp(r.help), SeenOf(r.line), AfterLine(LineEnd(r.line) + rest)))
  {
    hide Seen, LineOf, AfterLine, LineEnd, HelpText, RereadHelp, IsHelp, ReadHelp, SkipSpaces, Skipped;
    var t := LineEnd(r.line) + rest;
    var text := RecordText(r) + rest;
    assert text == HelpText(r.help) + t;
    LineIsCut(r.line, rest);
    NoHelpLine(r.line);
    if r.help == "" {
      NoHelp();
      assert text == t;
    } else {
      HelpReads(r.help, LineOf(LineEnd(r.line)), AfterLine(t));
      FirstHelpLine(r.help, t);
      SkipSpacesOfHelp(Seen(LineOf(text)));
    }
  }

  lemma FirstHelpLine(h: string, rest: string)
    requires h != ""
    ensures IsHelp(Seen(LineOf(HelpText(h) + rest)))
  {
    hide Seen, LineOf, IsHelp, FirstCut, HelpLine;
    var e := FirstCut(h, 1);
    FirstChunk(h);
    ChunkReads(h[..e]);
    var more := HelpText(h[e..]) + rest;
    assert HelpText(h) + rest == HelpLine(h[..e]) + "\n" + more;
    LineSplits(HelpLine(h[..e]), more);
  }

  /** The record that is read first, if what is read first is one. */
  function ReadFirst(text: string): Option<Record> {
    var first := SkipSpaces(Seen(LineOf(text)));
    var h := ReadHelp(first, AfterLine(text));
    var l := ParseLine(h.line);
    if Skipped(first) || l.None? then None else Some(Record(h.help, l.value))
  }

  lemma {:induction false} SkipSpacesSuffix(s: string) returns (m: nat)
    ensures m <= |s| && SkipSpaces(s) == s[m..] && (m == 0 <==> SkipSpaces(s) == s)
    ensures (forall i :: 0 <= i < m ==> Space(s[i])) && (m < |s| ==> !Space(s[m]))
  {
    if s != "" && Space(s[0]) {
      var k := SkipSpacesSuffix(s[1..]);
      m := k + 1;
      assert forall i :: 1 <= i < m ==> s[i] == s[1..][i - 1];
    } else {
      m := 0;
    }
  }

  /** A line that starts with blanks is that of a key without quotes, and is not empty without the blanks. */
  lemma TrimmedShape(l: Line, r: string) returns (m: nat)
    requires var seen := Head(l.key, l.kind) + r; SkipSpaces(seen) != seen
    ensures var seen := Head(l.key, l.kind) + r;
            && 0 < m <= |l.key| && !NeedsQuotes(l.key) && |seen| > m + 2 && SkipSpaces(seen) == seen[m..]
            && Space(l.key[0]) && !Space(seen[m])
            && seen == l.key + ":" + (KindName(l.kind) + "=" + r)
  {
    hide KindName, SkipSpaces;
    var seen := Head(l.key, l.kind) + r;
    assert NeedsQuotes(l.key) ==> seen[0] == '"';
    KindHasLetters(l.kind);
    m := SkipSpacesSuffix(seen);
    if !NeedsQuotes(l.key) {
      assert seen == l.key + ":" + (KindName(l.kind) + "=" + r);
      assert seen[|l.key|] == ':';
      assert l.key != "" ==> seen[0] == l.key[0];
    }
  }

  lemma KindHasLetters(k: Kind)
    ensures |KindName(k)| > 2
  {}

  /** Without the blanks it starts with, the line is not that of the key. */
  lemma TrimmedLost(l: Line, r: string)
    requires var seen := Head(l.key, l.kind) + r; SkipSpaces(seen) != seen
    ensures var p := ParseLine(SkipSpaces(Head(l.key, l.kind) + r)); p.Some? ==> p.value.key != l.key
  {
    hide KindName, SkipSpaces, Value, QuotedKey, IndexOf;
    var seen := Head(l.key, l.kind) + r;
    var m := TrimmedShape(l, r);
    var t := seen[m..];
    QuotedKeyHasNone(t, ':');
    QuotedKeyHasNone(t, '=');
    assert t[0] == seen[m];
    assert m < |l.key| ==> seen[m] == l.key[m];
    assert m == |l.key| ==> seen[m] == ':';
  }

  lemma {:induction false} ReadHelpClean(line: string, text: string, c: char)
    requires c !in line && (c == NUL || c == '\n')
    ensures c !in ReadHelp(line, text).line
    decreases |text|
  {
    hide Seen, LineOf, AfterLine, ReadLine;
    if IsHelp(line) && text != "" {
      SeenClean(text);
      ReadHelpClean(Seen(LineOf(text)), AfterLine(text), c);
    }
  }

  lemma TrimmedRecordLost(r: Record, rest: string)
    requires r.help == "" && SkipSpaces(SeenOf(r.line)) != SeenOf(r.line)
    ensures ReadFirst(RecordText(r) + rest) != Some(AsRead(r))
  {
    hide Seen, LineOf, AfterLine, ReadHelp, SkipSpaces, Skipped, ParseLine, RecordText, RereadHelp, LineText;
    var l := r.line;
    RecordReads(r, rest);
    var seen := SeenOf(l);
    var first, after := SkipSpaces(seen), AfterLine(LineEnd(l) + rest);
    NothingLost();
    if NUL in l.key || '\n' in l.key {
      var c := if NUL in l.key then NUL else '\n';
      SeenClean(LineEnd(l));
      var m := SkipSpacesSuffix(seen);
      ReadHelpClean(first, after, c);
      var h := ReadHelp(first, after);
      if ParseLine(h.line).Some? {
        ParsedWithin(h.line, c);
      }
    } else {
      SeenLine(l, "");
      assert LineEnd(l) + "" == LineEnd(l);
      var v := Seen(ValueText(UpToNewline(l.value)));
      var m := TrimmedShape(l, v);
      if IsHelp(first) {
        HelpGoesOn(first, after);
      } else {
        HelpStops(first, after);
        TrimmedLost(l, v);
      }
    }
  }

  /** A record is read back, up to what is read of its help text, exactly when it is legible. */
  lemma RecordRoundTrip(r: Record, rest: string)
    ensures ReadFirst(RecordText(r) + rest) == Some(AsRead(r)) <==> Legible(r)
  {
    hide Seen, LineOf, AfterLine, ReadHelp, SkipSpaces, Skipped, ParseLine, RecordText, RereadHelp, LineText, Readable;
    var l := r.line;
    RecordReads(r, rest);
    LineRoundTrip(l, "");
    assert LineText(l) + "\n" + "" == LineEnd(l);
    if r.help == "" {
      if SkipSpaces(SeenOf(l)) != SeenOf(l) {
        TrimmedRecordLost(r, rest);
      } else {
        NothingLost();
        NoHelpLine(l);
        HelpStops(SeenOf(l), AfterLine(LineEnd(l) + rest));
      }
    }
  }

  /** A key like those in use: no control characters, quotes, colons or equals signs, and an ordinary start. */
  predicate OrdinaryKey(key: string) {
    && key != "" && !Space(key[0]) && key[0] != '#'
    && NUL !in key && '\n' !in key && '"' !in key && '=' !in key && ':' !in key
  }

  /** Such an entry can be read back whatever its help text, if its value can. */
  lemma OrdinaryIsLegible(r: Record)
    requires OrdinaryKey(r.line.key) && ValueKept(UpToNewline(r.line.value))
    ensures Legible(r)
  {
    hide Seen, LineOf, AfterLine, ValueKept, ValueText, UpToNewline, KindName, IsHelp;
    var l, seen := r.line, SeenOf(r.line);
    SeenLine(l, "");
    assert LineText(l) + "\n" + "" == LineEnd(l);
    assert seen != "" && seen[0] == if NeedsQuotes(l.key) then '"' else l.key[0];
    assert l.key[0] in l.key;
    assert SkipSpaces(seen) == seen && !Skipped(seen);
  }

  // The file --------------------------------------------------------------------------------------------

  /** A line that is not an entry's, or an entry. */
  datatype Item = Note(note: string) | Written(record: Record)

  /** A comment or a blank line. */
  predicate GoodNote(n: string) {
    '\n' !in n && Skipped(SkipSpaces(Seen(n)))
  }

  predicate GoodItem(i: Item) {
    if i.Note? then GoodNote(i.note) else Contained(i.record)
  }

  function ItemText(i: Item): string {
    if i.Note? then i.note + "\n" else RecordText(i.record)
  }

  function FileText(items: seq<Item>): string {
    if items == [] then "" else ItemText(items[0]) + FileText(items[1..])
  }

  function RecordsOf(items: seq<Item>): seq<Record> {
    if items == [] then []
    else
      var n := |items| - 1;
      RecordsOf(items[..n]) + if items[n].Written? then [items[n].record] else []
  }

  lemma {:induction false} FileTextConcat(a: seq<Item>, b: seq<Item>)
    ensures FileText(a + b) == FileText(a) + FileText(b)
  {
    hide ItemText;
    if a == [] {
      assert a + b == b;
    } else {
      assert (a + b)[1..] == a[1..] + b;
      FileTextConcat(a[1..], b);
    }
  }

  lemma {:induction false} RecordsOfConcat(a: seq<Item>, b: seq<Item>)
    ensures RecordsOf(a + b) == RecordsOf(a) + RecordsOf(b)
  {
    if b == [] {
      assert a + b == a;
    } else {
      var n := |b| - 1;
      assert (a + b)[..|a| + n] == a + b[..n];
      RecordsOfConcat(a, b[..n]);
    }
  }

  /** Loading the project's own cache, all of it. */
  predicate Whole(mode: Mode) {
    mode.internal && mode.excludes == {}
  }

  lemma NoteLoads(mode: Mode, c: Loaded, n: string, rest: string)
    requires GoodNote(n)
    ensures Load(mode, c, ItemText(Note(n)) + rest) == Load(mode, c, rest)
  {
    hide LineOf, AfterLine, Seen, Take, Skipped, SkipSpaces, ReadHelp;
    var text := n + "\n" + rest;
    LineSplits(n, rest);
    assert text != "";
  }

  lemma LoadNext(mode: Mode, c: Loaded, text: string)
    requires text != "" && !Skipped(SkipSpaces(Seen(LineOf(text))))
    ensures var h := ReadHelp(SkipSpaces(Seen(LineOf(text))), AfterLine(text));
            Load(mode, c, text) == Load(mode, Take(mode, c, h), h.rest)
  {
    hide LineOf, AfterLine, Seen, Take, Skipped, SkipSpaces, ReadHelp;
  }

  /** The line of a record as it is looked at: without a help text before it, the blanks it starts with are
      skipped. */
  function LookedAt(r: Record): string {
    if r.help == "" then SkipSpaces(SeenOf(r.line)) else SeenOf(r.line)
  }

  /** The record ends where its text ends: its key is on one line, which is not taken for a help text. */
  predicate Contained(r: Record) {
    '\n' !in r.line.key && !IsHelp(LookedAt(r))
  }

  /** What loading makes of a written record, legible or not. */
  function Meet(mode: Mode, c: Loaded, r: Record): Loaded {
    if r.help == "" && Skipped(LookedAt(r)) then c
    else Take(mode, c, Help(RereadHelp(r.help), LookedAt(r), ""))
  }

  function MeetAll(mode: Mode, c: Loaded, rs: seq<Record>): Loaded {
    if rs == [] then c else Meet(mode, MeetAll(mode, c, rs[..|rs| - 1]), rs[|rs| - 1])
  }

  lemma {:induction false} MeetConcat(mode: Mode, c: Loaded, a: seq<Record>, b: seq<Record>)
    ensures MeetAll(mode, c, a + b) == MeetAll(mode, MeetAll(mode, c, a), b)
  {
    hide Meet;
    if b == [] {
      assert a + b == a;
    } else {
      var n := |b| - 1;
      assert (a + b)[..|a| + n] == a + b[..n];
      MeetConcat(mode, c, a, b[..n]);
    }
  }

  lemma TextOnOneLine(l: Line)
    requires '\n' !in l.key
    ensures '\n' !in LineText(l)
  {
    hide KindName;
    KindLetters(l.kind);
  }

  lemma RecordLoads(mode: Mode, c: Loaded, r: Record, rest: string)
    requires Contained(r)
    ensures Load(mode, c, RecordText(r) + rest) == Load(mode, Meet(mode, c, r), rest)
  {
    hide Load, Seen, LineOf, AfterLine, ReadHelp, SkipSpaces, Skipped, ParseLine, RereadHelp, LineText, Store, IsHelp,
      HelpText, Imported, Wanted;
    var l, text := r.line, RecordText(r) + rest;
    RecordReads(r, rest);
    TextOnOneLine(l);
    LineSplits(LineText(l), rest);
    assert LineText(l) + "\n" + rest == LineEnd(l) + rest;
    assert text != "";
    NothingLost();
    if r.help == "" && Skipped(LookedAt(r)) {
      LoadSkips(mode, c, text);
    } else {
      if r.help == "" {
        HelpStops(LookedAt(r), rest);
      }
      LoadNext(mode, c, text);
    }
  }

  lemma LoadSkips(mode: Mode, c: Loaded, text: string)
    requires text != "" && Skipped(SkipSpaces(Seen(LineOf(text))))
    ensures Load(mode, c, text) == Load(mode, c, AfterLine(text))
  {
    hide LineOf, AfterLine, Seen, Take, Skipped, SkipSpaces, ReadHelp;
  }

  /** A legible record is stored as it was written. */
  lemma LegibleMeets(mode: Mode, c: Loaded, r: Record)
    requires Whole(mode) && Legible(r)
    ensures Contained(r) && Meet(mode, c, r) == c.(cache := Store(c.cache, AsRead(r)))
  {
    hide Seen, LineOf, SkipSpaces, Skipped, ParseLine, RereadHelp, LineText, Store, IsHelp;
    var l := r.line;
    LineRoundTrip(l, "");
    assert LineText(l) + "\n" + "" == LineEnd(l);
    NoHelpLine(l);
  }

  predicate GoodItems(items: seq<Item>) {
    forall i :: 0 <= i < |items| ==> GoodItem(items[i])
  }

  /** Loading the text of such items meets their records, in order. */
  lemma {:induction false} ItemsLoad(mode: Mode, c: Loaded, items: seq<Item>)
    requires GoodItems(items)
    ensures Load(mode, c, FileText(items)) == MeetAll(mode, c, RecordsOf(items))
    decreases |items|
  {
    hide Load, GoodItem, ItemText, MeetAll, RecordsOf;
    if items == [] {
      NothingLoads(mode, c);
      NoRecords(map[]);
      NothingMet(mode, c);
    } else {
      var i, more := items[0], items[1..];
      assert items == [i] + more;
      assert GoodItem(items[0]);
      ItemLoads(mode, c, i, FileText(more));
      ItemsLoad(mode, MeetAll(mode, c, RecordsOf([i])), more);
      RecordsOfConcat([i], more);
      MeetConcat(mode, c, RecordsOf([i]), RecordsOf(more));
    }
  }

  lemma ItemLoads(mode: Mode, c: Loaded, i: Item, rest: string)
    requires GoodItem(i)
    ensures Load(mode, c, ItemText(i) + rest) == Load(mode, MeetAll(mode, c, RecordsOf([i])), rest)
  {
    hide Load, Contained, GoodNote, RecordText, Meet;
    assert [i][..0] == [] && RecordsOf([i][..0]) == [];
    if i.Note? {
      NoteLoads(mode, c, i.note, rest);
      assert RecordsOf([i]) == [] && i == Note(i.note);
    } else {
      RecordLoads(mode, c, i.record, rest);
      assert RecordsOf([i]) == [i.record];
      MeetOne(mode, c, i.record);
    }
  }

  lemma NothingMet(mode: Mode, c: Loaded)
    ensures MeetAll(mode, c, []) == c
  {}

  lemma MeetOne(mode: Mode, c: Loaded, r: Record)
    ensures MeetAll(mode, c, [r]) == Meet(mode, c, r)
  {
    hide Meet;
    assert [r][..0] == [];
    assert MeetAll(mode, c, [r][..0]) == c;
  }

  lemma NoRecords(c: Cache)
    ensures RecordsOf([]) == [] && StoreAll(c, []) == c
  {}

  lemma NothingLoads(mode: Mode, c: Loaded)
    ensures Load(mode, c, "") == c
  {}

  // Saving ----------------------------------------------------------------------------------------------

  /** The lines between the entries: at the start, before the hidden records, and the warning after a record
      whose value is cut short. */
  datatype Notes = Notes(header: seq<string>, middle: seq<string>, warning: Line -> seq<string>)

  predicate AllGood(notes: seq<string>) {
    forall i :: 0 <= i < |notes| ==> GoodNote(notes[i])
  }

  ghost predicate GoodNotes(n: Notes) {
    AllGood(n.header) && AllGood(n.middle) && forall l :: AllGood(n.warning(l))
  }

  function NoteItems(notes: seq<string>): (items: seq<Item>)
    ensures |items| == |notes| && forall i :: 0 <= i < |notes| ==> items[i] == Note(notes[i])
  {
    seq(|notes|, i requires 0 <= i < |notes| => Note(notes[i]))
  }

  /** A record, the warning after it, and a blank line if asked for. */
  function Annotated(r: Record, notes: Notes, blank: bool): seq<Item> {
    [Written(r)] + NoteItems(notes.warning(r.line) + if blank then [""] else [])
  }

  function AllAnnotated(rs: seq<Record>, notes: Notes, blank: bool): seq<Item> {
    if rs == [] then []
    else
      var n := |rs| - 1;
      AllAnnotated(rs[..n], notes, blank) + Annotated(rs[n], notes, blank)
  }

  function Items(c: Cache, keys: seq<string>, notes: Notes): seq<Item>
    requires Within(c, keys)
  {
    NoteItems(notes.header) + AllAnnotated(Externals(c, keys), notes, true)
    + NoteItems(notes.middle) + AllAnnotated(Hiddens(c, keys), notes, false) + [Note("")]
  }

  lemma {:induction false} NoRecordsInNotes(notes: seq<string>)
    ensures RecordsOf(NoteItems(notes)) == []
  {
    if notes != [] {
      var n := |notes| - 1;
      assert NoteItems(notes)[..n] == NoteItems(notes[..n]);
      NoRecordsInNotes(notes[..n]);
    }
  }

  lemma {:induction false} RecordsOfAnnotated(rs: seq<Record>, notes: Notes, blank: bool)
    ensures RecordsOf(AllAnnotated(rs, notes, blank)) == rs
  {
    hide RecordsOf;
    if rs == [] {
      NoRecords(map[]);
    } else {
      var n := |rs| - 1;
      var after := notes.warning(rs[n].line) + if blank then [""] else [];
      RecordsOfAnnotated(rs[..n], notes, blank);
      RecordsOfConcat(AllAnnotated(rs[..n], notes, blank), Annotated(rs[n], notes, blank));
      RecordsOfConcat([Written(rs[n])], NoteItems(after));
      NoRecordsInNotes(after);
      OneRecord(rs[n]);
    }
  }

  lemma OneRecord(r: Record)
    ensures RecordsOf([Written(r)]) == [r]
  {
    assert [Written(r)][..0] == [];
  }

  lemma RecordsOfItems(c: Cache, keys: seq<string>, notes: Notes)
    requires Within(c, keys)
    ensures RecordsOf(Items(c, keys, notes)) == Records(c, keys)
  {
    hide RecordsOf, AllAnnotated, NoteItems, Externals, Hiddens;
    var h, x := NoteItems(notes.header), AllAnnotated(Externals(c, keys), notes, true);
    var m, y := NoteItems(notes.middle), AllAnnotated(Hiddens(c, keys), notes, false);
    var end := [Note("")];
    RecordsOfConcat(h + x + m + y, end);
    RecordsOfConcat(h + x + m, y);
    RecordsOfConcat(h + x, m);
    RecordsOfConcat(h, x);
    NoRecordsInNotes(notes.header);
    NoRecordsInNotes(notes.middle);
    NoRecordsInNotes([""]);
    assert NoteItems([""]) == end;
    RecordsOfAnnotated(Externals(c, keys), notes, true);
    RecordsOfAnnotated(Hiddens(c, keys), notes, false);
  }

  predicate AllContained(rs: seq<Record>) {
    forall i :: 0 <= i < |rs| ==> Contained(rs[i])
  }

  lemma BlankIsGood()
    ensures GoodNote("")
  {}

  lemma {:induction false} AnnotatedAreGood(rs: seq<Record>, notes: Notes, blank: bool)
    requires AllContained(rs) && GoodNotes(notes)
    ensures GoodItems(AllAnnotated(rs, notes, blank))
  {
    hide Contained, GoodNote;
    if rs != [] {
      var n := |rs| - 1;
      AnnotatedAreGood(rs[..n], notes, blank);
      BlankIsGood();
      assert Contained(rs[n]) && AllGood(notes.warning(rs[n].line));
    }
  }

  lemma ItemsAreGood(c: Cache, keys: seq<string>, notes: Notes)
    requires Within(c, keys) && GoodNotes(notes) && AllContained(Records(c, keys))
    ensures GoodItems(Items(c, keys, notes))
  {
    hide Contained, GoodNote, AllAnnotated, Externals, Hiddens;
    var x, y := Externals(c, keys), Hiddens(c, keys);
    assert forall i :: 0 <= i < |x| ==> x[i] == Records(c, keys)[i];
    assert forall i :: 0 <= i < |y| ==> y[i] == Records(c, keys)[|x| + i];
    AnnotatedAreGood(x, notes, true);
    AnnotatedAreGood(y, notes, false);
    BlankIsGood();
  }

  /** When every record ends where its text ends, loading the saved file meets the records one by one, in the
      order they are written, whether or not they are legible. */
  lemma SaveThenLoad(mode: Mode, c: Cache, keys: seq<string>, notes: Notes)
    requires Within(c, keys) && GoodNotes(notes) && AllContained(Records(c, keys))
    ensures Load(mode, Loaded(map[], 0), FileText(Items(c, keys, notes))) ==
            MeetAll(mode, Loaded(map[], 0), Records(c, keys))
  {
    hide Contained, Load, FileText, RecordsOf, Items, MeetAll, Records, GoodItems;
    ItemsAreGood(c, keys, notes);
    RecordsOfItems(c, keys, notes);
    ItemsLoad(mode, Loaded(map[], 0), Items(c, keys, notes));
  }

  // Records that cannot be read ---------------------------------------------------------------------------

  /** The entry that storing a record changes. */
  function TargetOf(l: Line): string {
    if l.kind.Internal? && Owner(l.key).Some? then Owner(l.key).value.0 else l.key
  }

  lemma StoreSlot(c: Cache, d: Cache, r: Record, k: string)
    ensures TargetOf(r.line) != k ==> Slot(Store(c, r), k) == Slot(c, k)
    ensures Slot(c, k) == Slot(d, k) ==> Slot(Store(c, r), k) == Slot(Store(d, r), k)
  {
    hide Owner;
  }

  predicate Unreadable(r: Record) {
    !(r.help == "" && Skipped(LookedAt(r))) && ParseLine(LookedAt(r)).None?
  }

  /** The record is read as it was written, or neither what it is nor what it is read as concerns `k`. */
  predicate LeavesAlone(r: Record, k: string) {
    Legible(r) ||
    (TargetOf(r.line) != k && (ParseLine(LookedAt(r)).Some? ==> TargetOf(ParseLine(LookedAt(r)).value) != k))
  }

  predicate Undisturbed(rs: seq<Record>, k: string) {
    forall i :: 0 <= i < |rs| ==> LeavesAlone(rs[i], k)
  }

  function CountUnreadable(rs: seq<Record>): nat {
    if rs == [] then 0
    else CountUnreadable(rs[..|rs| - 1]) + if Unreadable(rs[|rs| - 1]) then 1 else 0
  }

  lemma MeetSlot(mode: Mode, c: Loaded, d: Cache, r: Record, k: string)
    requires Whole(mode) && LeavesAlone(r, k) && Slot(c.cache, k) == Slot(d, k)
    ensures Slot(Meet(mode, c, r).cache, k) == Slot(Store(d, AsRead(r)), k)
  {
    hide Store, Slot, Legible, ParseLine, LookedAt, Skipped, Owner, RereadHelp;
    if Legible(r) {
      LegibleMeets(mode, c, r);
      StoreSlot(c.cache, d, AsRead(r), k);
    } else {
      StoreSlot(d, d, AsRead(r), k);
      if ParseLine(LookedAt(r)).Some? {
        StoreSlot(c.cache, c.cache, Record(RereadHelp(r.help), ParseLine(LookedAt(r)).value), k);
      }
    }
  }

  /** An entry that is left alone is what storing all records as they were written makes of it, and only the
      lines that cannot be parsed are errors. */
  lemma {:induction false} MeetAllSlot(mode: Mode, rs: seq<Record>, k: string)
    requires Whole(mode) && Undisturbed(rs, k)
    ensures Slot(MeetAll(mode, Loaded(map[], 0), rs).cache, k) == Slot(StoreAll(map[], rs), k)
  {
    hide Meet, Store, Slot, LeavesAlone, AsRead;
    if rs != [] {
      var n := |rs| - 1;
      MeetAllSlot(mode, rs[..n], k);
      MeetSlot(mode, MeetAll(mode, Loaded(map[], 0), rs[..n]), StoreAll(map[], rs[..n]), rs[n], k);
    }
  }

  lemma {:induction false} MeetAllErrors(mode: Mode, c: Loaded, rs: seq<Record>)
    ensures MeetAll(mode, c, rs).errors == c.errors + CountUnreadable(rs)
  {
    hide ParseLine, LookedAt, Skipped, Store, Imported, Wanted;
    if rs != [] {
      MeetAllErrors(mode, c, rs[..|rs| - 1]);
    }
  }

  predicate AllLegible(rs: seq<Record>) {
    forall i :: 0 <= i < |rs| ==> Legible(rs[i])
  }

  lemma {:induction false} LegibleMeetAll(mode: Mode, c: Loaded, rs: seq<Record>)
    requires Whole(mode) && AllLegible(rs)
    ensures AllContained(rs) && MeetAll(mode, c, rs) == c.(cache := StoreAll(c.cache, rs))
  {
    hide Legible, Contained, Meet, Store, AsRead;
    if rs != [] {
      var n := |rs| - 1;
      LegibleMeetAll(mode, c, rs[..n]);
      assert Legible(rs[n]);
      LegibleMeets(mode, MeetAll(mode, c, rs[..n]), rs[n]);
      assert forall i :: 0 <= i < n ==> Contained(rs[..n][i]);
    }
  }

  /** When all its records are legible, loading the saved file reports no error and gives what the records of
      the cache, stored in the order they are written, give. */
  lemma SaveThenLoadLegible(mode: Mode, c: Cache, keys: seq<string>, notes: Notes)
    requires Whole(mode) && Within(c, keys) && GoodNotes(notes) && AllLegible(Records(c, keys))
    ensures Load(mode, Loaded(map[], 0), FileText(Items(c, keys, notes))) == Loaded(Restored(c, keys), 0)
  {
    hide Legible, Load, FileText, Items, StoreAll, Records, AllLegible, AllContained;
    LegibleMeetAll(mode, Loaded(map[], 0), Records(c, keys));
    SaveThenLoad(mode, c, keys, notes);
  }

  /** A legible record is read and leaves every entry alone. */
  lemma LegibleIsReadable(r: Record)
    requires Legible(r)
    ensures Contained(r) && !Unreadable(r) && forall k :: LeavesAlone(r, k)
  {
    hide Seen, LineOf, SkipSpaces, Skipped, ParseLine, LineText, IsHelp;
    var l := r.line;
    LineRoundTrip(l, "");
    assert LineText(l) + "\n" + "" == LineEnd(l);
    NoHelpLine(l);
  }

  /** The help text that an entry of another project's cache gets. */
  function ImportedHelp(key: string, path: string): string {
    "DO NOT EDIT, " + key + " loaded from external file.  To change this value edit this file: " + path +
      "/CMakeCache.txt"
  }

  /** Of another project's cache an entry is stored unless it is excluded, or internal and not included; it is stored as
      an internal entry, and no other entry changes. */
  lemma ForeignRecord(mode: Mode, c: Loaded, r: Record, k: string)
    requires !mode.internal && Legible(r) && Owner(r.line.key).None?
    ensures Slot(Meet(mode, c, r).cache, k) ==
            if k != r.line.key || k in mode.excludes || (r.line.kind.Internal? &&
              k !in mode.includes) then Slot(c.cache, k)
            else Some(Entry(UpToNewline(r.line.value), Internal, Some(ImportedHelp(k, mode.path)), NONE, true))
  {
    hide Owner, UpToNewline, RereadHelp, LookedAt, ParseLine, Skipped, Legible;
    LegibleIsParsed(r);
    var l := ParseLine(LookedAt(r)).value;
    assert Imported(mode, Record(RereadHelp(r.help), l)).help == ImportedHelp(l.key, mode.path);
  }

  /** Of the project's own cache an entry is stored as it is unless it is excluded. */
  lemma OwnRecord(mode: Mode, c: Loaded, r: Record)
    requires mode.internal && Legible(r)
    ensures Meet(mode, c, r) ==
            if r.line.key in mode.excludes then c else c.(cache := Store(c.cache, AsRead(r)))
  {
    hide Store, RereadHelp;
    LegibleIsParsed(r);
  }

  lemma LegibleIsParsed(r: Record)
    requires Legible(r)
    ensures ParseLine(LookedAt(r)) == Some(r.line.(value := UpToNewline(r.line.value)))
    ensures !(r.help == "" && Skipped(LookedAt(r)))
  {
    hide Seen, LineOf, SkipSpaces, Skipped, ParseLine, LineText;
    LineRoundTrip(r.line, "");
    assert LineText(r.line) + "\n" + "" == LineEnd(r.line);
  }

  /** Blanks before a line are skipped, and so are blank lines and comments. */
  lemma LeadingBlanks(s: string)
    requires s == "" || !(s[0] == ' ' || s[0] == '\t' || s[0] == '\r' || s[0] == '\n')
    ensures SkipSpaces(" \t\r\n" + s) == s
    ensures Skipped(s) <==> s == "" || s[0] == '#'
  {
    hide SkipSpaces;
    NoBlank(s);
    OneBlank('\n', s);
    OneBlank('\r', ['\n'] + s);
    OneBlank('\t', ['\r'] + (['\n'] + s));
    OneBlank(' ', ['\t'] + (['\r'] + (['\n'] + s)));
    assert " \t\r\n" + s == [' '] + (['\t'] + (['\r'] + (['\n'] + s)));
  }

  lemma NoBlank(s: string)
    requires s == "" || !(s[0] == ' ' || s[0] == '\t' || s[0] == '\r' || s[0] == '\n')
    ensures SkipSpaces(s) == s
  {}

  lemma OneBlank(c: char, s: string)
    requires c == ' ' || c == '\t' || c == '\r' || c == '\n'
    ensures SkipSpaces([c] + s) == SkipSpaces(s)
  {
    assert ([c] + s)[1..] == s;
  }
}
