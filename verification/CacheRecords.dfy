/**
 The records of a cache file: what saving writes for every entry and in which order, what loading makes of
 them one after the other, and which entries come back.
 */
module CacheRecords {
  import opened Wrappers
  import opened KeywordMap
  import opened CacheHelp
  import opened CacheLine

  /** The properties that are saved. */
  datatype Property = Advanced | Modified | Strings

  function PropertyName(p: Property): string {
    match p
    case Advanced => "ADVANCED"
    case Modified => "MODIFIED"
    case Strings => "STRINGS"
  }

  datatype Props = Props(advanced: Option<string>, modified: Option<string>, strings: Option<string>)

  const NONE: Props := Props(None, None, None)

  function Get(ps: Props, p: Property): Option<string> {
    match p
    case Advanced => ps.advanced
    case Modified => ps.modified
    case Strings => ps.strings
  }

  function Set(ps: Props, p: Property, v: string): Props {
    match p
    case Advanced => ps.(advanced := Some(v))
    case Modified => ps.(modified := Some(v))
    case Strings => ps.(strings := Some(v))
  }

  datatype Entry = Entry(value: string, kind: Kind, help: Option<string>, props: Props, initialized: bool)

  type Cache = map<string, Entry>

  datatype Record = Record(help: string, line: Line)

  function Slot(c: Cache, key: string): Option<Entry> {
    if key in c then Some(c[key]) else None
  }

  // Loading ---------------------------------------------------------------------------------------------

  predicate HasSuffix(key: string, p: Property) {
    var plen := |PropertyName(p)| + 1;
    |key| > plen && key[|key| - plen] == '-' && key[|key| - plen + 1..] == PropertyName(p)
  }

  function WithoutSuffix(key: string, p: Property): string
    requires HasSuffix(key, p)
  {
    key[..|key| - |PropertyName(p)| - 1]
  }

  /** The entry and the property that a key stands for, if it ends like a property's. */
  function Owner(key: string): Option<(string, Property)> {
    if HasSuffix(key, Advanced) then Some((WithoutSuffix(key, Advanced), Advanced))
    else if HasSuffix(key, Modified) then Some((WithoutSuffix(key, Modified), Modified))
    else if HasSuffix(key, Strings) then Some((WithoutSuffix(key, Strings), Strings))
    else None
  }

  /** A property set on an entry, which is made, uninitialised, when it is not there. */
  function WithProperty(e: Option<Entry>, p: Property, v: string): Option<Entry> {
    var base := if e.Some? then e.value else Entry("", Uninitialized, None, NONE, false);
    Some(base.(props := Set(base.props, p, v)))
  }

  /** What loading makes of a record. */
  function Store(c: Cache, r: Record): Cache {
    var owner := Owner(r.line.key);
    if r.line.kind.Internal? && owner.Some? then
      var (key, p) := owner.value;
      c[key := WithProperty(Slot(c, key), p, r.line.value).value]
    else c[r.line.key := Entry(r.line.value, r.line.kind, Some(r.help), NONE, true)]
  }

  /** A written record as it is read. */
  function AsRead(r: Record): Record {
    Record(RereadHelp(r.help), r.line.(value := UpToNewline(r.line.value)))
  }

  function StoreAll(c: Cache, rs: seq<Record>): Cache {
    if rs == [] then c else Store(StoreAll(c, rs[..|rs| - 1]), AsRead(rs[|rs| - 1]))
  }

  lemma {:induction false} StoreConcat(c: Cache, a: seq<Record>, b: seq<Record>)
    ensures StoreAll(c, a + b) == StoreAll(StoreAll(c, a), b)
  {
    hide Store, AsRead;
    if b == [] {
      assert a + b == a;
    } else {
      var n := |b| - 1;
      assert (a + b)[..|a| + n] == a + b[..n];
      StoreConcat(c, a, b[..n]);
    }
  }

  // Saving ----------------------------------------------------------------------------------------------

  function HelpOf(e: Entry): string {
    if e.help.Some? then e.help.value else if e.kind.Internal? then "" else "Missing description"
  }

  function EntryRecord(key: string, e: Entry): Record {
    Record(HelpOf(e), Line(key, e.kind, e.value))
  }

  function PropertyKey(key: string, p: Property): string {
    key + "-" + PropertyName(p)
  }

  function PropertyRecord(key: string, e: Entry, p: Property): seq<Record> {
    var v := Get(e.props, p);
    if v.None? then []
    else [Record(PropertyName(p) + " property for variable: " + key, Line(PropertyKey(key, p), Internal, v.value))]
  }

  function PropertyRecords(key: string, e: Entry): seq<Record> {
    PropertyRecord(key, e, Advanced) + PropertyRecord(key, e, Modified) + PropertyRecord(key, e, Strings)
  }

  function External(key: string, e: Entry): seq<Record> {
    if e.initialized && !e.kind.Internal? then [EntryRecord(key, e)] else []
  }

  function Hidden(key: string, e: Entry): seq<Record> {
    if !e.initialized then []
    else PropertyRecords(key, e) + (if e.kind.Internal? then [EntryRecord(key, e)] else [])
  }

  predicate Within(c: Cache, keys: seq<string>) {
    forall i :: 0 <= i < |keys| ==> keys[i] in c
  }

  function Externals(c: Cache, keys: seq<string>): seq<Record>
    requires Within(c, keys)
  {
    if keys == [] then []
    else
      var n := |keys| - 1;
      Externals(c, keys[..n]) + External(keys[n], c[keys[n]])
  }

  function Hiddens(c: Cache, keys: seq<string>): seq<Record>
    requires Within(c, keys)
  {
    if keys == [] then []
    else
      var n := |keys| - 1;
      Hiddens(c, keys[..n]) + Hidden(keys[n], c[keys[n]])
  }

  /** The keys of the cache in the order of its map. */
  ghost predicate Enumerates(c: Cache, keys: seq<string>) {
    && Within(c, keys)
    && (forall k :: k in c ==> k in keys)
    && (forall i, j :: 0 <= i < j < |keys| ==> Less(keys[i], keys[j]))
  }

  /** The external entries come first, then the properties and the internal entries. */
  function Records(c: Cache, keys: seq<string>): seq<Record>
    requires Within(c, keys)
  {
    Externals(c, keys) + Hiddens(c, keys)
  }

  // Keys of properties ----------------------------------------------------------------------------------

  lemma OwnerOfPropertyKey(key: string, p: Property)
    requires key != ""
    ensures Owner(PropertyKey(key, p)) == Some((key, p))
  {
    var s := PropertyKey(key, p);
    var plen := |PropertyName(p)| + 1;
    assert s[|key|] == '-' && s[|key| + 1..] == PropertyName(p) && s[..|key|] == key;
    assert HasSuffix(s, p) && WithoutSuffix(s, p) == key;
    if p.Strings? {
      assert s[|s| - 1] == 'S';
      NoOther(s, Advanced, 'D');
      NoOther(s, Modified, 'D');
    } else {
      assert s[|s| - 1] == 'D';
      NoOther(s, Strings, 'S');
    }
  }

  lemma NoOther(s: string, p: Property, last: char)
    requires PropertyName(p)[|PropertyName(p)| - 1] == last && s != "" && s[|s| - 1] != last
    ensures !HasSuffix(s, p)
  {
    var n := |PropertyName(p)|;
    assert |s| > n + 1 ==> s[|s| - n..][n - 1] == s[|s| - 1];
  }

  lemma KeyOfOwner(key: string)
    ensures Owner(key).Some? ==> Owner(key).value.0 != "" && key == PropertyKey(Owner(key).value.0, Owner(key).value.1)
  {
    if Owner(key).Some? {
      var (k, p) := Owner(key).value;
      SuffixSplits(key, p);
    }
  }

  lemma SuffixSplits(key: string, p: Property)
    requires HasSuffix(key, p)
    ensures key == PropertyKey(WithoutSuffix(key, p), p)
  {
    hide PropertyName;
    var n := |key| - |PropertyName(p)| - 1;
    assert key == key[..n] + [key[n]] + key[n + 1..];
  }

  /** The properties of an entry without a name make entries of their own. */
  lemma OwnerOfNothing(p: Property)
    ensures Owner(PropertyKey("", p)) == None
  {}

  lemma {:induction false} PrefixLess(a: string, b: string)
    requires b != ""
    ensures Less(a, a + b)
  {
    if a != "" {
      assert (a + b)[1..] == a[1..] + b;
      PrefixLess(a[1..], b);
    }
  }

  // One key's records -----------------------------------------------------------------------------------

  /** The entry that a record of its own makes. */
  function Fresh(e: Entry): Entry {
    Entry(UpToNewline(e.value), e.kind, Some(RereadHelp(HelpOf(e))), NONE, true)
  }

  function Short(v: Option<string>): Option<string> {
    if v.Some? then Some(UpToNewline(v.value)) else None
  }

  /** What the record of property `p` of `j` does to the entry `k`. */
  function AfterProperty(j: string, e: Entry, p: Property, k: string, slot: Option<Entry>): Option<Entry> {
    var v := Short(Get(e.props, p));
    if v.None? then slot
    else if j != "" then if k == j then WithProperty(slot, p, v.value) else slot
    else if k == PropertyKey("", p) then
      Some(Entry(v.value, Internal, Some(RereadHelp(PropertyName(p) + " property for variable: ")), NONE, true))
    else slot
  }

  lemma PropertyEffect(c: Cache, j: string, e: Entry, p: Property, k: string)
    ensures Slot(StoreAll(c, PropertyRecord(j, e, p)), k) == AfterProperty(j, e, p, k, Slot(c, k))
  {
    hide Owner, RereadHelp, UpToNewline, PropertyKey, PropertyName;
    var rs := PropertyRecord(j, e, p);
    if rs != [] {
      assert StoreAll(c, rs) == Store(StoreAll(c, rs[..0]), AsRead(rs[0]));
      assert StoreAll(c, rs[..0]) == c;
      if j == "" {
        OwnerOfNothing(p);
        assert PropertyName(p) + " property for variable: " + j == PropertyName(p) + " property for variable: ";
      } else {
        OwnerOfPropertyKey(j, p);
      }
    }
  }

  function AfterProperties(j: string, e: Entry, k: string, slot: Option<Entry>): Option<Entry> {
    AfterProperty(j, e, Strings, k, AfterProperty(j, e, Modified, k, AfterProperty(j, e, Advanced, k, slot)))
  }

  lemma PropertiesEffect(c: Cache, j: string, e: Entry, k: string)
    ensures Slot(StoreAll(c, PropertyRecords(j, e)), k) == AfterProperties(j, e, k, Slot(c, k))
  {
    hide Slot, AfterProperty, PropertyRecord, StoreAll;
    var a, b, d := PropertyRecord(j, e, Advanced), PropertyRecord(j, e, Modified), PropertyRecord(j, e, Strings);
    StoreConcat(c, a + b, d);
    StoreConcat(c, a, b);
    PropertyEffect(c, j, e, Advanced, k);
    PropertyEffect(StoreAll(c, a), j, e, Modified, k);
    PropertyEffect(StoreAll(StoreAll(c, a), b), j, e, Strings, k);
  }

  /** What the record of an internal entry `j` does to the entry `k`. */
  function AfterInternal(j: string, e: Entry, k: string, slot: Option<Entry>): Option<Entry> {
    if Owner(j).Some? then
      if k == Owner(j).value.0 then WithProperty(slot, Owner(j).value.1, UpToNewline(e.value)) else slot
    else if k == j then Some(Fresh(e))
    else slot
  }

  lemma EntryEffect(c: Cache, j: string, e: Entry, k: string)
    requires e.initialized
    ensures Slot(StoreAll(c, [EntryRecord(j, e)]), k)
            == if e.kind.Internal? then AfterInternal(j, e, k, Slot(c, k))
               else if k == j then Some(Fresh(e)) else Slot(c, k)
  {
    hide Owner, RereadHelp, UpToNewline, HelpOf;
    var rs := [EntryRecord(j, e)];
    assert StoreAll(c, rs) == Store(StoreAll(c, rs[..0]), AsRead(rs[0]));
    assert StoreAll(c, rs[..0]) == c;
  }

  function AfterHidden(j: string, e: Entry, k: string, slot: Option<Entry>): Option<Entry> {
    if !e.initialized then slot
    else
      var s := AfterProperties(j, e, k, slot);
      if e.kind.Internal? then AfterInternal(j, e, k, s) else s
  }

  lemma HiddenEffect(c: Cache, j: string, e: Entry, k: string)
    ensures Slot(StoreAll(c, Hidden(j, e)), k) == AfterHidden(j, e, k, Slot(c, k))
  {
    hide Slot, PropertyRecords, EntryRecord, AfterProperties, AfterInternal;
    if e.initialized {
      PropertiesEffect(c, j, e, k);
      var rest := if e.kind.Internal? then [EntryRecord(j, e)] else [];
      StoreConcat(c, PropertyRecords(j, e), rest);
      if e.kind.Internal? {
        EntryEffect(StoreAll(c, PropertyRecords(j, e)), j, e, k);
      }
    }
  }

  /** After the external records there are the external entries, without properties. */
  lemma {:induction false} ExternalsEffect(c: Cache, keys: seq<string>, k: string)
    requires Within(c, keys)
    ensures Slot(StoreAll(map[], Externals(c, keys)), k)
            == if k in keys && c[k].initialized && !c[k].kind.Internal? then Some(Fresh(c[k])) else None
  {
    hide Fresh, EntryRecord, Store, AsRead;
    if keys != [] {
      var n := |keys| - 1;
      ExternalsEffect(c, keys[..n], k);
      var j := keys[n];
      assert keys == keys[..n] + [j];
      var d := StoreAll(map[], Externals(c, keys[..n]));
      StoreConcat(map[], Externals(c, keys[..n]), External(j, c[j]));
      if External(j, c[j]) != [] {
        EntryEffect(d, j, c[j], k);
      }
    }
  }

  // Which entries come back -----------------------------------------------------------------------------

  /** An internal entry whose key reads as the property `p` of `k`. */
  predicate Intruder(c: Cache, k: string, p: Property) {
    var key := PropertyKey(k, p);
    k != "" && key in c && c[key].initialized && c[key].kind.Internal?
  }

  /** `k` is the key under which property `p` of the entry without a name is written. */
  predicate OverrunBy(c: Cache, k: string, p: Property) {
    "" in c && c[""].initialized && Get(c[""].props, p).Some? && k == PropertyKey("", p)
  }

  predicate Overrun(c: Cache, k: string) {
    OverrunBy(c, k, Advanced) || OverrunBy(c, k, Modified) || OverrunBy(c, k, Strings)
  }

  /** The entry is read as an entry, and stays one. */
  predicate Stands(c: Cache, k: string) {
    k in c && c[k].initialized && if c[k].kind.Internal? then Owner(k).None? else !Overrun(c, k)
  }

  /** Property `p` of `k` once the hidden records of the keys `done` are stored. */
  function PropertyAt(c: Cache, done: seq<string>, k: string, p: Property): Option<string>
    requires k in c
  {
    if Intruder(c, k, p) && PropertyKey(k, p) in done then Some(UpToNewline(c[PropertyKey(k, p)].value))
    else if k in done && k != "" && !c[k].kind.Internal? then Short(Get(c[k].props, p))
    else None
  }

  function EntryAt(c: Cache, done: seq<string>, k: string): Entry
    requires k in c
  {
    Fresh(c[k]).(props := Props(PropertyAt(c, done, k, Advanced), PropertyAt(c, done, k, Modified),
                                PropertyAt(c, done, k, Strings)))
  }

  predicate StandsAt(c: Cache, done: seq<string>, k: string, slot: Option<Entry>)
    requires k in c
  {
    (c[k].kind.Internal? ==> k in done) ==> slot == Some(EntryAt(c, done, k))
  }

  lemma SortedBefore(c: Cache, keys: seq<string>, n: nat, k: string)
    requires Enumerates(c, keys) && n < |keys| && (k == keys[n] || Less(keys[n], k))
    ensures k !in keys[..n]
  {
    if k in keys[..n] {
      var i :| 0 <= i < n && keys[i] == k;
      assert Less(keys[i], keys[n]);
      if Less(keys[n], k) {
        LessTransitive(k, keys[n], k);
      }
      LessIrreflexive(k);
      assert false;
    }
  }

  lemma PropertyKeysAreLater(c: Cache, keys: seq<string>, n: nat, p: Property)
    requires Enumerates(c, keys) && n < |keys|
    ensures PropertyKey(keys[n], p) !in keys[..n] && PropertyKey(keys[n], p) != keys[n]
  {
    var k := keys[n];
    assert PropertyKey(k, p) == k + ("-" + PropertyName(p));
    PrefixLess(k, "-" + PropertyName(p));
    SortedBefore(c, keys, n, PropertyKey(k, p));
  }

  lemma OwnStep(c: Cache, keys: seq<string>, n: nat, slot: Option<Entry>)
    requires Enumerates(c, keys) && n < |keys| && Stands(c, keys[n]) && StandsAt(c, keys[..n], keys[n], slot)
    ensures StandsAt(c, keys[..n] + [keys[n]], keys[n], AfterHidden(keys[n], c[keys[n]], keys[n], slot))
  {
    hide RereadHelp, HelpOf, UpToNewline, PropertyKey, Owner, Less;
    var k := keys[n];
    SortedBefore(c, keys, n, k);
    PropertyKeysAreLater(c, keys, n, Advanced);
    PropertyKeysAreLater(c, keys, n, Modified);
    PropertyKeysAreLater(c, keys, n, Strings);
    PropertiesHaveKeys();
  }

  lemma PropertiesHaveKeys()
    ensures forall p :: PropertyKey("", p) != ""
  {}

  lemma PropertyStep(c: Cache, done: seq<string>, j: string, k: string, p: Property)
    requires k in c && j != k
    ensures PropertyAt(c, done + [j], k, p)
            == if Intruder(c, k, p) && j == PropertyKey(k, p) then Some(UpToNewline(c[j].value))
               else PropertyAt(c, done, k, p)
  {
    hide UpToNewline, PropertyKey;
  }

  lemma OtherStep(c: Cache, keys: seq<string>, n: nat, k: string, slot: Option<Entry>)
    requires Enumerates(c, keys) && n < |keys| && k != keys[n]
    requires Stands(c, k) && StandsAt(c, keys[..n], k, slot)
    ensures StandsAt(c, keys[..n] + [keys[n]], k, AfterHidden(keys[n], c[keys[n]], k, slot))
  {
    hide Fresh, UpToNewline, PropertyKey, Owner, Less, PropertyAt, AfterProperties, Overrun, Enumerates;
    var j, done := keys[n], keys[..n];
    assert k in done + [j] <==> k in done;
    if c[k].kind.Internal? ==> k in done {
      PropertyStep(c, done, j, k, Advanced);
      PropertyStep(c, done, j, k, Modified);
      PropertyStep(c, done, j, k, Strings);
      OwnersOf(j, k);
      assert j in c by {
        InCache(c, keys, n);
      }
      if c[j].initialized {
        OthersProperties(c, keys, n, k, slot);
      }
    }
  }

  lemma InCache(c: Cache, keys: seq<string>, n: nat)
    requires Enumerates(c, keys) && n < |keys|
    ensures keys[n] in c
  {}

  /** A key reads as a property of another exactly when it is that property's key. */
  lemma OwnersOf(j: string, k: string)
    ensures forall p :: Owner(j) == Some((k, p)) <==> k != "" && j == PropertyKey(k, p)
  {
    hide Owner, PropertyKey;
    KeyOfOwner(j);
    forall p | k != "" && j == PropertyKey(k, p) ensures Owner(j) == Some((k, p)) {
      OwnerOfPropertyKey(k, p);
    }
  }

  lemma OthersProperties(c: Cache, keys: seq<string>, n: nat, k: string, slot: Option<Entry>)
    requires Enumerates(c, keys) && n < |keys| && k != keys[n] && c[keys[n]].initialized
    requires k in c && (if c[k].kind.Internal? then k in keys[..n] else !Overrun(c, k))
    ensures AfterProperties(keys[n], c[keys[n]], k, slot) == slot
  {
    hide RereadHelp, UpToNewline, PropertyKey;
    if keys[n] == "" && c[k].kind.Internal? {
      SortedBefore(c, keys, n, k);
      assert false;
    }
  }

  lemma HiddensStep(c: Cache, keys: seq<string>, n: nat, d: Cache, k: string)
    requires Within(c, keys) && n < |keys|
    ensures Slot(StoreAll(d, Hiddens(c, keys[..n + 1])), k)
            == AfterHidden(keys[n], c[keys[n]], k, Slot(StoreAll(d, Hiddens(c, keys[..n])), k))
    ensures keys[..n + 1] == keys[..n] + [keys[n]]
  {
    hide Slot, AfterHidden, Hidden, Store;
    var done, j := keys[..n], keys[n];
    assert keys[..n + 1][..n] == done;
    StoreConcat(d, Hiddens(c, done), Hidden(j, c[j]));
    HiddenEffect(StoreAll(d, Hiddens(c, done)), j, c[j], k);
  }

  lemma HiddensNone(c: Cache, keys: seq<string>, d: Cache)
    requires Within(c, keys)
    ensures keys[..0] == [] && StoreAll(d, Hiddens(c, keys[..0])) == d
  {}

  /** After the hidden records of any number of keys the entry is what these keys make of it. */
  lemma {:induction false} HiddensEffect(c: Cache, keys: seq<string>, n: nat, d: Cache, k: string)
    requires Enumerates(c, keys) && n <= |keys| && k in c && Stands(c, k)
    requires !c[k].kind.Internal? ==> Slot(d, k) == Some(Fresh(c[k]))
    ensures StandsAt(c, keys[..n], k, Slot(StoreAll(d, Hiddens(c, keys[..n])), k))
  {
    hide Slot, Stands, AfterHidden, Hiddens, StoreAll, EntryAt, Fresh, Less, Records;
    if n == 0 {
      NothingDone(c, k);
      HiddensNone(c, keys, d);
    } else {
      HiddensEffect(c, keys, n - 1, d, k);
      HiddensStep(c, keys, n - 1, d, k);
      var b := StoreAll(d, Hiddens(c, keys[..n - 1]));
      if keys[n - 1] == k {
        OwnStep(c, keys, n - 1, Slot(b, k));
      } else {
        OtherStep(c, keys, n - 1, k, Slot(b, k));
      }
    }
  }

  lemma NothingDone(c: Cache, k: string)
    requires k in c
    ensures EntryAt(c, [], k) == Fresh(c[k])
  {}

  function Restored(c: Cache, keys: seq<string>): Cache
    requires Within(c, keys)
  {
    StoreAll(map[], Records(c, keys))
  }

  /** What every entry that stands is after saving and loading. */
  lemma Reload(c: Cache, keys: seq<string>, k: string)
    requires Enumerates(c, keys) && Stands(c, k)
    ensures Slot(Restored(c, keys), k) == Some(EntryAt(c, keys, k))
  {
    hide EntryAt, Fresh, Slot;
    var d := StoreAll(map[], Externals(c, keys));
    ExternalsEffect(c, keys, k);
    HiddensEffect(c, keys, |keys|, d, k);
    assert keys[..|keys|] == keys;
    StoreConcat(map[], Externals(c, keys), Hiddens(c, keys));
  }

  /** An internal entry with a property's key is at most a trace of its own properties; an overrun entry has
      become internal. */
  predicate Fallen(c: Cache, n: nat, k: string, slot: Option<Entry>)
    requires k in c
  {
    if c[k].kind.Internal? then slot.None? || !slot.value.initialized
    else n > 0 ==> slot.Some? && slot.value.kind.Internal?
  }

  lemma FallenStep(c: Cache, keys: seq<string>, n: nat, k: string, slot: Option<Entry>)
    requires Enumerates(c, keys) && n < |keys| && k in c && c[k].initialized && !Stands(c, k)
    requires Fallen(c, n, k, slot)
    ensures Fallen(c, n + 1, k, AfterHidden(keys[n], c[keys[n]], k, slot))
  {
    hide Less, AfterHidden, OverrunBy, Owner;
    if c[k].kind.Internal? {
      InternalStep(keys[n], c[keys[n]], k, slot);
    } else {
      if n == 0 {
        assert "" in c by {
          OverrunHasNameless(c, k);
        }
        NamelessIsFirst(c, keys);
      }
      OverrunStep(c, keys[n], k, slot);
    }
  }

  lemma InternalStep(j: string, e: Entry, k: string, slot: Option<Entry>)
    requires Owner(k).Some? && (slot.None? || !slot.value.initialized)
    ensures var s := AfterHidden(j, e, k, slot); s.None? || !s.value.initialized
  {
    hide RereadHelp, UpToNewline, PropertyKey, Owner;
    OwnerOfNothing(Advanced);
    OwnerOfNothing(Modified);
    OwnerOfNothing(Strings);
  }

  lemma OverrunStep(c: Cache, j: string, k: string, slot: Option<Entry>)
    requires j in c && k in c && !c[k].kind.Internal? && Overrun(c, k)
    requires j == "" || (slot.Some? && slot.value.kind.Internal?)
    ensures var s := AfterHidden(j, c[j], k, slot); s.Some? && s.value.kind.Internal?
  {
    hide RereadHelp, UpToNewline, PropertyKey, Owner;
    PropertyKeysNotEmpty();
    KeyOfOwner("");
  }

  lemma OverrunHasNameless(c: Cache, k: string)
    requires Overrun(c, k)
    ensures "" in c
  {}

  lemma PropertyKeysNotEmpty()
    ensures forall k, p :: PropertyKey(k, p) != ""
  {}

  lemma NamelessIsFirst(c: Cache, keys: seq<string>)
    requires Enumerates(c, keys) && "" in c
    ensures keys != [] && keys[0] == ""
  {
    var i :| 0 <= i < |keys| && keys[i] == "";
    assert i > 0 ==> Less(keys[0], keys[i]);
  }

  lemma {:induction false} HiddensFallen(c: Cache, keys: seq<string>, n: nat, d: Cache, k: string)
    requires Enumerates(c, keys) && n <= |keys| && k in c && c[k].initialized && !Stands(c, k)
    requires c[k].kind.Internal? ==> Slot(d, k) == None
    ensures Fallen(c, n, k, Slot(StoreAll(d, Hiddens(c, keys[..n])), k))
  {
    hide Slot, Stands, AfterHidden, Hiddens, StoreAll, Less, Records;
    if n == 0 {
      HiddensNone(c, keys, d);
    } else {
      HiddensFallen(c, keys, n - 1, d, k);
      HiddensStep(c, keys, n - 1, d, k);
      FallenStep(c, keys, n - 1, k, Slot(StoreAll(d, Hiddens(c, keys[..n - 1])), k));
    }
  }

  /** An initialised entry that does not stand is not there any more, or is not initialised, or has become
      internal. */
  lemma Fall(c: Cache, keys: seq<string>, k: string)
    requires Enumerates(c, keys) && k in c && c[k].initialized && !Stands(c, k)
    ensures var slot := Slot(Restored(c, keys), k);
            if c[k].kind.Internal? then slot.None? || !slot.value.initialized
            else slot.Some? && slot.value.kind.Internal?
  {
    hide Fresh, Slot, Stands, Less;
    var d := StoreAll(map[], Externals(c, keys));
    ExternalsEffect(c, keys, k);
    HiddensFallen(c, keys, |keys|, d, k);
    assert keys[..|keys|] == keys;
    StoreConcat(map[], Externals(c, keys), Hiddens(c, keys));
  }

  lemma {:induction false} HiddensNothingNew(c: Cache, keys: seq<string>, n: nat, d: Cache, k: string)
    requires Enumerates(c, keys) && n <= |keys| && (k in c ==> !c[k].initialized) && !Overrun(c, k)
    requires Slot(d, k) == None
    ensures var slot := Slot(StoreAll(d, Hiddens(c, keys[..n])), k); slot.None? || !slot.value.initialized
  {
    hide Slot, Hiddens, StoreAll, Less, Records, AfterHidden, Overrun;
    if n == 0 {
      HiddensNone(c, keys, d);
    } else {
      HiddensNothingNew(c, keys, n - 1, d, k);
      HiddensStep(c, keys, n - 1, d, k);
      NothingNewStep(c, keys[n - 1], k, Slot(StoreAll(d, Hiddens(c, keys[..n - 1])), k));
    }
  }

  lemma NothingNewStep(c: Cache, j: string, k: string, slot: Option<Entry>)
    requires j in c && (k in c ==> !c[k].initialized) && !Overrun(c, k)
    requires slot.None? || !slot.value.initialized
    ensures var s := AfterHidden(j, c[j], k, slot); s.None? || !s.value.initialized
  {
    hide Owner, PropertyKey, UpToNewline, RereadHelp;
  }

  /** Nothing else becomes an initialised entry. */
  lemma NothingNew(c: Cache, keys: seq<string>, k: string)
    requires Enumerates(c, keys) && (k in c ==> !c[k].initialized) && !Overrun(c, k)
    ensures var slot := Slot(Restored(c, keys), k); slot.None? || !slot.value.initialized
  {
    hide Fresh, Slot, Less;
    var d := StoreAll(map[], Externals(c, keys));
    ExternalsEffect(c, keys, k);
    HiddensNothingNew(c, keys, |keys|, d, k);
    assert keys[..|keys|] == keys;
    StoreConcat(map[], Externals(c, keys), Hiddens(c, keys));
  }

  /** The entry as it should come back: type, help text and properties, with texts up to the first newline. */
  function Expected(e: Entry): Entry {
    e.(value := UpToNewline(e.value), help := Some(HelpOf(e)),
       props := Props(Short(e.props.advanced), Short(e.props.modified), Short(e.props.strings)))
  }

  /** A property is kept when no other entry claims to be that property with another value, and the records of
      the entry itself neither overwrite it nor write it as an entry. */
  predicate PropertyKept(c: Cache, k: string, p: Property)
    requires k in c
  {
    var v := Short(Get(c[k].props, p));
    if Intruder(c, k, p) then v == Some(UpToNewline(c[PropertyKey(k, p)].value))
    else v.None? || (!c[k].kind.Internal? && k != "")
  }

  predicate PropertiesKept(c: Cache, k: string)
    requires k in c
  {
    PropertyKept(c, k, Advanced) && PropertyKept(c, k, Modified) && PropertyKept(c, k, Strings)
  }

  lemma PropertyKeptIff(c: Cache, keys: seq<string>, k: string, p: Property)
    requires Enumerates(c, keys) && k in c
    ensures PropertyAt(c, keys, k, p) == Short(Get(c[k].props, p)) <==> PropertyKept(c, k, p)
  {
    hide UpToNewline, PropertyKey;
  }

  /** Saving and loading a cache gives an initialised entry back exactly when its help text survives, the
      entry stands, and its properties are kept. */
  lemma ComesBackIff(c: Cache, keys: seq<string>, k: string)
    requires Enumerates(c, keys) && k in c && c[k].initialized
    ensures Slot(Restored(c, keys), k) == Some(Expected(c[k]))
            <==> HelpKept(HelpOf(c[k])) && Stands(c, k) && PropertiesKept(c, k)
  {
    hide Stands, Restored, HelpKept, Enumerates, PropertyKept, PropertyAt, Slot, RereadHelp, UpToNewline;
    if Stands(c, k) {
      Reload(c, keys, k);
      HelpRoundTrip(HelpOf(c[k]));
      PropertyKeptIff(c, keys, k, Advanced);
      PropertyKeptIff(c, keys, k, Modified);
      PropertyKeptIff(c, keys, k, Strings);
    } else {
      Fall(c, keys, k);
    }
  }

  predicate NoPropertyKeys(c: Cache) {
    forall k :: k in c && c[k].initialized && c[k].kind.Internal? ==> Owner(k).None?
  }

  /** Without internal entries that look like properties, and with names, every visible entry comes back, and an
      internal entry exactly when it has no properties. */
  lemma WithoutPropertyKeys(c: Cache, keys: seq<string>, k: string)
    requires Enumerates(c, keys) && NoPropertyKeys(c) && "" !in c
    requires k in c && c[k].initialized && HelpKept(HelpOf(c[k]))
    ensures Slot(Restored(c, keys), k) == Some(Expected(c[k])) <==> !c[k].kind.Internal? || c[k].props == NONE
  {
    hide HelpKept, Enumerates, Slot, Restored, UpToNewline, HelpOf, Owner, PropertyKey;
    ComesBackIff(c, keys, k);
    assert k != "";
    OwnerOfPropertyKey(k, Advanced);
    OwnerOfPropertyKey(k, Modified);
    OwnerOfPropertyKey(k, Strings);
  }

  /** The keys under which properties are saved. */
  lemma PropertyKeysAre(key: string)
    ensures PropertyKey(key, Advanced) == key + "-ADVANCED"
    ensures PropertyKey(key, Modified) == key + "-MODIFIED"
    ensures PropertyKey(key, Strings) == key + "-STRINGS"
  {
    assert key + "-" + "ADVANCED" == key + "-ADVANCED";
    assert key + "-" + "MODIFIED" == key + "-MODIFIED";
    assert key + "-" + "STRINGS" == key + "-STRINGS";
  }

  /** A visible entry without a help text gets one when it is saved, an internal one does not. */
  lemma MissingHelp(key: string, e: Entry)
    requires e.help.None? && e.initialized
    ensures !e.kind.Internal? ==> External(key, e) == [Record("Missing description", Line(key, e.kind, e.value))]
    ensures e.kind.Internal? && e.props == NONE ==> Hidden(key, e) == [Record("", Line(key, Internal, e.value))]
  {}

  // Saving and loading, written out -------------------------------------------------------------------------

  /** The record of an entry itself. */
  ghost predicate IsEntryRecord(k: string, e: Entry, r: Record) {
    && r.line == Line(k, e.kind, e.value)
    && r.help == (if e.help.Some? then e.help.value else if e.kind.Internal? then "" else "Missing description")
  }

  /** The record of a property of that name. */
  ghost predicate IsRecordOfProperty(k: string, name: string, v: Option<string>, r: Record) {
    v.Some? && r == Record(name + " property for variable: " + k, Line(k + "-" + name, Internal, v.value))
  }

  /** The record of a property of an entry. */
  ghost predicate IsPropertyRecord(k: string, e: Entry, r: Record) {
    || IsRecordOfProperty(k, "ADVANCED", e.props.advanced, r)
    || IsRecordOfProperty(k, "MODIFIED", e.props.modified, r)
    || IsRecordOfProperty(k, "STRINGS", e.props.strings, r)
  }

  lemma PropertyRecordIs(k: string, e: Entry, p: Property, r: Record)
    ensures r in PropertyRecord(k, e, p) <==> IsRecordOfProperty(k, PropertyName(p), Get(e.props, p), r)
  {
    hide PropertyName;
  }

  lemma PropertyRecordsAre(k: string, e: Entry, r: Record)
    ensures r in PropertyRecords(k, e) <==> IsPropertyRecord(k, e, r)
  {
    hide PropertyRecord, IsRecordOfProperty;
    PropertyRecordIs(k, e, Advanced, r);
    PropertyRecordIs(k, e, Modified, r);
    PropertyRecordIs(k, e, Strings, r);
  }

  lemma RecordsOfKey(k: string, e: Entry, r: Record)
    ensures r in External(k, e) <==> e.initialized && !e.kind.Internal? && IsEntryRecord(k, e, r)
    ensures r in Hidden(k, e) <==>
            e.initialized && (IsPropertyRecord(k, e, r) || (e.kind.Internal? && IsEntryRecord(k, e, r)))
  {
    hide PropertyRecords, IsPropertyRecord;
    PropertyRecordsAre(k, e, r);
  }

  ghost predicate RecordOf(c: Cache, k: string, r: Record) {
    k in c && c[k].initialized && (IsEntryRecord(k, c[k], r) || IsPropertyRecord(k, c[k], r))
  }

  ghost predicate SomeRecordOf(c: Cache, keys: seq<string>, r: Record) {
    exists k :: k in keys && RecordOf(c, k, r)
  }

  lemma SomeRecordNext(c: Cache, keys: seq<string>, r: Record)
    requires keys != []
    ensures var n := |keys| - 1; SomeRecordOf(c, keys, r) <==> SomeRecordOf(c, keys[..n], r) || RecordOf(c, keys[n], r)
  {
    hide RecordOf;
    var n := |keys| - 1;
    assert forall k :: k in keys <==> k in keys[..n] || k == keys[n];
  }

  /** The records of these keys are, for each initialised entry, its own and those of all its properties. */
  lemma {:induction false} RecordsAre(c: Cache, keys: seq<string>, r: Record)
    requires Within(c, keys)
    ensures r in Records(c, keys) <==> SomeRecordOf(c, keys, r)
  {
    hide External, Hidden, IsEntryRecord, IsPropertyRecord, SomeRecordOf;
    if keys == [] {
      NoRecordOf(c, r);
    } else {
      var n := |keys| - 1;
      var j := keys[n];
      RecordsAre(c, keys[..n], r);
      RecordsOfKey(j, c[j], r);
      SomeRecordNext(c, keys, r);
      assert r in Records(c, keys) <==> r in Records(c, keys[..n]) || r in External(j, c[j]) || r in Hidden(j, c[j]);
    }
  }

  lemma NoRecordOf(c: Cache, r: Record)
    ensures !SomeRecordOf(c, [], r)
  {}

  /** A property is stored with its entry, which is made, uninitialised, if it is not there; nothing else changes. */
  lemma StoreProperty(c: Cache, k: string, p: Property, v: string, help: string)
    requires k != ""
    ensures var e := if k in c then c[k] else Entry("", Uninitialized, None, NONE, false);
            Store(c, Record(help, Line(PropertyKey(k, p), Internal, v))) ==
            c[k := e.(props := match p
                               case Advanced => e.props.(advanced := Some(v))
                               case Modified => e.props.(modified := Some(v))
                               case Strings => e.props.(strings := Some(v)))]
  {
    hide Owner, PropertyKey;
    OwnerOfPropertyKey(k, p);
  }

  /** Any other record becomes an initialised entry with its help text and no properties, in place of what was there. */
  lemma StoreEntry(c: Cache, r: Record)
    requires !r.line.kind.Internal? || Owner(r.line.key).None?
    ensures Store(c, r) == c[r.line.key := Entry(r.line.value, r.line.kind, Some(r.help), Props(None, None, None),
            true)]
  {}
}
