/** The line of a cache entry, `KEY:TYPE=VALUE`: how it is written, and how it is parsed again. */
module CacheLine {
  import opened Wrappers
  import opened Text
  import opened CacheHelp

  datatype Kind = Bool | Path | FilePath | String | Internal | Static | Uninitialized

  function KindName(k: Kind): string {
    match k
    case Bool => "BOOL"
    case Path => "PATH"
    case FilePath => "FILEPATH"
    case String => "STRING"
    case Internal => "INTERNAL"
    case Static => "STATIC"
    case Uninitialized => "UNINITIALIZED"
  }

  /** The type of that name; an unknown name means a string. */
  function KindNamed(s: string): Kind {
    if s == "BOOL" then Bool else if s == "PATH" then Path else if s == "FILEPATH" then FilePath
    else if s == "INTERNAL" then Internal else if s == "STATIC" then Static
    else if s == "UNINITIALIZED" then Uninitialized else String
  }

  lemma KindRoundTrip(k: Kind)
    ensures KindNamed(KindName(k)) == k
  {}

  lemma KindLetters(k: Kind)
    ensures '=' !in KindName(k) && NUL !in KindName(k) && '\n' !in KindName(k)
  {}

  datatype Line = Line(key: string, kind: Kind, value: string)

  // Writing ---------------------------------------------------------------------------------------------

  predicate NeedsQuotes(key: string) {
    ':' in key || IsHelp(key)
  }

  function KeyText(key: string): string {
    if NeedsQuotes(key) then "\"" + key + "\"" else key
  }

  function UpToNewline(value: string): string {
    value[..IndexOf(value, '\n')]
  }

  /** Trailing blanks are protected by quotes. */
  function ValueText(v: string): string {
    if v != "" && (v[|v| - 1] == ' ' || v[|v| - 1] == '\t') then "'" + v + "'" else v
  }

  function Head(key: string, kind: Kind): string {
    KeyText(key) + ":" + KindName(kind) + "="
  }

  function LineText(l: Line): string {
    Head(l.key, l.kind) + ValueText(UpToNewline(l.value))
  }

  // Parsing ---------------------------------------------------------------------------------------------

  predicate Blank(c: char) {
    c == ' ' || c == '\t' || c == '\r'
  }

  function StripTail(s: string): string {
    if s != "" && Blank(s[|s| - 1]) then StripTail(s[..|s| - 1]) else s
  }

  /** The value without trailing blanks; a value of blanks only stays. */
  function Strip(s: string): string {
    if StripTail(s) == "" then s else StripTail(s)
  }

  predicate InQuotes(v: string) {
    |v| >= 2 && v[0] == '\'' && v[|v| - 1] == '\''
  }

  function Unquote(v: string): string {
    if InQuotes(v) then v[1..|v| - 1] else v
  }

  function Value(s: string): string {
    Unquote(Strip(s))
  }

  /** A type and a value, after the colon. */
  function Typed(key: string, s: string): Option<Line> {
    var e := IndexOf(s, '=');
    if e < |s| then Some(Line(key, KindNamed(s[..e]), Value(s[e + 1..]))) else None
  }

  /** A key in double quotes, with `mark` after it: the key and what follows the mark. */
  function QuotedKey(s: string, mark: char): Option<(string, string)> {
    if s == "" || s[0] != '"' then None
    else
      var t := s[1..];
      var q := IndexOf(t, '"');
      if q + 1 < |t| && t[q + 1] == mark then Some((t[..q], t[q + 2..])) else None
  }

  /** `"key":type=value` */
  function MatchQuoted(s: string): Option<Line> {
    var k := QuotedKey(s, ':');
    if k.Some? then Typed(k.value.0, k.value.1) else None
  }

  /** `key:type=value` */
  function MatchPlain(s: string): Option<Line> {
    var c := IndexOf(s, ':');
    if c < |s| && '=' !in s[..c] then Typed(s[..c], s[c + 1..]) else None
  }

  /** `"key"=value` or `key=value` */
  function MatchUntyped(s: string): Option<Line> {
    var k, e := QuotedKey(s, '='), IndexOf(s, '=');
    if k.Some? then Some(Line(k.value.0, Uninitialized, Value(k.value.1)))
    else if e < |s| then Some(Line(s[..e], Uninitialized, Value(s[e + 1..])))
    else None
  }

  function ParseLine(s: string): Option<Line> {
    if MatchQuoted(s).Some? then MatchQuoted(s)
    else if MatchPlain(s).Some? then MatchPlain(s)
    else MatchUntyped(s)
  }

  // The value -------------------------------------------------------------------------------------------

  predicate ValueKept(v: string) {
    NUL !in v && (v == "" || v[|v| - 1] != '\r') && !InQuotes(v)
  }

  lemma {:induction false} StripTailPrefix(s: string)
    ensures |StripTail(s)| <= |s| && StripTail(s) == s[..|StripTail(s)|]
  {
    if s != "" && Blank(s[|s| - 1]) {
      StripTailPrefix(s[..|s| - 1]);
    }
  }

  lemma ValueShort(s: string)
    ensures |Value(s)| <= |s| && forall c :: c in Value(s) ==> c in s
  {
    StripTailPrefix(s);
  }

  /** A value is read back exactly when it has no null character, no carriage return at its end and no single
      quotes around it. */
  lemma ValueRoundTrip(v: string)
    ensures Value(Seen(ValueText(v))) == v <==> ValueKept(v)
  {
    var w := ValueText(v);
    SeenShort(w);
    if NUL in v {
      NulLost(w);
    } else if v == "" {
    } else if v[|v| - 1] == '\r' {
      ValueShort(Seen(w));
    } else if w == v {
      assert Strip(w) == w;
    } else {
      assert w[|w| - 1] == '\'' && Strip(w) == w;
      assert w[1..|w| - 1] == v;
    }
  }

  lemma NulLost(w: string)
    ensures NUL !in Value(Seen(w)) && NUL !in Seen(w)
  {
    ValueShort(Seen(w));
  }

  // The key ---------------------------------------------------------------------------------------------

  lemma TypedReads(key: string, kind: Kind, r: string)
    ensures Typed(key, KindName(kind) + "=" + r) == Some(Line(key, kind, Value(r)))
  {
    hide KindName, KindNamed, Value;
    KindRoundTrip(kind);
    KindLetters(kind);
    var s := KindName(kind) + "=" + r;
    IndexOfAt(KindName(kind), '=', r);
    assert s[..|KindName(kind)|] == KindName(kind) && s[|KindName(kind)| + 1..] == r;
  }

  lemma QuotedKeyReads(key: string, rest: string)
    requires '"' !in key
    ensures QuotedKey("\"" + key + "\"" + ":" + rest, ':') == Some((key, rest))
  {
    var t := key + "\"" + (":" + rest);
    assert ("\"" + key + "\"" + ":" + rest)[1..] == t;
    IndexOfAt(key, '"', ":" + rest);
    assert t[|key| + 1] == ':' && t[..|key|] == key && t[|key| + 2..] == rest;
  }

  /** A key that is written in double quotes is found again when it has none itself. */
  lemma QuotedReads(key: string, kind: Kind, r: string)
    requires NeedsQuotes(key) && '"' !in key
    ensures MatchQuoted(Head(key, kind) + r) == Some(Line(key, kind, Value(r)))
  {
    hide KindName, KindNamed, Value, Typed, QuotedKey;
    var s, rest := Head(key, kind) + r, KindName(kind) + "=" + r;
    assert s == "\"" + key + "\"" + ":" + rest;
    QuotedKeyReads(key, rest);
    TypedReads(key, kind, r);
  }

  /** A key that is written as it is is found again when it has no equals sign. */
  lemma PlainReads(key: string, kind: Kind, r: string)
    requires !NeedsQuotes(key) && '=' !in key
    ensures MatchPlain(Head(key, kind) + r) == Some(Line(key, kind, Value(r)))
  {
    hide KindName, KindNamed, Value, Typed;
    var s, rest := Head(key, kind) + r, KindName(kind) + "=" + r;
    assert s == key + ":" + rest;
    IndexOfAt(key, ':', rest);
    assert s[..|key|] == key && s[|key| + 1..] == rest;
    TypedReads(key, kind, r);
  }

  lemma QuotedKeyHasNone(s: string, mark: char)
    ensures QuotedKey(s, mark).Some? ==> '"' !in QuotedKey(s, mark).value.0 && s[0] == '"'
  {}

  /** Putting a quote before a text that is not made of quotes only moves some character. */
  lemma {:induction false} Moved(key: string, i: nat) returns (j: nat)
    requires i < |key| && key[i] != '"'
    ensures j < |key| && key[j] != ("\"" + key)[j]
  {
    if i > 0 && key[i - 1] != '"' {
      j := Moved(key, i - 1);
    } else {
      j := i;
    }
  }

  /** Nothing that is read is mistaken for a key with a double quote that is written in quotes. */
  lemma QuotedLost(key: string, kind: Kind, r: string)
    requires NeedsQuotes(key) && '"' in key
    ensures var p := ParseLine(Head(key, kind) + r); p.Some? ==> p.value.key != key
  {
    hide KindName, KindNamed, Value, QuotedKey;
    var s := Head(key, kind) + r;
    QuotedKeyHasNone(s, ':');
    QuotedKeyHasNone(s, '=');
    assert s[0] == '"' && s[..|key| + 1] == "\"" + key;
    var i: nat :| i < |key| && key[i] != '"';
    var j := Moved(key, i);
    assert s[j] == s[..|key| + 1][j];
    var e := IndexOf(s, '=');
    assert |s[..e]| == |key| ==> s[..e][j] == s[j];
  }

  lemma PlainLost(key: string, kind: Kind, r: string)
    requires !NeedsQuotes(key)
    requires '=' in key || MatchQuoted(Head(key, kind) + r).Some?
    ensures var p := ParseLine(Head(key, kind) + r); p.Some? ==> p.value.key != key
  {
    hide KindName, KindNamed, Value, QuotedKey;
    var s, rest := Head(key, kind) + r, KindName(kind) + "=" + r;
    assert s == key + ":" + rest;
    QuotedKeyHasNone(s, ':');
    QuotedKeyHasNone(s, '=');
    assert key != "" ==> s[0] == key[0] && key[0] in key;
    IndexOfAt(key, ':', rest);
    assert s[..|key|] == key;
  }

  // The line --------------------------------------------------------------------------------------------

  /** A key is read back when nothing cuts it short and the line, as it is seen, is taken for what it is. */
  predicate KeyKept(key: string, seen: string) {
    && NUL !in key && '\n' !in key
    && (if NeedsQuotes(key) then '"' !in key else '=' !in key && MatchQuoted(seen).None?)
  }

  lemma KeyReads(key: string, kind: Kind, r: string)
    requires KeyKept(key, Head(key, kind) + r)
    ensures ParseLine(Head(key, kind) + r) == Some(Line(key, kind, Value(r)))
  {
    hide Head, MatchQuoted, MatchPlain, Value;
    if NeedsQuotes(key) {
      QuotedReads(key, kind, r);
    } else {
      PlainReads(key, kind, r);
    }
  }

  lemma KeyLost(key: string, kind: Kind, r: string)
    requires NUL !in key && '\n' !in key && !KeyKept(key, Head(key, kind) + r)
    ensures var p := ParseLine(Head(key, kind) + r); p.Some? ==> p.value.key != key
  {
    hide Head, MatchQuoted, ParseLine;
    if NeedsQuotes(key) {
      QuotedLost(key, kind, r);
    } else {
      PlainLost(key, kind, r);
    }
  }

  /** The key and the value that are parsed come from the line. */
  lemma ParsedWithin(s: string, c: char)
    requires ParseLine(s).Some? && c !in s
    ensures c !in ParseLine(s).value.key
  {
    hide Value, KindNamed, IndexOf;
  }

  /** What is seen of the line, wherever it stands. */
  lemma SeenLine(l: Line, rest: string)
    requires NUL !in l.key && '\n' !in l.key
    ensures Seen(LineOf(LineText(l) + "\n" + rest)) == Head(l.key, l.kind) + Seen(ValueText(UpToNewline(l.value)))
    ensures '\n' !in LineText(l) && AfterLine(LineText(l) + "\n" + rest) == rest
  {
    hide KindName, Seen, LineOf, AfterLine;
    KindLetters(l.kind);
    var head, v := Head(l.key, l.kind), ValueText(UpToNewline(l.value));
    assert '\n' !in LineText(l);
    LineSplits(LineText(l), rest);
    assert head[|head| - 1] == '=';
    SeenAfter(head, v);
  }

  lemma SeenAfter(head: string, w: string)
    requires head != "" && NUL !in head && head[|head| - 1] != '\r'
    ensures Seen(head + w) == head + Seen(w)
  {
    var d := DropReturn(w);
    assert DropReturn(head + w) == head + d;
    IndexOfSkip(head, d, NUL);
  }

  predicate Readable(l: Line, seen: string) {
    KeyKept(l.key, seen) && ValueKept(UpToNewline(l.value))
  }

  /** Parsing what is seen of the written line gives the key, the type and the value up to its first newline
      back exactly when the line is readable. */
  lemma LineRoundTrip(l: Line, rest: string)
    ensures var seen := Seen(LineOf(LineText(l) + "\n" + rest));
            ParseLine(seen) == Some(l.(value := UpToNewline(l.value))) <==> Readable(l, seen)
  {
    hide Seen, LineOf, LineText, ParseLine, Head, Value, MatchQuoted;
    var text := LineText(l) + "\n" + rest;
    var seen := Seen(LineOf(text));
    if NUL in l.key || '\n' in l.key {
      SeenClean(text);
      var c := if NUL in l.key then NUL else '\n';
      if ParseLine(seen).Some? {
        ParsedWithin(seen, c);
      }
    } else {
      var v := UpToNewline(l.value);
      var r := Seen(ValueText(v));
      SeenLine(l, rest);
      if KeyKept(l.key, seen) {
        KeyReads(l.key, l.kind, r);
        ValueRoundTrip(v);
      } else {
        KeyLost(l.key, l.kind, r);
      }
    }
  }

  lemma SeenClean(text: string)
    ensures NUL !in Seen(LineOf(text)) && '\n' !in Seen(LineOf(text))
  {
    SeenShort(LineOf(text));
  }

  // Lines written by hand -------------------------------------------------------------------------------

  /** A key that can stand at the start of a line as it is. */
  predicate PlainKey(key: string) {
    ':' !in key && '=' !in key && '"' !in key
  }

  lemma NotQuoted(s: string)
    requires s == "" || s[0] != '"'
    ensures MatchQuoted(s).None? && QuotedKey(s, '=').None?
  {}

  /** `key:NAME=value` has the type of that name. */
  lemma TypedLine(key: string, name: string, v: string)
    requires PlainKey(key) && '=' !in name
    ensures ParseLine(key + ":" + name + "=" + v) == Some(Line(key, KindNamed(name), Value(v)))
  {
    hide KindNamed, Value, QuotedKey;
    var s, rest := key + ":" + name + "=" + v, name + "=" + v;
    assert s == key + ":" + rest;
    assert key != "" ==> s[0] == key[0] && key[0] in key;
    NotQuoted(s);
    IndexOfAt(key, ':', rest);
    assert s[..|key|] == key && s[|key| + 1..] == rest;
    IndexOfAt(name, '=', v);
    assert rest[..|name|] == name && rest[|name| + 1..] == v;
  }

  /** The names of the types, and an unknown one, which means a string. */
  lemma TypesRead(key: string, v: string)
    requires PlainKey(key)
    ensures ParseLine(key + ":" + "BOOL" + "=" + v) == Some(Line(key, Bool, Value(v)))
    ensures ParseLine(key + ":" + "PATH" + "=" + v) == Some(Line(key, Path, Value(v)))
    ensures ParseLine(key + ":" + "FILEPATH" + "=" + v) == Some(Line(key, FilePath, Value(v)))
    ensures ParseLine(key + ":" + "STRING" + "=" + v) == Some(Line(key, String, Value(v)))
    ensures ParseLine(key + ":" + "INTERNAL" + "=" + v) == Some(Line(key, Internal, Value(v)))
    ensures ParseLine(key + ":" + "STATIC" + "=" + v) == Some(Line(key, Static, Value(v)))
    ensures ParseLine(key + ":" + "UNINITIALIZED" + "=" + v) == Some(Line(key, Uninitialized, Value(v)))
    ensures ParseLine(key + ":" + "OTHER" + "=" + v) == Some(Line(key, String, Value(v)))
  {
    hide ParseLine, Value, PlainKey;
    TypedLine(key, "BOOL", v);
    TypedLine(key, "PATH", v);
    TypedLine(key, "FILEPATH", v);
    TypedLine(key, "STRING", v);
    TypedLine(key, "INTERNAL", v);
    TypedLine(key, "STATIC", v);
    TypedLine(key, "UNINITIALIZED", v);
    TypedLine(key, "OTHER", v);
  }

  /** `key=value` and `"key"=value` have no type. */
  lemma UntypedLine(key: string, v: string)
    requires PlainKey(key)
    ensures ParseLine(key + "=" + v) == Some(Line(key, Uninitialized, Value(v)))
    ensures ParseLine("\"" + key + "\"=" + v) == Some(Line(key, Uninitialized, Value(v)))
  {
    hide Value;
    PlainUntyped(key, v);
    QuotedUntyped(key, v);
  }

  lemma PlainUntyped(key: string, v: string)
    requires PlainKey(key)
    ensures ParseLine(key + "=" + v) == Some(Line(key, Uninitialized, Value(v)))
  {
    hide Value, QuotedKey;
    var s := key + "=" + v;
    assert key != "" ==> s[0] == key[0] && key[0] in key;
    NotQuoted(s);
    IndexOfAt(key, '=', v);
    assert s[..|key|] == key && s[|key| + 1..] == v;
    NoTypeBefore(s, |key|);
  }

  lemma QuotedUntyped(key: string, v: string)
    requires PlainKey(key)
    ensures ParseLine("\"" + key + "\"=" + v) == Some(Line(key, Uninitialized, Value(v)))
  {
    hide Value;
    var s := "\"" + key + "\"=" + v;
    var t := key + "\"" + ("=" + v);
    assert s[1..] == t;
    IndexOfAt(key, '"', "=" + v);
    assert t[|key| + 1] == '=' && t[..|key|] == key && t[|key| + 2..] == v;
    assert s[|key| + 2] == '=' && s[..|key| + 2] == "\"" + key + "\"";
    NoTypeBefore(s, |key| + 2);
  }

  /** A colon after the equals sign does not make a type. */
  lemma NoTypeBefore(s: string, e: nat)
    requires e < |s| && s[e] == '=' && ':' !in s[..e]
    ensures MatchPlain(s).None?
  {
    var c := IndexOf(s, ':');
    assert forall i :: 0 <= i < e ==> s[i] == s[..e][i];
    if c < |s| {
      assert s[..c][e] == '=';
    }
  }

  /** Blanks after a value are dropped, and a value of nothing but blanks stays. */
  lemma {:induction false} BlanksAfter(v: string, blanks: string)
    requires forall i :: 0 <= i < |blanks| ==> blanks[i] == ' ' || blanks[i] == '\t' || blanks[i] == '\r'
    requires v == "" || !(v[|v| - 1] == ' ' || v[|v| - 1] == '\t' || v[|v| - 1] == '\r')
    ensures StripTail(v + blanks) == v
    ensures Strip(v + blanks) == if v == "" then blanks else v
    decreases |blanks|
  {
    var n := |blanks| - 1;
    if blanks == "" {
      assert v + blanks == v;
    } else {
      assert (v + blanks)[..|v| + n] == v + blanks[..n];
      BlanksAfter(v, blanks[..n]);
      assert v == "" ==> v + blanks == blanks;
    }
  }

  /** Lines as they are written: with a plain key, with a colon in the key, and with a blank after the value. */
  lemma PlainLineIsWritten(v: string)
    requires '\n' !in v && (v == "" || (v[|v| - 1] != ' ' && v[|v| - 1] != '\t'))
    ensures LineText(Line("A", Bool, v)) == "A:BOOL=" + v
  {
    NoNewline(v);
    assert Head("A", Bool) == "A:BOOL=";
  }

  lemma ColonLineIsWritten(v: string)
    requires '\n' !in v && (v == "" || (v[|v| - 1] != ' ' && v[|v| - 1] != '\t'))
    ensures LineText(Line("A:B", String, v)) == "\"A:B\":STRING=" + v
  {
    NoNewline(v);
    assert "A:B"[1] == ':';
    assert Head("A:B", String) == "\"A:B\":STRING=";
  }

  lemma BlankLineIsWritten(v: string)
    requires '\n' !in v
    ensures LineText(Line("//A", Path, v + " ")) == "\"//A\":PATH=" + ("'" + (v + " ") + "'")
  {
    NoNewline(v + " ");
    assert Head("//A", Path) == "\"//A\":PATH=";
  }

  lemma NoNewline(v: string)
    requires '\n' !in v
    ensures UpToNewline(v) == v
  {
    assert forall i :: 0 <= i < |v| ==> v[i] in v;
  }
}
