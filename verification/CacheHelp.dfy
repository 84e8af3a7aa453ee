/**
 The help text of a cache entry: wrapped into comment lines when the cache is saved, and put together
 again when it is loaded.
 */
module CacheHelp {
  import opened Text

  const NUL: char := '\0'
  const WIDTH: nat := 60

  // Writing ---------------------------------------------------------------------------------------------

  /** A line that starts the text ends before `i`: at the end, before a newline, or before a space once it
      is long enough. */
  predicate Cut(h: string, i: nat)
    requires i <= |h|
  {
    i == |h| || h[i] == '\n' || (i >= WIDTH && h[i] == ' ')
  }

  function FirstCut(h: string, i: nat): (e: nat)
    requires i <= |h|
    ensures i <= e <= |h| && Cut(h, e) && forall j :: i <= j < e ==> !Cut(h, j)
    decreases |h| - i
  {
    if Cut(h, i) then i else FirstCut(h, i + 1)
  }

  /** The pieces that the text is wrapped into. */
  function Chunks(h: string): seq<string> {
    if h == "" then []
    else var e := FirstCut(h, 1); [h[..e]] + Chunks(h[e..])
  }

  /** A piece as a line: a newline it starts with is spelled out. */
  function HelpLine(chunk: string): string
    requires chunk != ""
  {
    "//" + if chunk[0] == '\n' then "\\n" + chunk[1..] else chunk
  }

  /** The written help text. */
  function HelpText(h: string): string {
    if h == "" then ""
    else var e := FirstCut(h, 1); HelpLine(h[..e]) + "\n" + HelpText(h[e..])
  }

  lemma FirstCutWithin(h: string, pos: nat, i: nat)
    requires pos < i <= |h|
    requires forall k :: 1 <= k < i - pos ==> !Cut(h[pos..], k)
    requires Cut(h[pos..], i - pos)
    ensures FirstCut(h[pos..], 1) == i - pos
    ensures h[pos..][..i - pos] == h[pos..i] && h[pos..][i - pos..] == h[i..]
  {}

  lemma NextLine(written: string, h: string, pos: nat, i: nat)
    requires pos < i <= |h|
    requires forall k :: 1 <= k < i - pos ==> !Cut(h[pos..], k)
    requires Cut(h[pos..], i - pos)
    ensures written + HelpText(h[pos..]) == written + HelpLine(h[pos..i]) + "\n" + HelpText(h[i..])
  {
    hide FirstCut, Cut, HelpLine;
    FirstCutWithin(h, pos, i);
  }

  method OutputHelpString(helpString: string) returns (fout: string)
    ensures fout == HelpText(helpString)
  {
    hide FirstCut, HelpText;
    NoHelp();
    fout := "";
    var end := |helpString|;
    var pos := 0;
    assert helpString[0..] == helpString;
    for i := 1 to end + 1
      invariant 0 <= pos <= end && (pos < i || end == 0)
      invariant end > 0 ==> (pos == end <==> i == end + 1)
      invariant fout + HelpText(helpString[pos..]) == HelpText(helpString)
      invariant i <= end ==> forall k :: 1 <= k < i - pos ==> !Cut(helpString[pos..], k)
    {
      assert Cut(helpString[pos..], i - pos)
        <==> (i == end || helpString[i] == '\n' || (i - pos >= 60 && helpString[i] == ' '));
      if i == end || helpString[i] == '\n' || (i - pos >= 60 && helpString[i] == ' ') {
        NextLine(fout, helpString, pos, i);
        ghost var line := fout + HelpLine(helpString[pos..i]) + "\n";
        fout := fout + "//";
        var from := pos;
        if helpString[pos] == '\n' {
          from := from + 1;
          fout := fout + "\\n";
          assert helpString[pos..i][1..] == helpString[from..i];
        }
        var oneLine := helpString[from..i];
        fout := fout + oneLine + "\n";
        assert fout == line;
        pos := i;
      }
    }
    assert helpString[pos..] == "";
  }

  lemma NoHelp()
    ensures HelpText("") == ""
  {}

  /** A piece is not empty and has a newline at most at its start. */
  predicate GoodChunk(c: string) {
    c != "" && '\n' !in c[1..]
  }

  lemma FirstChunk(h: string)
    requires h != ""
    ensures var e := FirstCut(h, 1); GoodChunk(h[..e]) && (e < |h| ==> h[e] == '\n' || h[e] == ' ')
  {
    var e := FirstCut(h, 1);
    forall j | 1 <= j < e ensures h[j] != '\n' {
      assert !Cut(h, j);
    }
    var c := h[..e][1..];
    assert forall j :: 0 <= j < |c| ==> c[j] == h[j + 1];
  }

  /** Nothing is lost by wrapping: the pieces put together are the text, and each makes a single line. */
  lemma {:induction false} ChunksCover(h: string)
    ensures Concat(Chunks(h)) == h && forall c :: c in Chunks(h) ==> GoodChunk(c)
    decreases |h|
  {
    hide FirstCut, GoodChunk;
    if h != "" {
      FirstChunk(h);
      ChunksCover(h[FirstCut(h, 1)..]);
    }
  }

  /** A piece does not go on past a space after 60 characters; the next one starts with a newline, or with a
      space if this one is that long. */
  predicate Wraps(chunks: seq<string>, i: nat)
    requires i < |chunks|
  {
    && (forall j :: 60 <= j < |chunks[i]| ==> chunks[i][j] != ' ')
    && (i + 1 < |chunks| ==>
          chunks[i + 1] != "" &&
          (chunks[i + 1][0] == '\n' || (chunks[i + 1][0] == ' ' && |chunks[i]| >= 60)))
  }

  lemma {:induction false} ChunksWrap(h: string, i: nat)
    requires i < |Chunks(h)|
    ensures Wraps(Chunks(h), i)
    decreases |h|
  {
    hide FirstCut;
    var e := FirstCut(h, 1);
    var rest := Chunks(h[e..]);
    assert Chunks(h) == [h[..e]] + rest;
    FirstChunkWraps(h);
    if i > 0 {
      ChunksWrap(h[e..], i - 1);
    } else if rest != [] {
      FirstPiece(h[e..]);
    }
  }

  lemma FirstPiece(h: string)
    requires h != ""
    ensures Chunks(h) != [] && Chunks(h)[0] != "" && Chunks(h)[0][0] == h[0]
  {}

  lemma FirstChunkWraps(h: string)
    requires h != ""
    ensures var e := FirstCut(h, 1);
            && (forall j :: 60 <= j < e ==> h[..e][j] != ' ')
            && (e < |h| ==> h[e] == '\n' || (h[e] == ' ' && e >= 60))
  {
    var e := FirstCut(h, 1);
    forall j | 60 <= j < e ensures h[..e][j] != ' ' {
      assert !Cut(h, j);
    }
  }

  function Concat(parts: seq<string>): string {
    if parts == [] then "" else parts[0] + Concat(parts[1..])
  }

  // Reading ---------------------------------------------------------------------------------------------

  function DropReturn(line: string): string {
    if line != "" && line[|line| - 1] == '\r' then line[..|line| - 1] else line
  }

  /** What is seen of a line: without a carriage return at its end, and up to a null character. */
  function Seen(line: string): string {
    var s := DropReturn(line); s[..IndexOf(s, NUL)]
  }

  function LineOf(text: string): string {
    text[..IndexOf(text, '\n')]
  }

  function AfterLine(text: string): (rest: string)
    ensures if text == "" then rest == "" else |rest| < |text|
  {
    var i := IndexOf(text, '\n');
    if i < |text| then text[i + 1..] else ""
  }

  predicate IsHelp(line: string) {
    |line| >= 2 && line[0] == '/' && line[1] == '/'
  }

  function ReadLine(line: string): string
    requires IsHelp(line)
  {
    if |line| >= 4 && line[2] == '\\' && line[3] == 'n' then "\n" + line[4..] else line[2..]
  }

  /** The help text that starts with a line and goes on in the text after it; the line it stops at; the rest. */
  datatype Help = Help(help: string, line: string, rest: string)

  function ReadHelp(line: string, text: string): Help
    decreases |text|
  {
    if !IsHelp(line) then Help("", line, text)
    else if text == "" then Help(ReadLine(line), "", "")
    else
      var h := ReadHelp(Seen(LineOf(text)), AfterLine(text));
      Put(ReadLine(line), h)
  }

  function Put(front: string, h: Help): Help {
    h.(help := front + h.help)
  }

  lemma ReadHelpStep(front: string, line: string, text: string)
    requires IsHelp(line)
    ensures Put(front, ReadHelp(line, text))
            == Put(front + ReadLine(line), ReadHelp(Seen(LineOf(text)), AfterLine(text)))
    ensures text == "" ==> !IsHelp(Seen(LineOf(text)))
  {
    hide ReadLine, Seen, LineOf, AfterLine;
    EmptyLine();
    ghost var next := ReadHelp(Seen(LineOf(text)), AfterLine(text));
    if text == "" {
      HelpStops("", "");
      assert front + ReadLine(line) + "" == front + ReadLine(line);
    } else {
      assert ReadHelp(line, text) == Put(ReadLine(line), next);
      assert front + (ReadLine(line) + next.help) == front + ReadLine(line) + next.help;
    }
  }

  lemma EmptyLine()
    ensures Seen(LineOf("")) == ""
  {}

  method LoadHelp(line: string, text: string) returns (h: Help)
    ensures h == ReadHelp(line, text)
  {
    hide Seen, LineOf, AfterLine, ReadHelp;
    var realbuffer, stream, helpString := line, text, "";
    assert ReadHelp(line, text) == Put("", ReadHelp(line, text));
    while IsHelp(realbuffer)
      invariant ReadHelp(line, text) == Put(helpString, ReadHelp(realbuffer, stream))
      decreases |stream|, IsHelp(realbuffer)
    {
      ReadHelpStep(helpString, realbuffer, stream);
      if |realbuffer| >= 4 && realbuffer[2] == '\\' && realbuffer[3] == 'n' {
        helpString := helpString + ("\n" + realbuffer[4..]);
      } else {
        helpString := helpString + realbuffer[2..];
      }
      realbuffer, stream := Seen(LineOf(stream)), AfterLine(stream);
    }
    HelpStops(realbuffer, stream);
    h := Help(helpString, realbuffer, stream);
    assert helpString + "" == helpString;
  }

  lemma HelpStops(line: string, text: string)
    requires !IsHelp(line)
    ensures ReadHelp(line, text) == Help("", line, text)
  {}

  lemma LineSplits(line: string, rest: string)
    requires '\n' !in line
    ensures LineOf(line + "\n" + rest) == line && AfterLine(line + "\n" + rest) == rest
  {
    IndexOfAt(line, '\n', rest);
  }

  // Round trip ------------------------------------------------------------------------------------------

  function Reread(chunk: string): string
    requires chunk != "" && IsHelp(Seen(HelpLine(chunk)))
  {
    ReadLine(Seen(HelpLine(chunk)))
  }

  predicate StartsWithEscape(s: string) {
    |s| >= 2 && s[0] == '\\' && s[1] == 'n'
  }

  /** What a piece survives. */
  predicate Kept(c: string) {
    NUL !in c && !StartsWithEscape(c) && EndsWell(c)
  }

  lemma SeenShort(s: string)
    ensures |Seen(s)| <= |s| && Seen(s) == s[..|Seen(s)|]
    ensures Seen(s) == s <==> NUL !in s && (s == "" || s[|s| - 1] != '\r')
  {
    var d := DropReturn(s);
    assert forall x :: x in d ==> x in s;
    assert d[..IndexOf(d, NUL)] == s[..IndexOf(d, NUL)];
  }

  /** The marks at the start of a line are always seen. */
  lemma SeenMarks(marks: string, c: string)
    requires NUL !in marks && '\r' !in marks
    ensures |Seen(marks + c)| >= |marks|
  {
    var l := marks + c;
    var d := DropReturn(l);
    var i := IndexOf(d, NUL);
    assert c == "" ==> l == marks;
    assert |d| >= |marks|;
    assert forall j :: 0 <= j < |marks| ==> d[j] == marks[j];
  }

  /** What is read of a written line is the piece, or shorter than the piece. */
  lemma ChunkReads(c: string)
    requires GoodChunk(c)
    ensures IsHelp(Seen(HelpLine(c))) && '\n' !in HelpLine(c)
    ensures Reread(c) == c || |Reread(c)| < |c|
    ensures Reread(c) == c <==> Kept(c)
  {
    if c[0] == '\n' {
      NewlineChunkReads(c[1..]);
      assert c == ['\n'] + c[1..];
    } else {
      PlainChunkReads(c);
    }
  }

  lemma NewlineChunkReads(t: string)
    requires '\n' !in t
    ensures var c := "\n" + t;
            && IsHelp(Seen(HelpLine(c))) && '\n' !in HelpLine(c)
            && (Reread(c) == c || |Reread(c)| < |c|)
            && (Reread(c) == c <==> Kept(c))
  {
    hide Seen;
    var c := "\n" + t;
    assert c[1..] == t;
    var marks := "//\\n";
    var l := HelpLine(c);
    assert l == marks + t;
    SeenShort(l);
    SeenMarks(marks, t);
    var s := Seen(l);
    assert s[..4] == marks;
    assert s[0] == '/' && s[1] == '/' && s[2] == '\\' && s[3] == 'n';
    assert ReadLine(s) == "\n" + s[4..];
    assert s == l ==> s[4..] == t;
    assert NUL in l <==> NUL in t;
    assert t != "" ==> l[|l| - 1] == t[|t| - 1];
  }

  lemma PlainChunkReads(c: string)
    requires c != "" && '\n' !in c
    ensures IsHelp(Seen(HelpLine(c))) && '\n' !in HelpLine(c)
    ensures Reread(c) == c || |Reread(c)| < |c|
    ensures Reread(c) == c <==> Kept(c)
  {
    hide Seen;
    assert c[0] in c;
    var l := HelpLine(c);
    assert l == "//" + c;
    SeenShort(l);
    SeenMarks("//", c);
    var s := Seen(l);
    assert s[..2] == "//";
    assert s[0] == '/' && s[1] == '/';
    assert s == l ==> s[2..] == c;
    assert NUL in l <==> NUL in c;
    assert l[|l| - 1] == c[|c| - 1];
    assert s != l ==> |s| < |l|;
  }

  /** What is read of a written help text. */
  function RereadHelp(h: string): string {
    if h == "" then ""
    else
      var e := FirstCut(h, 1);
      FirstChunk(h);
      ChunkReads(h[..e]);
      Reread(h[..e]) + RereadHelp(h[e..])
  }

  /** The reader takes exactly the lines of the help text, and stops at any line that is not a help line. */
  lemma {:induction false} HelpReads(h: string, line: string, rest: string)
    requires '\n' !in line && !IsHelp(Seen(line))
    ensures var text := HelpText(h) + (line + "\n" + rest);
            ReadHelp(Seen(LineOf(text)), AfterLine(text)) == Help(RereadHelp(h), Seen(line), rest)
    decreases |h|
  {
    hide ReadLine, Seen, LineOf, AfterLine, FirstCut, IsHelp, ReadHelp, HelpText, RereadHelp, HelpLine, GoodChunk;
    var end := line + "\n" + rest;
    if h == "" {
      NoHelp();
      NothingLost();
      assert "" + end == end;
      LineSplits(line, rest);
      HelpStops(Seen(line), rest);
    } else {
      var e := FirstCut(h, 1);
      var first, more := HelpLine(h[..e]), HelpText(h[e..]) + end;
      FirstChunk(h);
      ChunkReads(h[..e]);
      HelpReads(h[e..], line, rest);
      HelpTextNext(h, end);
      LineSplits(first, more);
      HelpGoesOn(Seen(first), more);
    }
  }

  lemma HelpTextNext(h: string, end: string)
    requires h != ""
    ensures var e := FirstCut(h, 1);
            && HelpText(h) + end == HelpLine(h[..e]) + "\n" + (HelpText(h[e..]) + end)
            && IsHelp(Seen(HelpLine(h[..e])))
            && RereadHelp(h) == ReadLine(Seen(HelpLine(h[..e]))) + RereadHelp(h[e..])
  {
    hide ReadLine, Seen, FirstCut, IsHelp, HelpLine, GoodChunk;
    FirstChunk(h);
    ChunkReads(h[..FirstCut(h, 1)]);
  }

  lemma HelpGoesOn(line: string, text: string)
    requires IsHelp(line)
    ensures ReadHelp(line, text) == Put(ReadLine(line), ReadHelp(Seen(LineOf(text)), AfterLine(text)))
  {
    hide ReadLine, Seen, LineOf, AfterLine, ReadHelp;
    ReadHelpStep("", line, text);
    var h := ReadHelp(line, text);
    assert "" + h.help == h.help && "" + ReadLine(line) == ReadLine(line);
  }

  predicate AllKept(h: string) {
    forall c :: c in Chunks(h) ==> Kept(c)
  }

  lemma AllKeptUnfold(h: string)
    requires h != ""
    ensures var e := FirstCut(h, 1); AllKept(h) <==> Kept(h[..e]) && AllKept(h[e..])
  {
    hide FirstCut, Kept;
    var e := FirstCut(h, 1);
    assert h[..e] in Chunks(h);
    assert forall c :: c in Chunks(h[e..]) ==> c in Chunks(h);
  }

  lemma {:induction false} RereadShorter(h: string)
    ensures RereadHelp(h) == h || |RereadHelp(h)| < |h|
    ensures RereadHelp(h) == h <==> AllKept(h)
    decreases |h|
  {
    hide FirstCut, Kept, Reread, AllKept, Seen, HelpLine, GoodChunk, IsHelp, Chunks;
    if h == "" {
      NothingLost();
    } else {
      var e := FirstCut(h, 1);
      FirstChunk(h);
      ChunkReads(h[..e]);
      RereadShorter(h[e..]);
      AllKeptUnfold(h);
      assert h == h[..e] + h[e..];
      EqualParts(Reread(h[..e]), h[..e], RereadHelp(h[e..]), h[e..]);
    }
  }

  lemma NothingLost()
    ensures RereadHelp("") == "" && AllKept("")
  {}

  lemma EqualParts(a: string, b: string, c: string, d: string)
    requires (a == b || |a| < |b|) && (c == d || |c| < |d|)
    ensures a + c == b + d || |a + c| < |b + d|
    ensures a + c == b + d <==> a == b && c == d
  {}

  predicate EndsWell(c: string) {
    c != "" && c[|c| - 1] != '\r'
  }

  /** No line is written with a carriage return at its end. */
  predicate NoLineEndsInReturn(h: string) {
    forall c :: c in Chunks(h) ==> EndsWell(c)
  }

  predicate HelpKept(h: string) {
    NUL !in h && !StartsWithEscape(h) && NoLineEndsInReturn(h)
  }

  lemma {:induction false} AllKeptIff(h: string)
    ensures AllKept(h) <==> HelpKept(h)
    decreases |h|
  {
    if h != "" {
      hide FirstCut;
      var e := FirstCut(h, 1);
      FirstChunk(h);
      AllKeptIff(h[e..]);
      AllKeptUnfold(h);
      NoLineUnfold(h);
      assert h == h[..e] + h[e..];
      assert StartsWithEscape(h) <==> StartsWithEscape(h[..e]);
    }
  }

  lemma NoLineUnfold(h: string)
    requires h != ""
    ensures var e := FirstCut(h, 1);
            NoLineEndsInReturn(h) <==> EndsWell(h[..e]) && NoLineEndsInReturn(h[e..])
  {
    hide FirstCut, EndsWell;
    var e := FirstCut(h, 1);
    assert h[..e] in Chunks(h);
    assert forall c :: c in Chunks(h[e..]) ==> c in Chunks(h);
  }

  /** A help text is read back as it was written exactly when it has no null character, does not start with
      a spelled-out newline, and no line of it ends in a carriage return. */
  lemma HelpRoundTrip(h: string)
    ensures RereadHelp(h) == h <==> HelpKept(h)
  {
    RereadShorter(h);
    AllKeptIff(h);
  }

  /** So every text without these characters is read back. */
  lemma HelpWithoutReturns(h: string)
    requires NUL !in h && '\r' !in h && !StartsWithEscape(h)
    ensures RereadHelp(h) == h
  {
    ChunksWithin(h);
    HelpRoundTrip(h);
  }

  lemma {:induction false} ChunksWithin(h: string)
    ensures forall c :: c in Chunks(h) ==> c != "" && forall x :: x in c ==> x in h
    decreases |h|
  {
    if h != "" {
      hide FirstCut;
      var e := FirstCut(h, 1);
      ChunksWithin(h[e..]);
    }
  }

  /** A short text is one line, and a newline starts another. */
  lemma HelpIsWritten()
    ensures HelpText("ab") == "//ab\n"
    ensures HelpText("a\nb") == "//a\n//\\nb\n"
  {
    assert FirstCut("ab", 1) == 2;
    assert FirstCut("a\nb", 1) == 1;
    assert "a\nb"[1..] == "\nb" && FirstCut("\nb", 1) == 2;
    assert HelpText("") == "";
  }
}
