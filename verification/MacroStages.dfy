/**
 Consequences of the macro lexer: escaping, and expansion in two stages (an immediate pass that
 only knows `${fileDir}`, then the full pass).
 */
module MacroStages {
  import opened Text
  import opened MacroLexer
  import EnvironmentValues

  // Escaping -----------------------------------------------------------------------------------

  /** Every `$` written as `${dollar}`. */
  function Escape(s: string): string {
    if s == "" then "" else (if s[0] == '$' then "${dollar}" else s[..1]) + Escape(s[1..])
  }

  /** An escaped text expands to the text itself, whatever else the macros mean. */
  lemma {:induction false} EscapeRoundTrip(s: string, f: (string, string) -> Outcome)
    requires f("", "dollar") == Ok("$")
    ensures Expand(Escape(s), f) == Ok(s)
  {
    hide FirstToken, Lex, Render;
    if s == "" {
      ExpandEmpty(f);
    } else {
      EscapeRoundTrip(s[1..], f);
      var rest := Escape(s[1..]);
      assert s == s[..1] + s[1..];
      if s[0] == '$' {
        LexMacro("", "dollar", rest);
        assert "$" + "" + "{" + "dollar" + "}" + rest == Escape(s);
        ExpandCons(Macro("", "dollar"), Escape(s), rest, f);
      } else {
        LexPlain(s[0], rest);
        assert [s[0]] + rest == Escape(s);
        ExpandCons(Literal([s[0]]), Escape(s), rest, f);
      }
    }
  }

  lemma ExpandEmpty(f: (string, string) -> Outcome)
    ensures Expand("", f) == Ok("")
  {}

  /** The meaning of one token. */
  function Meaning(t: Token, f: (string, string) -> Outcome): Outcome {
    match t
    case Literal(text) => Ok(text)
    case Macro(ns, name) => f(ns, name)
  }

  lemma ExpandCons(t: Token, s: string, rest: string, f: (string, string) -> Outcome)
    requires Lex(s) == Cons(t, Lex(rest))
    ensures Expand(s, f) ==
            if Meaning(t, f).Ok? then
              (if Expand(rest, f).Ok? then Prepend(Meaning(t, f).text, Expand(rest, f)) else Expand(rest, f))
            else Meaning(t, f)
    ensures Rendered(s, f) <==> Meaning(t, f).Ok? && Rendered(rest, f)
  {
    assert ([t] + Lex(rest).tokens)[1..] == Lex(rest).tokens;
  }

  // Texts that can be continued ----------------------------------------------------------------

  /** A namespace still being read when the text ended. */
  predicate Pending(t: Token) {
    t.Literal? && t.text != "" && t.text[0] == '$' && PrefixesValidMacroNamespace(t.text[1..])
  }

  /** Reading the text ends between two tokens. */
  predicate Complete(s: string) {
    Lex(s).open == "" && (Lex(s).tokens != [] ==> !Pending(Lex(s).tokens[|Lex(s).tokens| - 1]))
  }

  lemma {:induction false} NamespaceEndAppend(r: string, t: string, k: nat)
    requires k <= |r|
    ensures NamespaceEnd(r, k) < |r| ==> NamespaceEnd(r + t, k) == NamespaceEnd(r, k)
    ensures NamespaceEnd(r, k) == |r| && k < |r| ==> PrefixesValidMacroNamespace(r)
    decreases |r| - k
  {
    if k < |r| {
      assert (r + t)[..k + 1] == r[..k + 1];
      if r[k] != '{' && PrefixesValidMacroNamespace(r[..k + 1]) {
        if k + 1 == |r| {
          assert r[..k + 1] == r;
        }
        NamespaceEndAppend(r, t, k + 1);
      }
    }
  }

  lemma FirstTokenAppend(s: string, t: string)
    requires s != "" && FirstToken(s).Read? && !Pending(FirstToken(s).token)
    ensures FirstToken(s + t) == FirstToken(s)
  {
    hide NamespaceEnd, IndexOf;
    if s[0] != '$' {
      assert (s + t)[..1] == s[..1];
    } else {
      var r := s[1..];
      var k := NamespaceEnd(r, 0);
      NamespaceEndAppend(r, t, 0);
      assert (s + t)[1..] == r + t;
      assert k < |r|;
      assert (r + t)[..k] == r[..k] && (r + t)[k + 1..] == r[k + 1..] + t;
      if r[k] == '{' && IsValidMacroNamespace(r[..k]) {
        IndexOfAppend(r[k + 1..], t, '}');
        var e := IndexOf(r[k + 1..], '}');
        assert (r[k + 1..] + t)[..e] == r[k + 1..][..e];
      } else {
        assert (s + t)[..k + 2] == s[..k + 2];
      }
    }
  }

  lemma PendingFirst(s: string)
    requires s != "" && FirstToken(s).Read? && Pending(FirstToken(s).token)
    ensures FirstToken(s) == Read(Literal(s), |s|)
    ensures s[0] == '$' && PrefixesValidMacroNamespace(s[1..])
  {
    hide NamespaceEnd, IndexOf, PrefixesValidMacroNamespace, IsValidMacroNamespace;
    var r := s[1..];
    var k := NamespaceEnd(r, 0);
    assert s[0] == '$' by {
      assert s[..1][0] == s[0];
    }
    assert k < |r| ==> s[..k + 2][1..] == r[..k + 1];
    if k < |r| {
      NamespaceEndStops(r, 0);
    }
  }

  lemma PendingIsLast(s: string)
    requires s != "" && FirstToken(s).Read? && Pending(FirstToken(s).token)
    ensures FirstToken(s) == Read(Literal(s), |s|)
    ensures s[0] == '$' && PrefixesValidMacroNamespace(s[1..])
    ensures Lex(s) == Lexed([Literal(s)], "")
  {
    hide FirstToken;
    PendingFirst(s);
    LexNext(s, Literal(s), "");
  }

  lemma {:induction false} NamespaceEndStops(r: string, k: nat)
    requires k <= |r| && NamespaceEnd(r, k) < |r|
    ensures !PrefixesValidMacroNamespace(r[..NamespaceEnd(r, k) + 1])
    decreases |r| - k
  {
    if r[k] == '{' {
      assert '{' in r[..k + 1];
    } else if PrefixesValidMacroNamespace(r[..k + 1]) {
      NamespaceEndStops(r, k + 1);
    }
  }

  /** What follows a complete text is read as if it stood alone. */
  lemma {:induction false} LexAppend(s: string, t: string)
    requires Complete(s)
    ensures Lex(s + t) == Lexed(Lex(s).tokens + Lex(t).tokens, Lex(t).open)
    decreases |s|
  {
    hide FirstToken;
    if s == "" {
      assert s + t == t;
    } else {
      var tok, n := FirstToken(s).token, FirstToken(s).length;
      if Pending(tok) {
        PendingIsLast(s);
      }
      FirstTokenAppend(s, t);
      CompleteTail(s);
      LexAppend(s[n..], t);
      assert (s + t)[n..] == s[n..] + t;
    }
  }

  lemma LastOfCons(t: Token, rest: Lexed)
    ensures Cons(t, rest).tokens != []
    ensures var last := Cons(t, rest).tokens[|Cons(t, rest).tokens| - 1];
            if rest.tokens == [] then last == t else last == rest.tokens[|rest.tokens| - 1]
  {}

  lemma CompleteTail(s: string)
    requires s != "" && FirstToken(s).Read?
    ensures Lex(s) == Cons(FirstToken(s).token, Lex(s[FirstToken(s).length..]))
    ensures Complete(s) && !Pending(FirstToken(s).token) ==> Complete(s[FirstToken(s).length..])
  {
    hide FirstToken;
    LastOfCons(FirstToken(s).token, Lex(s[FirstToken(s).length..]));
  }

  /** A text that stops inside a namespace turns into an unclosed macro when continued badly. */
  lemma {:induction false} PendingReopens(s: string, more: string)
    requires Lex(s).open == "" && Lex(s).tokens != []
    requires var last := Lex(s).tokens[|Lex(s).tokens| - 1];
             Pending(last) && IsValidMacroNamespace(last.text[1..] + more)
    ensures Lex(s + more + "{").open != ""
    decreases |s|
  {
    hide FirstToken, IsValidMacroNamespace;
    var tok, n := FirstToken(s).token, FirstToken(s).length;
    CompleteTail(s);
    if Pending(tok) {
      PendingIsLast(s);
      LexOpenMacro(s[1..] + more, "");
      assert s + more + "{" == "$" + (s[1..] + more) + "{" + "";
    } else {
      hide Pending;
      FirstTokenAppend(s, more + "{");
      assert s + more + "{" == s + (more + "{");
      assert (s + (more + "{"))[n..] == s[n..] + more + "{";
      LastOfCons(tok, Lex(s[n..]));
      PendingReopens(s[n..], more);
      LexNext(s + (more + "{"), tok, s[n..] + more + "{");
    }
  }

  // Two stages -----------------------------------------------------------------------------------

  /** The immediate expander: from version 12 on it knows the file's directory, all else is deferred. */
  function Immediate(version: int, dir: string): (string, string) -> Outcome {
    (ns: string, name: string) =>
      if ns == "" && name == "fileDir" && version >= 12 then Ok(dir) else Defer
  }

  /** The immediate pass, then the full pass on what it leaves: a deferred text is left untouched,
      an error ends the reading of the preset. */
  function Staged(s: string, version: int, dir: string, f: (string, string) -> Outcome): Outcome {
    match Expand(s, Immediate(version, dir))
    case Ok(t) => Expand(t, f)
    case Defer => Expand(s, f)
    case o => o
  }

  /** Expanding the directory as if it were a field text leaves it as it is and ends between tokens. */
  predicate Inert(dir: string, f: (string, string) -> Outcome) {
    Expand(dir, f) == Ok(dir) && Complete(dir)
  }

  lemma {:induction false} NoDollarIsInert(dir: string, f: (string, string) -> Outcome)
    requires '$' !in dir
    ensures Inert(dir, f)
  {
    hide FirstToken;
    if dir != "" {
      NoDollarIsInert(dir[1..], f);
      LexPlain(dir[0], dir[1..]);
      assert [dir[0]] + dir[1..] == dir;
      ExpandCons(Literal([dir[0]]), dir, dir[1..], f);
      LastOfCons(Literal([dir[0]]), Lex(dir[1..]));
    }
  }

  /** After a `$`, only nothing, `env`, `penv` and `vendor` make a macro; anything else up to a brace is text. */
  lemma OtherNamespaceIsText(ns: string, rest: string, f: (string, string) -> Outcome)
    requires ns != "" && ns != "env" && ns != "penv" && ns != "vendor"
    requires '{' !in ns && '$' !in ns && '$' !in rest
    ensures Expand("$" + ns + "{" + rest, f) == Ok("$" + ns + "{" + rest)
  {
    hide Expand, Lex, PrefixesValidMacroNamespace;
    var s := "$" + ns + "{" + rest;
    NothingPrefixes();
    var k, c, t := |ns|, '{', rest;
    if !PrefixesValidMacroNamespace(ns) {
      k := LastPrefix(ns);
      c, t := ns[k], ns[k + 1..] + "{" + rest;
    } else {
      assert ns[..k] == ns;
    }
    assert s == "$" + ns[..k] + [c] + t;
    LexFailedNamespace(ns[..k], c, t);
    NoDollarIsInert(t, f);
    TextThenInert(Literal("$" + ns[..k] + [c]), s, t, f);
  }

  lemma NothingPrefixes()
    ensures PrefixesValidMacroNamespace("")
  {}

  lemma {:induction false} LastPrefix(ns: string) returns (k: nat)
    requires !PrefixesValidMacroNamespace(ns)
    ensures k < |ns| && PrefixesValidMacroNamespace(ns[..k]) && !PrefixesValidMacroNamespace(ns[..k] + [ns[k]])
  {
    NothingPrefixes();
    var n := |ns| - 1;
    assert ns == ns[..n] + [ns[n]];
    if PrefixesValidMacroNamespace(ns[..n]) {
      k := n;
    } else {
      k := LastPrefix(ns[..n]);
      assert ns[..n][..k] == ns[..k];
    }
  }

  lemma TextThenInert(t: Token, s: string, rest: string, f: (string, string) -> Outcome)
    requires t.Literal? && Lex(s) == Cons(t, Lex(rest)) && Expand(rest, f) == Ok(rest)
    ensures Expand(s, f) == Ok(t.text + rest)
  {
    ExpandCons(t, s, rest, f);
  }

  /** What the immediate pass says about a text, in terms of the full pass. */
  predicate StageAgrees(s: string, version: int, dir: string, f: (string, string) -> Outcome) {
    var o := Expand(s, Immediate(version, dir));
    && (o.Ok? ==> Expand(o.text, f) == Expand(s, f) && Rendered(s, f) && Rendered(o.text, f))
    && (o.Error? ==> Expand(s, f) == Error && Rendered(s, f))
    && !o.Ignore?
  }

  /** Every closed macro of the text is Ok. */
  predicate Rendered(s: string, f: (string, string) -> Outcome) {
    Render(Lex(s).tokens, f).Ok?
  }

  lemma LiteralStage(s: string, text: string, rest: string, version: int, dir: string, f: (string, string) -> Outcome)
    requires Lex(s) == Cons(Literal(text), Lex(rest)) && StageAgrees(rest, version, dir, f)
    requires var tail := Expand(rest, Immediate(version, dir));
             tail.Ok? ==> Lex(text + tail.text) == Cons(Literal(text), Lex(tail.text))
    ensures StageAgrees(s, version, dir, f)
  {
    hide Lex, Render;
    var imm := Immediate(version, dir);
    ExpandCons(Literal(text), s, rest, imm);
    ExpandCons(Literal(text), s, rest, f);
    var tail := Expand(rest, imm);
    if tail.Ok? {
      ExpandCons(Literal(text), text + tail.text, tail.text, f);
    }
  }

  lemma MacroStage(s: string, ns: string, name: string, rest: string, version: int, dir: string, f: (string,
                   string) -> Outcome)
    requires version >= 12 ==> f("", "fileDir") == Ok(dir) && Inert(dir, f)
    requires Lex(s) == Cons(Macro(ns, name), Lex(rest)) && StageAgrees(rest, version, dir, f)
    ensures StageAgrees(s, version, dir, f)
  {
    hide Lex, Render, Complete;
    var imm := Immediate(version, dir);
    ExpandCons(Macro(ns, name), s, rest, imm);
    ExpandCons(Macro(ns, name), s, rest, f);
    var tail := Expand(rest, imm);
    if tail.Ok? && imm(ns, name).Ok? {
      assert Complete(dir);
      LexAppend(dir, tail.text);
      ExpandConcat(dir, tail.text, f);
    }
  }

  lemma {:induction false} EveryStageAgrees(s: string, version: int, dir: string, f: (string, string) -> Outcome)
    requires version >= 12 ==> f("", "fileDir") == Ok(dir) && Inert(dir, f)
    ensures StageAgrees(s, version, dir, f)
    decreases |s|
  {
    hide FirstToken, Inert, StageAgrees;
    if s == "" || FirstToken(s).Unclosed? {
      NothingRead(s, version, dir, f);
    } else {
      var t, n := FirstToken(s).token, FirstToken(s).length;
      var rest := s[n..];
      CompleteTail(s);
      EveryStageAgrees(rest, version, dir, f);
      match t
      case Literal(text) =>
        FirstTokenIsFaithful(s);
        var tail := Expand(rest, Immediate(version, dir));
        if Pending(t) {
          PendingIsLast(s);
        }
        if tail.Ok? {
          LiteralKept(s, text, tail.text);
        }
        LiteralStage(s, text, rest, version, dir, f);
      case Macro(ns, name) =>
        MacroStage(s, ns, name, rest, version, dir, f);
    }
  }

  lemma NothingRead(s: string, version: int, dir: string, f: (string, string) -> Outcome)
    requires s == "" || FirstToken(s).Unclosed?
    ensures StageAgrees(s, version, dir, f)
  {}

  /** A literal token is read as the same token again, in front of any other text. */
  lemma LiteralKept(s: string, text: string, more: string)
    requires s != "" && FirstToken(s).Read? && FirstToken(s).token == Literal(text)
    requires Pending(Literal(text)) ==> more == ""
    requires text == s[..FirstToken(s).length]
    ensures Lex(text + more) == Cons(Literal(text), Lex(more))
  {
    hide NamespaceEnd, IndexOf;
    if Pending(Literal(text)) {
      PendingIsLast(s);
      assert text + more == s;
      LexNext(s, Literal(text), "");
    } else {
      LiteralAlone(s, text);
      FirstTokenAppend(text, more);
      assert (text + more)[|text|..] == more;
      LexNext(text + more, Literal(text), more);
    }
  }

  lemma LiteralAlone(s: string, text: string)
    requires s != "" && FirstToken(s) == Read(Literal(text), |text|) && text == s[..|text|]
    requires !Pending(Literal(text))
    ensures FirstToken(text) == Read(Literal(text), |text|)
  {
    hide IndexOf;
    if s[0] == '$' {
      var r := s[1..];
      var k := NamespaceEnd(r, 0);
      NamespaceEndAppend(r, "", 0);
      if k == |r| {
        assert text == s;
      } else {
        assert |text| == k + 2;
        assert s[..k + 2][1..] == r[..k + 1];
        NamespaceEndCut(r, 0);
        assert text[1..][..k] == r[..k];
        assert text[..k + 2] == text;
      }
    } else {
      assert text[..1] == text;
    }
  }

  lemma {:induction false} NamespaceEndCut(r: string, k: nat)
    requires k <= |r| && NamespaceEnd(r, k) < |r|
    ensures NamespaceEnd(r[..NamespaceEnd(r, k) + 1], k) == NamespaceEnd(r, k)
    decreases |r| - k
  {
    var j := NamespaceEnd(r, k);
    assert r[..j + 1][..k + 1] == r[..k + 1];
    if j != k {
      NamespaceEndCut(r, k + 1);
    }
  }

  lemma ExpandConcat(a: string, b: string, f: (string, string) -> Outcome)
    requires Inert(a, f) && Lex(a + b) == Lexed(Lex(a).tokens + Lex(b).tokens, Lex(b).open)
    ensures Expand(a + b, f) == if Expand(b, f).Ok? then Prepend(a, Expand(b, f)) else Expand(b, f)
    ensures Rendered(b, f) ==> Rendered(a + b, f)
  {
    RenderConcat(Lex(a).tokens, Lex(b).tokens, f);
  }

  lemma FileDirText(rest: string, version: int, dir: string, f: (string, string) -> Outcome)
    requires version >= 12 && f("", "fileDir") == Ok(dir) && '$' !in rest
    ensures Staged("${fileDir}" + rest, version, dir, f) == Expand(dir + rest, f)
    ensures Expand("${fileDir}" + rest, f) == Ok(dir + rest)
  {
    hide FirstToken, Lex, Render, Complete;
    var imm := Immediate(version, dir);
    var s := "${fileDir}" + rest;
    LexMacro("", "fileDir", rest);
    assert "$" + "" + "{" + "fileDir" + "}" + rest == s;
    ExpandCons(Macro("", "fileDir"), s, rest, imm);
    ExpandCons(Macro("", "fileDir"), s, rest, f);
    NoDollarIsInert(rest, imm);
    NoDollarIsInert(rest, f);
  }

  function Completion(ns: string): (more: string)
    requires PrefixesValidMacroNamespace(ns)
    ensures IsValidMacroNamespace(ns + more) && '$' !in more
  {
    if ns == "" then ""
    else if ns <= "env" then "env"[|ns|..]
    else if ns <= "penv" then "penv"[|ns|..]
    else "vendor"[|ns|..]
  }

  /** The two stages give every field text the meaning the full pass alone gives it, exactly when
      the immediate pass knows no directory (before version 12) or the directory is inert. */
  lemma StagedIffInert(version: int, dir: string, f: (string, string) -> Outcome)
    requires version >= 12 ==> f("", "fileDir") == Ok(dir)
    ensures (forall s :: Staged(s, version, dir, f) == Expand(s, f)) <==> version < 12 || Inert(dir, f)
  {
    hide Expand, Complete;
    if version < 12 || Inert(dir, f) {
      forall s
        ensures Staged(s, version, dir, f) == Expand(s, f)
      {
        EveryStageAgrees(s, version, dir, f);
      }
    } else {
      FileDirText("", version, dir, f);
      assert dir + "" == dir;
      if Expand(dir, f) == Ok(dir) {
        var last, more := PendingEnd(dir, f);
        FileDirText(more + "{", version, dir, f);
        assert dir + more + "{" == dir + (more + "{");
      }
    }
  }

  lemma PendingEnd(dir: string, f: (string, string) -> Outcome) returns (last: Token, more: string)
    requires Expand(dir, f).Ok? && !Complete(dir)
    ensures '$' !in more + "{" && !Expand(dir + more + "{", f).Ok?
  {
    last := Lex(dir).tokens[|Lex(dir).tokens| - 1];
    more := Completion(last.text[1..]);
    PendingReopens(dir, more);
  }

  // All the fields of a preset -----------------------------------------------------------------------

  datatype Pass = Failed | Reset | Fields(texts: seq<string>)

  /** The field loop: an error fails the preset, an ignored macro resets it, a deferred field stays. */
  function ExpandFields(fields: seq<string>, f: (string, string) -> Outcome): Pass {
    if fields == [] then Fields([])
    else
      match Expand(fields[0], f)
      case Error => Failed
      case Ignore => Reset
      case Defer => PrependField(fields[0], ExpandFields(fields[1..], f))
      case Ok(t) => PrependField(t, ExpandFields(fields[1..], f))
  }

  function PrependField(s: string, p: Pass): Pass {
    if p.Fields? then Fields([s] + p.texts) else p
  }

  function StagedFields(fields: seq<string>, version: int, dir: string, f: (string, string) -> Outcome): Pass {
    var first := ExpandFields(fields, Immediate(version, dir));
    if first.Fields? then ExpandFields(first.texts, f) else first
  }

  /** The text leaves a macro open, and has no others that are left to the full pass. */
  ghost predicate LeftOpen(s: string, version: int) {
    Lex(s).open != "" &&
    forall i :: 0 <= i < |Lex(s).tokens| && Lex(s).tokens[i].Macro? ==>
      Lex(s).tokens[i] == Macro("", "fileDir") && version >= 12
  }

  ghost predicate Malformed(fields: seq<string>, version: int) {
    exists i :: 0 <= i < |fields| && LeftOpen(fields[i], version)
  }

  lemma LeftOpenIff(s: string, version: int, dir: string)
    ensures Expand(s, Immediate(version, dir)).Error? <==> LeftOpen(s, version)
  {
    hide Lex, Render;
    var ts, f := Lex(s).tokens, Immediate(version, dir);
    RenderGoesOn(ts, f);
    if i: nat :| StopsAt(ts, f, i) {
      RenderStops(ts, f, i);
    }
    EnvironmentValues.RenderOkIff(ts, f);
  }

  lemma RenderedOutcome(s: string, f: (string, string) -> Outcome)
    requires Rendered(s, f)
    ensures Expand(s, f).Ok? || Expand(s, f).Error?
  {}

  lemma {:induction false} ImmediateFields(fields: seq<string>, version: int, dir: string, f: (string,
                                           string) -> Outcome)
    requires version >= 12 ==> f("", "fileDir") == Ok(dir) && Inert(dir, f)
    ensures var first := ExpandFields(fields, Immediate(version, dir));
            && (Malformed(fields, version) ==> first.Failed? && !ExpandFields(fields, f).Fields?)
            && (!Malformed(fields, version) ==>
                  first.Fields? && ExpandFields(first.texts, f) == ExpandFields(fields, f))
  {
    hide Expand, Inert, LeftOpen;
    if fields != [] {
      var imm := Immediate(version, dir);
      EveryStageAgrees(fields[0], version, dir, f);
      ImmediateFields(fields[1..], version, dir, f);
      if Expand(fields[0], imm).Ok? {
        RenderedOutcome(fields[0], f);
      }
      LeftOpenIff(fields[0], version, dir);
      MalformedNext(fields, version);
      var first := ExpandFields(fields, imm);
      if first.Fields? {
        assert first.texts[1..] == ExpandFields(fields[1..], imm).texts;
      }
    }
  }

  lemma MalformedNext(fields: seq<string>, version: int)
    requires fields != []
    ensures Malformed(fields, version) <==> LeftOpen(fields[0], version) || Malformed(fields[1..], version)
  {
    hide LeftOpen;
    assert forall i :: 0 < i < |fields| ==> fields[i] == fields[1..][i - 1];
  }

  /** The first macro of the text that is not Ok is ignored. */
  ghost predicate StopsIgnored(s: string, f: (string, string) -> Outcome) {
    exists i: nat :: StopsAt(Lex(s).tokens, f, i) && f(Lex(s).tokens[i].ns, Lex(s).tokens[i].name).Ignore?
  }

  /** The first macro of the text that is not Ok is deferred, or there is none and none is left open. */
  ghost predicate Passes(s: string, f: (string, string) -> Outcome) {
    (exists i: nat :: StopsAt(Lex(s).tokens, f, i) && f(Lex(s).tokens[i].ns, Lex(s).tokens[i].name).Defer?) ||
    (Lex(s).open == "" && !exists i: nat :: StopsAt(Lex(s).tokens, f, i))
  }

  lemma FieldOutcome(s: string, f: (string, string) -> Outcome)
    ensures Expand(s, f).Ignore? <==> StopsIgnored(s, f)
    ensures Expand(s, f).Ok? || Expand(s, f).Defer? <==> Passes(s, f)
  {
    hide Lex, Render, StopsAt;
    var ts := Lex(s).tokens;
    RenderGoesOn(ts, f);
    if i: nat :| StopsAt(ts, f, i) {
      StopsOnce(ts, f, i);
    }
  }

  lemma StopsOnce(ts: seq<Token>, f: (string, string) -> Outcome, i: nat)
    requires StopsAt(ts, f, i)
    ensures i < |ts| && ts[i].Macro? && !f(ts[i].ns, ts[i].name).Ok? && Render(ts, f) == f(ts[i].ns, ts[i].name)
    ensures forall j: nat :: StopsAt(ts, f, j) ==> j == i
  {
    RenderStops(ts, f, i);
    assert forall j: nat :: StopsAt(ts, f, j) ==> !(i < j) && !(j < i);
  }

  /** When all fields pass, each is replaced by what it expands to, or stays if it is deferred. */
  lemma {:induction false} FieldsExpanded(fields: seq<string>, f: (string, string) -> Outcome)
    ensures ExpandFields(fields, f).Fields? <==> forall i :: 0 <= i < |fields| ==> Passes(fields[i], f)
    ensures ExpandFields(fields, f).Fields? ==>
              |ExpandFields(fields, f).texts| == |fields| &&
              forall i :: 0 <= i < |fields| ==>
                ExpandFields(fields, f).texts[i] ==
                  if Expand(fields[i], f).Ok? then Expand(fields[i], f).text else fields[i]
  {
    hide Expand, Passes;
    if fields != [] {
      FieldOutcome(fields[0], f);
      FieldsExpanded(fields[1..], f);
      assert forall i :: 0 < i < |fields| ==> fields[i] == fields[1..][i - 1];
    }
  }

  /** Field number `i` is ignored, and all fields before it pass. */
  ghost predicate ResetsAt(fields: seq<string>, f: (string, string) -> Outcome, i: nat) {
    i < |fields| && StopsIgnored(fields[i], f) && forall j :: 0 <= j < i ==> Passes(fields[j], f)
  }

  lemma {:induction false} ResetIff(fields: seq<string>, f: (string, string) -> Outcome)
    ensures ExpandFields(fields, f).Reset? <==> exists i: nat :: ResetsAt(fields, f, i)
  {
    hide Expand, StopsIgnored, Passes;
    if fields != [] {
      FieldOutcome(fields[0], f);
      ResetIff(fields[1..], f);
      assert forall i :: 0 < i < |fields| ==> fields[i] == fields[1..][i - 1];
      if Expand(fields[0], f).Ignore? {
        assert ResetsAt(fields, f, 0);
      }
      if i: nat :| ResetsAt(fields[1..], f, i) && Passes(fields[0], f) {
        assert ResetsAt(fields, f, i + 1);
      }
      if i: nat :| ResetsAt(fields, f, i) && i > 0 {
        assert ResetsAt(fields[1..], f, i - 1);
      }
    }
  }

  /** For a whole preset the two stages agree with the full pass except when some field leaves a macro open with
      nothing but immediate macros before it, and the first field that does not pass is ignored: the immediate pass
      then fails the preset that the full pass alone would only reset. */
  lemma StagedFieldsIff(fields: seq<string>, version: int, dir: string, f: (string, string) -> Outcome)
    requires version >= 12 ==> f("", "fileDir") == Ok(dir) && Inert(dir, f)
    ensures StagedFields(fields, version, dir, f) == ExpandFields(fields, f) <==>
            !(Malformed(fields, version) && exists i: nat :: ResetsAt(fields, f, i))
  {
    hide Inert, Malformed, ResetsAt, ExpandFields;
    ImmediateFields(fields, version, dir, f);
    ResetIff(fields, f);
  }

  lemma StagedFieldsDiffer(version: int, dir: string, f: (string, string) -> Outcome)
    requires f("vendor", "x") == Ignore
    ensures var fields := ["$vendor{x}", "${"];
            ExpandFields(fields, f) == Reset && StagedFields(fields, version, dir, f) == Failed
  {
    hide FirstToken, Lex, Render, Expand;
    var fields := ["$vendor{x}", "${"];
    var imm := Immediate(version, dir);
    LexMacro("vendor", "x", "");
    assert "$" + "vendor" + "{" + "x" + "}" + "" == fields[0];
    ExpandCons(Macro("vendor", "x"), fields[0], "", f);
    ExpandCons(Macro("vendor", "x"), fields[0], "", imm);
    OpenTextFails(imm);
    assert fields[1..] == ["${"];
    assert ExpandFields(fields[1..], imm) == Failed;
  }

  lemma OpenTextFails(f: (string, string) -> Outcome)
    ensures Expand("${", f) == Error
  {
    LexOpenMacro("", "");
    assert "$" + "" + "{" + "" == "${";
  }

  // The real expanders ---------------------------------------------------------------------------------

  lemma {:induction false} RenderSame(ts: seq<Token>, f: (string, string) -> Outcome, g: (string, string) -> Outcome)
    requires forall ns, name :: f(ns, name) == g(ns, name)
    ensures Render(ts, f) == Render(ts, g)
  {
    if ts != [] {
      RenderSame(ts[1..], f, g);
    }
  }

  lemma ImmediateMeaning(w: EnvironmentValues.World, known: map<string, string>, dir: string, s: string)
    requires w.expanders == [EnvironmentValues.ImmediateExpander(dir)]
    ensures EnvironmentValues.TextIn(w, known, s) == Expand(s, Immediate(w.version, dir))
  {
    hide Lex;
    RenderSame(Lex(s).tokens, EnvironmentValues.Macros(w, known), Immediate(w.version, dir));
  }

  lemma FileDirMeaning(w: EnvironmentValues.World, known: map<string, string>,
                       base: EnvironmentValues.Expander, preset: EnvironmentValues.Expander)
    requires w.expanders == [base, preset, EnvironmentValues.EnvironmentExpander]
    requires base.BaseExpander? && base.file.None? && preset.PresetExpander? && w.version >= 12
    ensures EnvironmentValues.Macros(w, known)("", "fileDir") == Ok(preset.fileDir)
  {
    var rest := [preset, EnvironmentValues.EnvironmentExpander];
    assert w.expanders[1..] == rest;
    assert EnvironmentValues.Apply(base, "", "fileDir", w.version) == Ignore;
    assert EnvironmentValues.Dispatch(w, known, rest, "", "fileDir") == Ok(preset.fileDir);
  }

  /** The two passes as they are run: first the immediate expander alone, then the graph's, the preset's
      and the environment's expanders, agree with the second pass alone on every text exactly when the
      directory of the preset's file is inert or unknown to the first pass. */
  lemma PassesAgree(first: EnvironmentValues.World, full: EnvironmentValues.World, known: map<string, string>,
                    base: EnvironmentValues.Expander, preset: EnvironmentValues.Expander)
    requires full.expanders == [base, preset, EnvironmentValues.EnvironmentExpander]
    requires base.BaseExpander? && base.file.None? && preset.PresetExpander?
    requires first.expanders == [EnvironmentValues.ImmediateExpander(preset.fileDir)] && first.version == full.version
    ensures (forall s :: var o := EnvironmentValues.TextIn(first, known, s);
                         (if o.Ok? then EnvironmentValues.TextIn(full, known, o.text)
                          else if o.Defer? then EnvironmentValues.TextIn(full, known, s) else o)
                         == EnvironmentValues.TextIn(full, known, s))
            <==> full.version < 12 || Inert(preset.fileDir, EnvironmentValues.Macros(full, known))
  {
    hide Expand, Inert, EnvironmentValues.TextIn, EnvironmentValues.Macros, EnvironmentValues.Dispatch;
    var f := EnvironmentValues.Macros(full, known);
    if full.version >= 12 {
      FileDirMeaning(full, known, base, preset);
    }
    StagedIffInert(full.version, preset.fileDir, f);
    forall s
      ensures (var o := EnvironmentValues.TextIn(first, known, s);
               if o.Ok? then EnvironmentValues.TextIn(full, known, o.text)
               else if o.Defer? then EnvironmentValues.TextIn(full, known, s) else o)
              == Staged(s, full.version, preset.fileDir, f)
      ensures EnvironmentValues.TextIn(full, known, s) == Expand(s, f)
    {
      ImmediateMeaning(first, known, preset.fileDir, s);
      FullMeaning(full, known, s);
      var o := EnvironmentValues.TextIn(first, known, s);
      if o.Ok? {
        FullMeaning(full, known, o.text);
      }
    }
  }

  /** With the graph's expander in front, an escaped text expands to the text itself. */
  lemma EscapedTextExpands(w: EnvironmentValues.World, known: map<string, string>, s: string)
    requires w.expanders != [] && w.expanders[0].BaseExpander?
    ensures EnvironmentValues.TextIn(w, known, Escape(s)) == Ok(s)
  {
    hide Lex, Escape;
    FullMeaning(w, known, Escape(s));
    assert EnvironmentValues.Macros(w, known)("", "dollar") == Ok("$");
    EscapeRoundTrip(s, EnvironmentValues.Macros(w, known));
  }

  lemma FullMeaning(w: EnvironmentValues.World, known: map<string, string>, s: string)
    ensures EnvironmentValues.TextIn(w, known, s) == Expand(s, EnvironmentValues.Macros(w, known))
  {}
}
