/**
 The text side of macro expansion: how a field text is cut into literal text and macros, and what
 the text expands to when every macro has a meaning.
 */
module MacroLexer {
  import opened Text

  datatype Outcome = Ok(text: string) | Ignore | Defer | Error

  predicate IsValidMacroNamespace(s: string) {
    s == "" || s == "env" || s == "penv" || s == "vendor"
  }

  /** `s` can still grow into a valid namespace. */
  predicate PrefixesValidMacroNamespace(s: string) {
    s <= "" || s <= "env" || s <= "penv" || s <= "vendor"
  }

  datatype Token = Literal(text: string) | Macro(ns: string, name: string)

  function Source(t: Token): string {
    match t
    case Literal(text) => text
    case Macro(ns, name) => "$" + ns + "{" + name + "}"
  }

  function Sources(ts: seq<Token>): string {
    if ts == [] then "" else Source(ts[0]) + Sources(ts[1..])
  }

  /** The tokens of a text, and the macro left open at its end (empty when there is none). */
  datatype Lexed = Lexed(tokens: seq<Token>, open: string)

  /** The number of characters of `r`, from `k` on, that extend a namespace begun before `r`. */
  function NamespaceEnd(r: string, k: nat): (j: nat)
    requires k <= |r|
    ensures k <= j <= |r|
    decreases |r| - k
  {
    if k == |r| || r[k] == '{' || !PrefixesValidMacroNamespace(r[..k + 1]) then k
    else NamespaceEnd(r, k + 1)
  }

  function Cons(t: Token, rest: Lexed): Lexed {
    Lexed([t] + rest.tokens, rest.open)
  }

  /** The first token of a text and its length in the text, or a macro that is never closed. */
  datatype First = Unclosed | Read(token: Token, length: nat)

  /** Recursive-descent reading of one token: a macro is `$`, a namespace, `{`, a name and `}`; a `$`
      that begins no macro is literal, together with everything read in the attempt. */
  function FirstToken(s: string): (f: First)
    requires s != ""
    ensures f.Read? ==> 0 < f.length <= |s|
  {
    if s[0] != '$' then Read(Literal(s[..1]), 1)
    else
      var r := s[1..];
      var k := NamespaceEnd(r, 0);
      if k == |r| then Read(Literal(s), |s|)
      else if r[k] == '{' && IsValidMacroNamespace(r[..k]) then
        var e := IndexOf(r[k + 1..], '}');
        if e == |r[k + 1..]| then Unclosed
        else Read(Macro(r[..k], r[k + 1..][..e]), k + e + 3)
      else Read(Literal(s[..k + 2]), k + 2)
  }

  function Lex(s: string): Lexed {
    if s == "" then Lexed([], "")
    else
      match FirstToken(s)
      case Unclosed => Lexed([], s)
      case Read(t, n) => Cons(t, Lex(s[n..]))
  }

  lemma FirstTokenIsFaithful(s: string)
    requires s != "" && FirstToken(s).Read?
    ensures Source(FirstToken(s).token) == s[..FirstToken(s).length]
  {
    hide NamespaceEnd, IndexOf, IsValidMacroNamespace;
    if FirstToken(s).token.Macro? {
      var k := NamespaceEnd(s[1..], 0);
      MacroSlice(s, k, IndexOf(s[1..][k + 1..], '}'));
    }
  }

  lemma MacroSlice(s: string, k: nat, e: nat)
    requires k + e + 3 <= |s| && s[0] == '$' && s[k + 1] == '{' && s[k + e + 2] == '}'
    ensures "$" + s[1..][..k] + "{" + s[1..][k + 1..][..e] + "}" == s[..k + e + 3]
  {
    assert s[1..][k + 1..] == s[k + 2..];
  }

  /** Reading loses nothing: the tokens' source texts, in order, make up the text again. */
  lemma {:induction false} LexIsFaithful(s: string)
    ensures Sources(Lex(s).tokens) + Lex(s).open == s
    decreases |s|
  {
    hide FirstToken, Source, Sources;
    NoSources();
    if s != "" && FirstToken(s).Read? {
      var t, n := FirstToken(s).token, FirstToken(s).length;
      var rest := Lex(s[n..]);
      LexIsFaithful(s[n..]);
      FirstTokenIsFaithful(s);
      SourcesCons(t, rest.tokens);
      assert Lex(s) == Cons(t, rest);
      assert Source(t) + Sources(rest.tokens) + rest.open == Source(t) + (Sources(rest.tokens) + rest.open);
      assert s == s[..n] + s[n..];
    }
  }

  lemma NoSources()
    ensures Sources([]) == ""
  {}

  lemma SourcesCons(t: Token, ts: seq<Token>)
    ensures Sources([t] + ts) == Source(t) + Sources(ts)
  {
    assert ([t] + ts)[1..] == ts;
  }

  // Expanding -------------------------------------------------------------------------------

  function Prepend(s: string, o: Outcome): Outcome {
    if o.Ok? then Ok(s + o.text) else o
  }

  /** The expansion of a token list: literal text and macro values, in order and not read again;
      the first macro that is not Ok decides otherwise. */
  function Render(ts: seq<Token>, f: (string, string) -> Outcome): Outcome {
    if ts == [] then Ok("")
    else
      match ts[0]
      case Literal(text) => Prepend(text, Render(ts[1..], f))
      case Macro(ns, name) =>
        var o := f(ns, name);
        if o.Ok? then Prepend(o.text, Render(ts[1..], f)) else o
  }

  function Close(o: Outcome, open: string): Outcome {
    if o.Ok? && open != "" then Error else o
  }

  /** The meaning of a field text, given the meaning `f` of its macros. */
  function Expand(s: string, f: (string, string) -> Outcome): Outcome {
    Close(Render(Lex(s).tokens, f), Lex(s).open)
  }

  lemma {:induction false} RenderConcat(a: seq<Token>, b: seq<Token>, f: (string, string) -> Outcome)
    ensures Render(a + b, f) ==
            if Render(a, f).Ok? then Prepend(Render(a, f).text, Render(b, f)) else Render(a, f)
  {
    if a == [] {
      assert a + b == b;
    } else {
      assert (a + b)[1..] == a[1..] + b;
      RenderConcat(a[1..], b, f);
    }
  }

  /** Macro number `i` is the first one that is not Ok. */
  ghost predicate StopsAt(ts: seq<Token>, f: (string, string) -> Outcome, i: nat) {
    && i < |ts| && ts[i].Macro? && !f(ts[i].ns, ts[i].name).Ok?
    && forall j :: 0 <= j < i && ts[j].Macro? ==> f(ts[j].ns, ts[j].name).Ok?
  }

  /** It decides what becomes of the tokens. */
  lemma {:induction false} RenderStops(ts: seq<Token>, f: (string, string) -> Outcome, i: nat)
    requires StopsAt(ts, f, i)
    ensures Render(ts, f) == f(ts[i].ns, ts[i].name)
  {
    if i > 0 {
      assert forall j :: 0 < j < |ts| ==> ts[j] == ts[1..][j - 1];
      RenderStops(ts[1..], f, i - 1);
    }
  }

  /** The tokens expand unless there is one. */
  lemma {:induction false} RenderGoesOn(ts: seq<Token>, f: (string, string) -> Outcome)
    ensures Render(ts, f).Ok? <==> !exists i: nat :: StopsAt(ts, f, i)
  {
    if i: nat :| StopsAt(ts, f, i) {
      RenderStops(ts, f, i);
    }
    if !Render(ts, f).Ok? {
      if ts[0].Macro? && !f(ts[0].ns, ts[0].name).Ok? {
        assert StopsAt(ts, f, 0);
      } else {
        RenderGoesOn(ts[1..], f);
        var k: nat :| StopsAt(ts[1..], f, k);
        assert forall j :: 0 < j < |ts| ==> ts[j] == ts[1..][j - 1];
        assert StopsAt(ts, f, k + 1);
      }
    }
  }

  // The text being read, state by state --------------------------------------------------------

  lemma PrefixesClosed(s: string, k: nat)
    requires PrefixesValidMacroNamespace(s) && k <= |s|
    ensures PrefixesValidMacroNamespace(s[..k])
  {}

  ghost predicate EndsNamespace(ns: string, t: string) {
    t == "" || t[0] == '{' || !PrefixesValidMacroNamespace(ns + t[..1])
  }

  lemma {:induction false} NamespaceEndAt(ns: string, t: string, k: nat)
    requires '{' !in ns && PrefixesValidMacroNamespace(ns) && EndsNamespace(ns, t) && k <= |ns|
    ensures NamespaceEnd(ns + t, k) == |ns|
    decreases |ns| - k
  {
    var r := ns + t;
    if k < |ns| {
      assert r[..k + 1] == ns[..k + 1];
      PrefixesClosed(ns, k + 1);
      NamespaceEndAt(ns, t, k + 1);
    } else if t != "" {
      assert r[..k + 1] == ns + t[..1];
    }
  }

  lemma LexNext(s: string, t: Token, rest: string)
    requires s != "" && |rest| <= |s| && FirstToken(s) == Read(t, |s| - |rest|) && s[|s| - |rest|..] == rest
    ensures Lex(s) == Cons(t, Lex(rest))
  {
    hide FirstToken;
  }

  lemma LexPlain(c: char, rest: string)
    requires c != '$'
    ensures Lex([c] + rest) == Cons(Literal([c]), Lex(rest))
  {
    var s := [c] + rest;
    assert s[..1] == [c] && s[1..] == rest;
    LexNext(s, Literal([c]), rest);
  }

  /** An attempted namespace that ends in the wrong way is literal text. */
  lemma LexFailedNamespace(ns: string, c: char, t: string)
    requires '{' !in ns && PrefixesValidMacroNamespace(ns)
    requires if c == '{' then !IsValidMacroNamespace(ns) else !PrefixesValidMacroNamespace(ns + [c])
    ensures Lex("$" + ns + [c] + t) == Cons(Literal("$" + ns + [c]), Lex(t))
  {
    var s := "$" + ns + [c] + t;
    assert ([c] + t)[..1] == [c];
    NamespaceEndAt(ns, [c] + t, 0);
    assert s[1..] == ns + ([c] + t);
    assert s[1..][..|ns|] == ns && s[..|ns| + 2] == "$" + ns + [c];
    LexNext(s, Literal("$" + ns + [c]), t);
  }

  lemma LexPendingNamespace(ns: string)
    requires '{' !in ns && PrefixesValidMacroNamespace(ns)
    ensures Lex("$" + ns) == Lexed([Literal("$" + ns)], "")
  {
    NamespaceEndAt(ns, "", 0);
    assert ("$" + ns)[1..] == ns == ns + "";
    LexNext("$" + ns, Literal("$" + ns), "");
  }

  lemma FirstMacro(ns: string, name: string, t: string)
    requires IsValidMacroNamespace(ns) && '}' !in name
    ensures var s := "$" + ns + "{" + name + "}" + t; FirstToken(s) == Read(Macro(ns, name), |s| - |t|)
  {
    hide IndexOf, NamespaceEnd;
    var s := "$" + ns + "{" + name + "}" + t;
    var body := name + "}" + t;
    NamespaceEndAt(ns, "{" + body, 0);
    assert s[1..] == ns + ("{" + body);
    assert s[1..][..|ns|] == ns && s[1..][|ns| + 1..] == body;
    IndexOfAt(name, '}', t);
    assert body[..|name|] == name;
  }

  lemma LexMacro(ns: string, name: string, t: string)
    requires IsValidMacroNamespace(ns) && '}' !in name
    ensures Lex("$" + ns + "{" + name + "}" + t) == Cons(Macro(ns, name), Lex(t))
  {
    hide FirstToken, Lex;
    FirstMacro(ns, name, t);
    LexNext("$" + ns + "{" + name + "}" + t, Macro(ns, name), t);
  }

  lemma FirstOpen(ns: string, name: string)
    requires IsValidMacroNamespace(ns) && '}' !in name
    ensures FirstToken("$" + ns + "{" + name) == Unclosed
  {
    hide IndexOf, NamespaceEnd;
    var s := "$" + ns + "{" + name;
    NamespaceEndAt(ns, "{" + name, 0);
    assert s[1..] == ns + ("{" + name);
    assert s[1..][..|ns|] == ns && s[1..][|ns| + 1..] == name;
    assert IndexOf(name, '}') < |name| ==> '}' in name;
  }

  lemma LexOpenMacro(ns: string, name: string)
    requires IsValidMacroNamespace(ns) && '}' !in name
    ensures Lex("$" + ns + "{" + name) == Lexed([], "$" + ns + "{" + name)
  {
    hide FirstToken;
    FirstOpen(ns, name);
  }
}
