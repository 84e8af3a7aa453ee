/**
 Macro expansion over an environment that is expanded in place: the character loop, the macro
 dispatch and the visit of a variable call each other, and a variable met in a text is expanded
 on the spot, once, its value being reused from then on.
 */
module MacroExpansion {
  import opened Wrappers
  import opened Graphs
  import opened MacroLexer
  import opened EnvironmentValues

  // The lexer loop ---------------------------------------------------------------------------------------

  datatype LexState = Default | MacroNamespace | MacroName

  /** The text from the end of the last complete token on, `tail` being still unread. */
  function Unread(state: LexState, ns: string, name: string, tail: string): string {
    match state
    case Default => tail
    case MacroNamespace => "$" + ns + tail
    case MacroName => "$" + ns + "{" + name + tail
  }

  ghost predicate ReadSoFar(text: string, done: seq<Token>, rest: string) {
    Lex(text) == Lexed(done + Lex(rest).tokens, Lex(rest).open)
  }

  lemma TokenRead(text: string, done: seq<Token>, rest: string, t: Token, rest': string)
    requires ReadSoFar(text, done, rest) && Lex(rest) == Cons(t, Lex(rest'))
    ensures ReadSoFar(text, done + [t], rest')
    ensures |done| < |Lex(text).tokens| && Lex(text).tokens[|done|] == t
  {
    hide Lex;
    assert done + ([t] + Lex(rest').tokens) == (done + [t]) + Lex(rest').tokens;
  }

  lemma TokenRendered(done: seq<Token>, t: Token, f: (string, string) -> Outcome)
    requires Render(done, f).Ok?
    ensures Render(done + [t], f) ==
            match t
            case Literal(text) => Outcome.Ok(Render(done, f).text + text)
            case Macro(ns, name) => Prepend(Render(done, f).text, f(ns, name))
  {
    RenderConcat(done, [t], f);
    assert [t][1..] == [];
  }

  lemma TokenFailed(text: string, done: seq<Token>, rest: string, f: (string, string) -> Outcome, ns: string,
                    name: string)
    requires ReadSoFar(text, done + [Macro(ns, name)], rest)
    requires Render(done, f).Ok? && !f(ns, name).Ok?
    ensures Expand(text, f) == f(ns, name)
  {
    hide Lex;
    TokenRendered(done, Macro(ns, name), f);
    RenderConcat(done + [Macro(ns, name)], Lex(rest).tokens, f);
  }

  lemma AllRead(text: string, done: seq<Token>, rest: string, f: (string, string) -> Outcome)
    requires ReadSoFar(text, done, rest) && Render(done, f).Ok? && Lex(rest).tokens == []
    ensures Expand(text, f) == if Lex(rest).open == "" then Render(done, f) else Outcome.Error
  {
    assert done + [] == done;
  }

  /** Reading a token and, when its meaning is Ok, appending its meaning. */
  lemma Emit(text: string, done: seq<Token>, rest: string, t: Token, rest': string, f: (string, string) -> Outcome)
    requires ReadSoFar(text, done, rest) && Lex(rest) == Cons(t, Lex(rest')) && Render(done, f).Ok?
    ensures ReadSoFar(text, done + [t], rest')
    ensures |done| < |Lex(text).tokens| && Lex(text).tokens[|done|] == t
    ensures t.Literal? ==> Render(done + [t], f) == Outcome.Ok(Render(done, f).text + t.text)
    ensures t.Macro? ==> Render(done + [t], f) == Prepend(Render(done, f).text, f(t.ns, t.name))
  {
    TokenRead(text, done, rest, t, rest');
    TokenRendered(done, t, f);
  }

  lemma EmitPlain(text: string, done: seq<Token>, c: char, tail: string, f: (string, string) -> Outcome)
    requires c != '$' && ReadSoFar(text, done, Unread(Default, "", "", [c] + tail)) && Render(done, f).Ok?
    ensures ReadSoFar(text, done + [Literal([c])], Unread(Default, "", "", tail))
    ensures Render(done + [Literal([c])], f) == Outcome.Ok(Render(done, f).text + [c])
  {
    hide Lex, Render, ReadSoFar;
    LexPlain(c, tail);
    Emit(text, done, [c] + tail, Literal([c]), tail, f);
  }

  lemma EmitFailed(text: string, done: seq<Token>, ns: string, c: char, tail: string, f: (string, string) -> Outcome)
    requires '{' !in ns && PrefixesValidMacroNamespace(ns)
    requires if c == '{' then !IsValidMacroNamespace(ns) else !PrefixesValidMacroNamespace(ns + [c])
    requires ReadSoFar(text, done, Unread(MacroNamespace, ns, "", [c] + tail)) && Render(done, f).Ok?
    ensures ReadSoFar(text, done + [Literal("$" + ns + [c])], Unread(Default, "", "", tail))
    ensures Render(done + [Literal("$" + ns + [c])], f) == Outcome.Ok(Render(done, f).text + ("$" + ns + [c]))
  {
    hide Lex, Render, ReadSoFar, PrefixesValidMacroNamespace, IsValidMacroNamespace;
    LexFailedNamespace(ns, c, tail);
    assert "$" + ns + ([c] + tail) == "$" + ns + [c] + tail;
    Emit(text, done, "$" + ns + [c] + tail, Literal("$" + ns + [c]), tail, f);
  }

  lemma EmitMacro(text: string, done: seq<Token>, ns: string, name: string, tail: string, f: (string,
                  string) -> Outcome)
    requires IsValidMacroNamespace(ns) && '}' !in name
    requires ReadSoFar(text, done, Unread(MacroName, ns, name, ['}'] + tail)) && Render(done, f).Ok?
    ensures ReadSoFar(text, done + [Macro(ns, name)], Unread(Default, "", "", tail))
    ensures |done| < |Lex(text).tokens| && Lex(text).tokens[|done|] == Macro(ns, name)
    ensures Render(done + [Macro(ns, name)], f) == Prepend(Render(done, f).text, f(ns, name))
  {
    hide Lex, Render, ReadSoFar, IsValidMacroNamespace;
    LexMacro(ns, name, tail);
    assert "$" + ns + "{" + name + (['}'] + tail) == "$" + ns + "{" + name + "}" + tail;
    Emit(text, done, "$" + ns + "{" + name + "}" + tail, Macro(ns, name), tail, f);
  }

  /** The end of the text: a namespace begun is literal, a macro begun is an error. */
  lemma Finish(text: string, done: seq<Token>, state: LexState, ns: string, name: string, f: (string,
               string) -> Outcome)
    requires state == MacroNamespace ==> '{' !in ns && PrefixesValidMacroNamespace(ns)
    requires state == MacroName ==> IsValidMacroNamespace(ns) && '}' !in name
    requires ReadSoFar(text, done, Unread(state, ns, name, "")) && Render(done, f).Ok?
    ensures Expand(text, f) ==
            match state
            case Default => Render(done, f)
            case MacroNamespace => Outcome.Ok(Render(done, f).text + ("$" + ns))
            case MacroName => Outcome.Error
  {
    hide Lex, Render, ReadSoFar, PrefixesValidMacroNamespace, IsValidMacroNamespace, Expand;
    LexEmpty();
    match state
    case Default =>
      AllRead(text, done, "", f);
    case MacroNamespace =>
      LexPendingNamespace(ns);
      assert Unread(state, ns, name, "") == "$" + ns;
      Emit(text, done, "$" + ns, Literal("$" + ns), "", f);
      AllRead(text, done + [Literal("$" + ns)], "", f);
    case MacroName =>
      LexOpenMacro(ns, name);
      assert Unread(state, ns, name, "") == "$" + ns + "{" + name;
      AllRead(text, done, "$" + ns + "{" + name, f);
  }

  lemma ReadNothing(text: string, f: (string, string) -> Outcome)
    ensures ReadSoFar(text, [], Unread(Default, "", "", text[0..])) && Render([], f) == Outcome.Ok("")
  {
    hide Lex;
    assert text[0..] == text;
    assert [] + Lex(text).tokens == Lex(text).tokens;
  }

  // Reading on without completing a token.
  lemma UnreadDollar(tail: string)
    ensures Unread(Default, "", "", ['$'] + tail) == Unread(MacroNamespace, "", "", tail)
  {
    assert "$" + "" + tail == ['$'] + tail;
  }

  lemma UnreadBrace(ns: string, tail: string)
    ensures Unread(MacroNamespace, ns, "", ['{'] + tail) == Unread(MacroName, ns, "", tail)
  {
    assert "$" + ns + "{" + "" + tail == "$" + ns + (['{'] + tail);
  }

  lemma UnreadNamespace(ns: string, c: char, tail: string)
    ensures Unread(MacroNamespace, ns, "", [c] + tail) == Unread(MacroNamespace, ns + [c], "", tail)
  {
    assert "$" + (ns + [c]) + tail == "$" + ns + ([c] + tail);
  }

  lemma UnreadName(ns: string, name: string, c: char, tail: string)
    ensures Unread(MacroName, ns, name, [c] + tail) == Unread(MacroName, ns, name + [c], tail)
  {
    assert "$" + ns + "{" + (name + [c]) + tail == "$" + ns + "{" + name + ([c] + tail);
  }

  lemma EmptyNamespace()
    ensures PrefixesValidMacroNamespace("")
  {}

  lemma LexEmpty()
    ensures Lex("") == Lexed([], "")
  {}

  /** For a reference, any failure of the variable is an error of the macro. */
  lemma ReferenceMeaning(w: World, ns: string, name: string)
    ensures IsReference(w, ns, name) && name !in Values(w) ==> EnvMacro(w, Values(w), ns, name) == Outcome.Error
    ensures !EnvMacro(w, Values(w), ns, name).Defer?
    ensures IsReference(w, ns, name) ==> ns != "vendor"
  {
    hide Values;
  }

  // Expansion in place -----------------------------------------------------------------------------------

  ghost function Fresh(status: map<string, CycleStatus>): set<string> {
    set n | n in status && status[n] == Unvisited
  }

  /** A verified variable holds its unfolded value, every other variable its original text. */
  ghost predicate Sound(w: World, env: map<string, Option<string>>, status: map<string, CycleStatus>) {
    && env.Keys == w.vars.Keys == status.Keys
    && forall n :: n in env ==>
         if status[n] == Verified then n in Values(w) && env[n] == Some(Values(w)[n]) else env[n] == w.vars[n]
  }

  /** What a completed step leaves behind. */
  ghost predicate Progressed(w: World, status: map<string, CycleStatus>,
                             env': map<string, Option<string>>, status': map<string, CycleStatus>)
  {
    Sound(w, env', status') && Busy(status') == Busy(status) && Fresh(status') <= Fresh(status)
  }

  lemma VisitStarts(w: World, env: map<string, Option<string>>, status: map<string, CycleStatus>, name: string)
    requires Sound(w, env, status) && HasValue(w, name) && status[name] == Unvisited
    ensures Sound(w, env, status[name := InProgress])
    ensures Busy(status[name := InProgress]) == Busy(status) + {name}
    ensures Fresh(status[name := InProgress]) == Fresh(status) - {name} < Fresh(status)
  {
    hide Values;
    assert name in Fresh(status);
  }

  lemma VisitEnds(w: World, status: map<string, CycleStatus>, name: string,
                  env': map<string, Option<string>>, status': map<string, CycleStatus>)
    requires name in w.vars && name in status && status[name] == Unvisited && name in Values(w)
    requires Progressed(w, status[name := InProgress], env', status')
    ensures Progressed(w, status, env'[name := Some(Values(w)[name])], status'[name := Verified])
  {
    hide Values;
    var mid := status[name := InProgress];
    assert Busy(mid) == Busy(status) + {name};
    assert name in Busy(status');
    assert Busy(status'[name := Verified]) == Busy(status') - {name};
    assert name !in Busy(status);
    assert Fresh(mid) <= Fresh(status);
  }

  lemma AllVerified(w: World, env: map<string, Option<string>>, status: map<string, CycleStatus>)
    requires Sound(w, env, status) && Busy(status) == {}
    requires forall n :: HasValue(w, n) ==> n !in Fresh(status)
    ensures AllHaveValues(w)
    ensures env == map n | n in w.vars :: if HasValue(w, n) then Some(Values(w)[n]) else None
  {
    hide Values, TextIn;
    forall n | n in env
      ensures if HasValue(w, n) then n in Values(w) && env[n] == Some(Values(w)[n]) else env[n] == None
    {
      ValuesSolve(w, n);
      assert n !in Busy(status);
    }
  }

  class Expansion {
    const expanders: seq<Expander>
    const version: int
    const processEnv: map<string, string>
    var environment: map<string, Option<string>>
    var envCycles: map<string, CycleStatus>

    constructor (expanders: seq<Expander>, version: int, processEnv: map<string, string>,
                 vars: map<string, Option<string>>)
      ensures this.expanders == expanders && this.version == version && this.processEnv == processEnv
      ensures environment == vars && envCycles == map n | n in vars :: Unvisited
    {
      this.expanders, this.version, this.processEnv := expanders, version, processEnv;
      environment, envCycles := vars, map n | n in vars :: Unvisited;
    }

    ghost predicate Of(w: World)
    {
      w.expanders == expanders && w.version == version && w.processEnv == processEnv && Standard(expanders)
    }

    /** Expands one variable in place, unless that has been done. */
    method VisitEnv(ghost w: World, name: string) returns (e: Result)
      requires Of(w) && HasEnvironment(w) && Sound(w, environment, envCycles) && HasValue(w, name)
      requires forall m, k: nat :: m in Busy(envCycles) && m in Known(w, k + 1) ==> name in Known(w, k)
      modifies this`environment, this`envCycles
      ensures e == if old(envCycles)[name] == InProgress then Result.Error
                   else Kind(TextIn(w, Values(w), w.vars[name].value))
      ensures e == Result.Ok <==> name in Values(w)
      ensures e == Result.Ok ==>
                Progressed(w, old(envCycles), environment, envCycles) &&
                envCycles[name] == Verified && environment[name] == Some(Values(w)[name])
      decreases Fresh(envCycles), 0
    {
      hide Values, TextIn, Known;
      ValuesSolve(w, name);
      if envCycles[name] == Verified {
        return Result.Ok;
      }
      if envCycles[name] == InProgress {
        WaitingHasNoValue(w, Busy(envCycles), name);
        return Result.Error;
      }
      ghost var status := envCycles;
      VisitStarts(w, environment, status, name);
      AwaitsOwnText(w, Busy(status), name);
      envCycles := envCycles[name := InProgress];
      var value;
      e, value := ExpandMacros(w, environment[name].value);
      if e != Result.Ok {
        return;
      }
      VisitEnds(w, status, name, environment, envCycles);
      environment := environment[name := Some(value)];
      envCycles := envCycles[name := Verified];
    }

    /** The environment expander: variables of the preset first, then the process environment. */
    method ExpandEnvironment(ghost w: World, out: string, ns: string, name: string) returns (e: Result, out': string)
      requires Of(w) && HasEnvironment(w) && Sound(w, environment, envCycles)
      requires AwaitsMacro(w, Busy(envCycles), ns, name)
      modifies this`environment, this`envCycles
      ensures !IsReference(w, ns, name) ==> e == Kind(EnvMacro(w, Values(w), ns, name))
      ensures IsReference(w, ns, name) ==> e != Result.Defer && (e == Result.Ok <==> name in Values(w))
      ensures e == Result.Ok ==>
                EnvMacro(w, Values(w), ns, name).Ok? && out' == out + EnvMacro(w, Values(w), ns, name).text &&
                Progressed(w, old(envCycles), environment, envCycles)
      ensures !IsReference(w, ns, name) ==> environment == old(environment) && envCycles == old(envCycles)
      decreases Fresh(envCycles), 1
    {
      hide Values, Known, TextIn;
      if ns == "env" && name != "" && name in environment && environment[name].Some? {
        ValuesSolve(w, name);
        assert IsReference(w, ns, name);
        AwaitsVariable(w, Busy(envCycles), name);
        TextNotDeferred(w, Values(w), w.vars[name].value);
        e := VisitEnv(w, name);
        return e, if e == Result.Ok then out + environment[name].value else out;
      }
      if ns == "env" || ns == "penv" {
        if name == "" {
          return Result.Error, out;
        }
        return Result.Ok, if name in processEnv then out + processEnv[name] else out;
      }
      return Result.Ignore, out;
    }

    /** Tries the expanders in order on one macro, appending its value. */
    method ExpandMacro(ghost w: World, out: string, ns: string, name: string) returns (e: Result, out': string)
      requires Of(w) && Sound(w, environment, envCycles) && AwaitsMacro(w, Busy(envCycles), ns, name)
      modifies this`environment, this`envCycles
      ensures e == Kind(Macros(w, Values(w))(ns, name))
      ensures e == Result.Ok ==>
                out' == out + Macros(w, Values(w))(ns, name).text &&
                Progressed(w, old(envCycles), environment, envCycles)
      decreases Fresh(envCycles), 2
    {
      hide Values, Known, Apply, EnvMacro;
      for i := 0 to |expanders|
        invariant i < |expanders| ==> Sound(w, environment, envCycles) && envCycles == old(envCycles)
        invariant Macros(w, Values(w))(ns, name) == Dispatch(w, Values(w), expanders[i..], ns, name)
      {
        if expanders[i].EnvironmentExpander? {
          assert expanders[i..] == [EnvironmentExpander] && expanders[i..][1..] == [];
          e, out' := ExpandEnvironment(w, out, ns, name);
          ReferenceMeaning(w, ns, name);
          if e != Result.Ignore {
            return;
          }
        } else {
          var o := Apply(expanders[i], ns, name, version);
          if !o.Ignore? {
            return Kind(o), if o.Ok? then out + o.text else out;
          }
        }
      }
      return if ns == "vendor" then Result.Ignore else Result.Error, out;
    }

    /** The character loop over a text. */
    method ExpandMacros(ghost w: World, text: string) returns (e: Result, out: string)
      requires Of(w) && Sound(w, environment, envCycles) && Awaits(w, Busy(envCycles), text)
      modifies this`environment, this`envCycles
      ensures e == Kind(TextIn(w, Values(w), text))
      ensures e == Result.Ok ==>
                Outcome.Ok(out) == TextIn(w, Values(w), text) && Progressed(w, old(envCycles), environment, envCycles)
      ensures e != Result.Ok ==> out == text
      decreases Fresh(envCycles), 3
    {
      hide Values, Known, Lex, Render, Awaits, AwaitsMacro, ReadSoFar, Expand;
      hide PrefixesValidMacroNamespace, IsValidMacroNamespace, Sound, Busy, Fresh, Dispatch, Unread;
      var result, ns, name, state := "", "", "", Default;
      ghost var f := Macros(w, Values(w));
      ghost var done: seq<Token> := [];
      ReadNothing(text, f);
      EmptyNamespace();
      for i := 0 to |text|
        invariant ReadSoFar(text, done, Unread(state, ns, name, text[i..]))
        invariant Render(done, f) == Outcome.Ok(result)
        invariant Progressed(w, old(envCycles), environment, envCycles)
        invariant state == Default ==> ns == "" && name == ""
        invariant state == MacroNamespace ==> '{' !in ns && PrefixesValidMacroNamespace(ns) && name == ""
        invariant state == MacroName ==> IsValidMacroNamespace(ns) && '}' !in name
      {
        var c := text[i];
        ghost var tail := text[i + 1..];
        assert text[i..] == [c] + tail;
        match state {
          case Default =>
            if c == '$' {
              state := MacroNamespace;
              UnreadDollar(tail);
            } else {
              EmitPlain(text, done, c, tail, f);
              done := done + [Literal([c])];
              result := result + [c];
            }
          case MacroNamespace =>
            if c == '{' {
              if IsValidMacroNamespace(ns) {
                state := MacroName;
                UnreadBrace(ns, tail);
              } else {
                EmitFailed(text, done, ns, c, tail, f);
                done := done + [Literal("$" + ns + [c])];
                result := result + ("$" + ns + "{");
                ns, state := "", Default;
              }
            } else {
              if PrefixesValidMacroNamespace(ns + [c]) {
                UnreadNamespace(ns, c, tail);
                ns := ns + [c];
              } else {
                EmitFailed(text, done, ns, c, tail, f);
                done := done + [Literal("$" + ns + [c])];
                result := result + ("$" + ns + [c]);
                ns, state := "", Default;
              }
            }
          case MacroName =>
            if c == '}' {
              EmitMacro(text, done, ns, name, tail, f);
              AwaitsToken(w, Busy(envCycles), text, |done|);
              e, result := ExpandMacro(w, result, ns, name);
              if e != Result.Ok {
                TokenFailed(text, done, Unread(Default, "", "", tail), f, ns, name);
                return e, text;
              }
              done := done + [Macro(ns, name)];
              ns, name, state := "", "", Default;
            } else {
              UnreadName(ns, name, c, tail);
              name := name + [c];
            }
        }
      }
      assert text[|text|..] == "";
      Finish(text, done, state, ns, name, f);
      match state {
        case Default =>
          return Result.Ok, result;
        case MacroNamespace =>
          return Result.Ok, result + ("$" + ns);
        case MacroName =>
          return Result.Error, text;
      }
    }

    /** The loop over the environment, in the order of its keys. */
    method ExpandVariables(ghost w: World, order: seq<string>) returns (v: Verdict)
      requires Of(w) && HasEnvironment(w) && w.vars == environment
      requires envCycles == map n | n in w.vars :: Unvisited
      requires forall n :: n in order <==> n in w.vars
      modifies this`environment, this`envCycles
      ensures v == VerdictOf(w, order)
      ensures v == Expanded <==> AllHaveValues(w)
      ensures v == Expanded ==>
                environment == map n | n in w.vars :: if HasValue(w, n) then Some(Values(w)[n]) else None
    {
      hide Values, Known, TextIn;
      VerdictExpanded(w, order);
      assert Busy(envCycles) == {};
      for i := 0 to |order|
        invariant Sound(w, environment, envCycles) && Busy(envCycles) == {}
        invariant VerdictOf(w, order) == VerdictOf(w, order[i..])
        invariant forall j :: 0 <= j < i && HasValue(w, order[j]) ==> order[j] !in Fresh(envCycles)
      {
        var n := order[i];
        assert order[i..][1..] == order[i + 1..];
        assert n !in Busy(envCycles);
        ValuesSolve(w, n);
        if environment[n].Some? {
          TextNotDeferred(w, Values(w), w.vars[n].value);
          var e := VisitEnv(w, n);
          if e == Result.Error {
            return Failed;
          }
          if e == Result.Ignore {
            return Reset;
          }
        }
      }
      forall n | HasValue(w, n)
        ensures n !in Fresh(envCycles)
      {
        var j :| 0 <= j < |order| && order[j] == n;
      }
      AllVerified(w, environment, envCycles);
      return Expanded;
    }
  }
}
