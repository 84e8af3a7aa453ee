/**
 What the macros and the environment of a preset mean: the macro expanders, the least solution
 of the variables' definitions, each text being read once, and when that solution is total.
 */
module EnvironmentValues {
  import opened Wrappers
  import opened Graphs
  import opened MacroLexer

  datatype Result = Ok | Ignore | Defer | Error

  function Kind(o: Outcome): Result {
    match o
    case Ok(_) => Result.Ok
    case Ignore => Result.Ignore
    case Defer => Result.Defer
    case Error => Result.Error
  }

  /** The macro expanders; directory and system names are given as the strings they evaluate to. */
  datatype Expander =
    | BaseExpander(sourceDir: string, sourceParentDir: string, sourceDirName: string,
                   hostSystemName: string, pathListSep: string, file: Option<string>)
    | PresetExpander(presetName: string, configurePresetName: Option<string>, hidden: bool,
                     generator: string, fileDir: string)
    | EnvironmentExpander
    | ImmediateExpander(dir: string)

  function Since(version: int, minimum: int, value: string): Outcome {
    if version < minimum then Outcome.Error else Outcome.Ok(value)
  }

  /** The expanders that do not depend on the environment. */
  function Apply(e: Expander, ns: string, name: string, version: int): Outcome
    requires !e.EnvironmentExpander?
  {
    if e.ImmediateExpander? then
      if ns == "" && name == "fileDir" && version >= 12 then Outcome.Ok(e.dir) else Outcome.Defer
    else if ns != "" then Outcome.Ignore
    else if e.BaseExpander? then
      if name == "sourceDir" then Outcome.Ok(e.sourceDir)
      else if name == "sourceParentDir" then Outcome.Ok(e.sourceParentDir)
      else if name == "sourceDirName" then Outcome.Ok(e.sourceDirName)
      else if name == "dollar" then Outcome.Ok("$")
      else if name == "hostSystemName" then Since(version, 3, e.hostSystemName)
      else if name == "fileDir" && e.file.Some? then Since(version, 4, e.file.value)
      else if name == "pathListSep" then Since(version, 5, e.pathListSep)
      else Outcome.Ignore
    else if name == "presetName" then Outcome.Ok(e.presetName)
    else if name == "configurePresetName" then
      if e.configurePresetName.None? then Outcome.Error else Since(version, 13, e.configurePresetName.value)
    else if name == "generator" then Outcome.Ok(if e.hidden then "" else e.generator)
    else if name == "fileDir" then Since(version, 4, e.fileDir)
    else Outcome.Ignore
  }

  /** The texts and tables that expansion starts from. */
  datatype World = World(expanders: seq<Expander>, version: int, processEnv: map<string, string>,
                         vars: map<string, Option<string>>)

  /** All expanders but the last are the graph's and the preset's. */
  predicate Standard(expanders: seq<Expander>) {
    forall i :: 0 <= i < |expanders| - 1 ==> expanders[i].BaseExpander? || expanders[i].PresetExpander?
  }

  ghost predicate HasEnvironment(w: World) {
    Standard(w.expanders) && w.expanders != [] && w.expanders[|w.expanders| - 1].EnvironmentExpander?
  }

  predicate HasValue(w: World, n: string) {
    n in w.vars && w.vars[n].Some?
  }

  predicate IsReference(w: World, ns: string, name: string) {
    ns == "env" && name != "" && HasValue(w, name)
  }

  /** The environment expander, when the values of the variables in `known` are known. */
  function EnvMacro(w: World, known: map<string, string>, ns: string, name: string): Outcome {
    if IsReference(w, ns, name) then
      if name in known then Outcome.Ok(known[name]) else Outcome.Error
    else if ns == "env" || ns == "penv" then
      if name == "" then Outcome.Error
      else Outcome.Ok(if name in w.processEnv then w.processEnv[name] else "")
    else Outcome.Ignore
  }

  /** The first expander that does not ignore the macro decides. */
  function Dispatch(w: World, known: map<string, string>, es: seq<Expander>, ns: string, name: string): Outcome {
    if es == [] then
      if ns == "vendor" then Outcome.Ignore else Outcome.Error
    else
      var o := if es[0].EnvironmentExpander? then EnvMacro(w, known, ns, name) else Apply(es[0], ns, name, w.version);
      if o.Ignore? then Dispatch(w, known, es[1..], ns, name) else o
  }

  function Macros(w: World, known: map<string, string>): (string, string) -> Outcome {
    (ns: string, name: string) => Dispatch(w, known, w.expanders, ns, name)
  }

  /** The meaning of a text when the values of the variables in `known` are known. */
  function TextIn(w: World, known: map<string, string>, text: string): Outcome {
    Expand(text, Macros(w, known))
  }

  /** The variables whose values are found by unfolding at most `depth` levels of references. */
  ghost function Known(w: World, depth: nat): map<string, string> {
    if depth == 0 then map[]
    else map n | n in w.vars && HasValue(w, n) && TextIn(w, Known(w, depth - 1), w.vars[n].value).Ok? ::
           TextIn(w, Known(w, depth - 1), w.vars[n].value).text
  }

  /** The plain recursive unfolding of every variable that has one. */
  ghost function Values(w: World): map<string, string> {
    Known(w, |w.vars|)
  }

  // More knowledge changes no value -----------------------------------------------------------------

  ghost predicate Extends(a: map<string, string>, b: map<string, string>) {
    forall n :: n in a ==> n in b && b[n] == a[n]
  }

  lemma {:induction false} DispatchMore(w: World, a: map<string, string>, b: map<string, string>,
                                        es: seq<Expander>, ns: string, name: string)
    requires Extends(a, b) && Dispatch(w, a, es, ns, name).Ok?
    ensures Dispatch(w, b, es, ns, name) == Dispatch(w, a, es, ns, name)
  {
    if es != [] {
      var o := if es[0].EnvironmentExpander? then EnvMacro(w, a, ns, name) else Apply(es[0], ns, name, w.version);
      if o.Ignore? {
        DispatchMore(w, a, b, es[1..], ns, name);
      }
    }
  }

  ghost predicate Refines(f: (string, string) -> Outcome, g: (string, string) -> Outcome) {
    forall ns, name :: f(ns, name).Ok? ==> g(ns, name) == f(ns, name)
  }

  lemma {:induction false} RenderMore(ts: seq<Token>, f: (string, string) -> Outcome, g: (string, string) -> Outcome)
    requires Refines(f, g) && Render(ts, f).Ok?
    ensures Render(ts, g) == Render(ts, f)
  {
    if ts != [] {
      RenderMore(ts[1..], f, g);
    }
  }

  lemma TextMore(w: World, a: map<string, string>, b: map<string, string>, text: string)
    requires Extends(a, b) && TextIn(w, a, text).Ok?
    ensures TextIn(w, b, text) == TextIn(w, a, text)
  {
    forall ns, name | Macros(w, a)(ns, name).Ok?
      ensures Macros(w, b)(ns, name) == Macros(w, a)(ns, name)
    {
      DispatchMore(w, a, b, w.expanders, ns, name);
    }
    RenderMore(Lex(text).tokens, Macros(w, a), Macros(w, b));
  }

  lemma {:induction false} KnownNext(w: World, k: nat)
    ensures Extends(Known(w, k), Known(w, k + 1))
  {
    if k > 0 {
      KnownNext(w, k - 1);
      forall n | n in Known(w, k)
        ensures n in Known(w, k + 1) && Known(w, k + 1)[n] == Known(w, k)[n]
      {
        TextMore(w, Known(w, k - 1), Known(w, k), w.vars[n].value);
      }
    }
  }

  lemma {:induction false} KnownDeeper(w: World, j: nat, k: nat)
    requires j <= k
    ensures Extends(Known(w, j), Known(w, k))
    decreases k
  {
    hide Known;
    if j < k {
      KnownDeeper(w, j, k - 1);
      KnownNext(w, k - 1);
    }
  }

  // The unfolding ends after as many levels as there are variables ------------------------------------

  lemma KnownAreVars(w: World, k: nat)
    ensures Known(w, k).Keys <= w.vars.Keys
    ensures forall n :: n in Known(w, k) ==> HasValue(w, n)
  {}

  lemma ExtendsSameSize(a: map<string, string>, b: map<string, string>)
    requires Extends(a, b) && |b| <= |a|
    ensures a == b
  {
    assert a.Keys <= b.Keys;
    assert |b.Keys - a.Keys| == |b.Keys| - |a.Keys|;
    assert b.Keys - a.Keys == {};
  }

  /** Either the unfolding has stopped before `k`, or each level found another variable. */
  lemma {:induction false} KnownGrows(w: World, k: nat)
    ensures Known(w, k + 1) == Known(w, k) || |Known(w, k + 1)| > k
  {
    hide Known;
    KnownNext(w, k);
    if k > 0 {
      KnownGrows(w, k - 1);
      if Known(w, k) == Known(w, k - 1) {
        KnownStops(w, k - 1);
      }
    }
    if |Known(w, k + 1)| <= |Known(w, k)| {
      ExtendsSameSize(Known(w, k), Known(w, k + 1));
    }
  }

  lemma KnownStops(w: World, k: nat)
    requires Known(w, k + 1) == Known(w, k)
    ensures Known(w, k + 2) == Known(w, k + 1)
  {}

  lemma ValuesAreFinal(w: World)
    ensures Known(w, |w.vars| + 1) == Values(w)
  {
    var n := |w.vars|;
    KnownGrows(w, n);
    KnownAreVars(w, n + 1);
    assert |w.vars.Keys - Known(w, n + 1).Keys| == |w.vars.Keys| - |Known(w, n + 1).Keys|;
  }

  lemma {:induction false} KnownWithinValues(w: World, k: nat)
    ensures Extends(Known(w, k), Values(w))
  {
    if k <= |w.vars| {
      KnownDeeper(w, k, |w.vars|);
    } else {
      KnownWithinValues(w, k - 1);
      ValuesAreFinal(w);
      forall n | n in Known(w, k)
        ensures n in Values(w) && Values(w)[n] == Known(w, k)[n]
      {
        TextMore(w, Known(w, k - 1), Values(w), w.vars[n].value);
      }
    }
  }

  /** A variable has a value exactly when its text does, and then it is the text's meaning. */
  lemma ValuesSolve(w: World, n: string)
    ensures n in Values(w) <==> HasValue(w, n) && TextIn(w, Values(w), w.vars[n].value).Ok?
    ensures n in Values(w) ==> TextIn(w, Values(w), w.vars[n].value) == Outcome.Ok(Values(w)[n])
  {
    ValuesAreFinal(w);
  }

  // Why an expansion in progress is never met again, unless it has no value ----------------------------

  /** Whatever is being expanded refers, directly or not, to `text`: it becomes known only after it. */
  ghost predicate Awaits(w: World, busy: set<string>, text: string) {
    forall m, k: nat :: m in busy && m in Known(w, k + 1) ==> TextIn(w, Known(w, k), text).Ok?
  }

  ghost predicate AwaitsMacro(w: World, busy: set<string>, ns: string, name: string) {
    forall m, k: nat :: m in busy && m in Known(w, k + 1) ==> Macros(w, Known(w, k))(ns, name).Ok?
  }

  lemma {:induction false} RenderTokens(ts: seq<Token>, f: (string, string) -> Outcome, i: nat)
    requires Render(ts, f).Ok? && i < |ts| && ts[i].Macro?
    ensures f(ts[i].ns, ts[i].name).Ok?
  {
    if i > 0 {
      RenderTokens(ts[1..], f, i - 1);
    }
  }

  lemma AwaitsToken(w: World, busy: set<string>, text: string, i: nat)
    requires Awaits(w, busy, text) && i < |Lex(text).tokens| && Lex(text).tokens[i].Macro?
    ensures AwaitsMacro(w, busy, Lex(text).tokens[i].ns, Lex(text).tokens[i].name)
  {
    hide Known, Lex, Render;
    forall m, k: nat | m in busy && m in Known(w, k + 1)
      ensures Macros(w, Known(w, k))(Lex(text).tokens[i].ns, Lex(text).tokens[i].name).Ok?
    {
      assert TextIn(w, Known(w, k), text).Ok?;
      RenderTokens(Lex(text).tokens, Macros(w, Known(w, k)), i);
    }
  }

  /** A reference reaches the environment expander, all others ignoring it. */
  lemma {:induction false} DispatchReference(w: World, known: map<string, string>, es: seq<Expander>, name: string)
    requires IsReference(w, "env", name) && Standard(es) && es != [] && es[|es| - 1].EnvironmentExpander?
    ensures Dispatch(w, known, es, "env", name) == EnvMacro(w, known, "env", name)
  {
    if |es| > 1 {
      assert forall i :: 0 <= i < |es| - 2 ==> es[1..][i] == es[i + 1];
      DispatchReference(w, known, es[1..], name);
    }
  }

  lemma AwaitsVariable(w: World, busy: set<string>, name: string)
    requires HasEnvironment(w)
    requires AwaitsMacro(w, busy, "env", name) && IsReference(w, "env", name)
    ensures forall m, k: nat :: m in busy && m in Known(w, k + 1) ==> name in Known(w, k)
  {
    hide Known;
    forall m, k: nat | m in busy && m in Known(w, k + 1)
      ensures name in Known(w, k)
    {
      assert Macros(w, Known(w, k))("env", name).Ok?;
      DispatchReference(w, Known(w, k), w.expanders, name);
    }
  }

  lemma KnownText(w: World, name: string, k: nat)
    requires name in Known(w, k)
    ensures k > 0 && HasValue(w, name) && TextIn(w, Known(w, k - 1), w.vars[name].value).Ok?
  {}

  /** Expanding the variable keeps everything in progress, now including itself, waiting. */
  lemma AwaitsOwnText(w: World, busy: set<string>, name: string)
    requires HasValue(w, name)
    requires forall m, k: nat :: m in busy && m in Known(w, k + 1) ==> name in Known(w, k)
    ensures Awaits(w, busy + {name}, w.vars[name].value)
  {
    hide Known, TextIn;
    var text := w.vars[name].value;
    forall m, k: nat | m in busy + {name} && m in Known(w, k + 1)
      ensures TextIn(w, Known(w, k), text).Ok?
    {
      KnownText(w, m, k + 1);
      if m in busy {
        KnownText(w, name, k);
        KnownNext(w, k - 1);
        TextMore(w, Known(w, k - 1), Known(w, k), text);
      }
    }
  }

  /** A variable that waits for itself has no value. */
  lemma {:induction false} WaitingForItself(w: World, busy: set<string>, name: string, k: nat)
    requires name in busy
    requires forall m, j: nat :: m in busy && m in Known(w, j + 1) ==> name in Known(w, j)
    ensures name !in Known(w, k)
  {
    if k > 0 {
      WaitingForItself(w, busy, name, k - 1);
    }
  }

  lemma WaitingHasNoValue(w: World, busy: set<string>, name: string)
    requires name in busy
    requires forall m, j: nat :: m in busy && m in Known(w, j + 1) ==> name in Known(w, j)
    ensures name !in Values(w)
  {
    WaitingForItself(w, busy, name, |w.vars|);
  }

  /** With the environment expander last, no macro is deferred. */
  lemma {:induction false} NothingDeferred(w: World, known: map<string, string>, es: seq<Expander>, ns: string,
                                           name: string)
    requires Standard(es) && (es != [] ==> es[|es| - 1].EnvironmentExpander?)
    ensures !Dispatch(w, known, es, ns, name).Defer?
  {
    if es != [] {
      assert forall i :: 0 <= i < |es| - 2 ==> es[1..][i] == es[i + 1];
      NothingDeferred(w, known, es[1..], ns, name);
    }
  }

  lemma {:induction false} RenderNotDeferred(ts: seq<Token>, f: (string, string) -> Outcome)
    requires forall ns, name :: !f(ns, name).Defer?
    ensures !Render(ts, f).Defer?
  {
    if ts != [] {
      RenderNotDeferred(ts[1..], f);
    }
  }

  lemma TextNotDeferred(w: World, known: map<string, string>, text: string)
    requires HasEnvironment(w)
    ensures !TextIn(w, known, text).Defer?
  {
    forall ns, name
      ensures !Macros(w, known)(ns, name).Defer?
    {
      NothingDeferred(w, known, w.expanders, ns, name);
    }
    RenderNotDeferred(Lex(text).tokens, Macros(w, known));
  }

  // The verdict on a whole environment ---------------------------------------------------------------

  /** An error fails the preset, an ignored macro resets it. */
  datatype Verdict = Expanded | Failed | Reset

  ghost predicate AllHaveValues(w: World) {
    forall n :: HasValue(w, n) ==> n in Values(w)
  }

  /** The first variable, in key order, whose text does not expand decides. */
  ghost function VerdictOf(w: World, order: seq<string>): Verdict {
    if order == [] then Expanded
    else if !HasValue(w, order[0]) then VerdictOf(w, order[1..])
    else
      var o := TextIn(w, Values(w), w.vars[order[0]].value);
      if o.Error? then Failed else if o.Ignore? then Reset else VerdictOf(w, order[1..])
  }

  lemma {:induction false} VerdictExpandedFor(w: World, order: seq<string>)
    requires HasEnvironment(w)
    ensures VerdictOf(w, order) == Expanded <==> forall n :: n in order && HasValue(w, n) ==> n in Values(w)
  {
    hide Values, TextIn;
    if order != [] {
      VerdictExpandedFor(w, order[1..]);
      ValuesSolve(w, order[0]);
      assert forall n :: n in order <==> n == order[0] || n in order[1..];
      if HasValue(w, order[0]) {
        TextNotDeferred(w, Values(w), w.vars[order[0]].value);
      }
    }
  }

  /** Success does not depend on the order of the variables. */
  lemma VerdictExpanded(w: World, order: seq<string>)
    requires HasEnvironment(w) && forall n :: n in order <==> n in w.vars
    ensures VerdictOf(w, order) == Expanded <==> AllHaveValues(w)
  {
    hide Values, VerdictOf;
    VerdictExpandedFor(w, order);
  }

  // When every variable has a value -----------------------------------------------------------------------

  /** The macro expands when the values of the variables in `known` are known. */
  ghost predicate MacroOk(w: World, known: map<string, string>, t: Token) {
    t.Macro? ==> Macros(w, known)(t.ns, t.name).Ok?
  }

  lemma {:induction false} RenderOkIff(ts: seq<Token>, f: (string, string) -> Outcome)
    ensures Render(ts, f).Ok? <==> forall i :: 0 <= i < |ts| && ts[i].Macro? ==> f(ts[i].ns, ts[i].name).Ok?
  {
    if ts != [] {
      RenderOkIff(ts[1..], f);
      assert forall i :: 0 < i < |ts| ==> ts[i] == ts[1..][i - 1];
    }
  }

  lemma TextOkIff(w: World, known: map<string, string>, text: string)
    ensures TextIn(w, known, text).Ok? <==>
            Lex(text).open == "" && forall t :: t in Lex(text).tokens ==> MacroOk(w, known, t)
  {
    hide Lex, Render;
    var ts := Lex(text).tokens;
    RenderOkIff(ts, Macros(w, known));
    if forall t :: t in ts ==> MacroOk(w, known, t) {
      forall i | 0 <= i < |ts| && ts[i].Macro?
        ensures Macros(w, known)(ts[i].ns, ts[i].name).Ok?
      {
        assert MacroOk(w, known, ts[i]);
      }
    }
  }

  ghost predicate RefersTo(w: World, text: string, m: string) {
    Macro("env", m) in Lex(text).tokens && IsReference(w, "env", m)
  }

  /** The `$env` references among the variables with a value. */
  ghost function References(w: World): Graph<string> {
    map n | n in w.vars && HasValue(w, n) :: set m | m in w.vars && RefersTo(w, w.vars[n].value, m)
  }

  /** Every text closes its macros, and every macro that is no reference expands by itself. */
  ghost predicate OthersExpand(w: World) {
    forall n :: HasValue(w, n) ==>
      Lex(w.vars[n].value).open == "" &&
      forall t :: t in Lex(w.vars[n].value).tokens && t.Macro? && !IsReference(w, t.ns, t.name) ==> MacroOk(w, map[], t)
  }

  lemma {:induction false} DispatchSame(w: World, a: map<string, string>, b: map<string, string>,
                                        es: seq<Expander>, ns: string, name: string)
    requires !IsReference(w, ns, name)
    ensures Dispatch(w, a, es, ns, name) == Dispatch(w, b, es, ns, name)
  {
    if es != [] {
      DispatchSame(w, a, b, es[1..], ns, name);
    }
  }

  /** A reference expands exactly when the variable is known; no other macro asks for variables. */
  lemma MacroOkIff(w: World, known: map<string, string>, t: Token)
    requires HasEnvironment(w) && t.Macro?
    ensures MacroOk(w, known, t) <==> if IsReference(w, t.ns, t.name) then t.name in known else MacroOk(w, map[], t)
  {
    hide Apply;
    if IsReference(w, t.ns, t.name) {
      DispatchReference(w, known, w.expanders, t.name);
    } else {
      DispatchSame(w, known, map[], w.expanders, t.ns, t.name);
    }
  }

  lemma KnownReference(w: World, n: string, m: string, k: nat)
    requires HasEnvironment(w) && n in Known(w, k) && Edge(References(w), n, m)
    ensures k > 0 && m in Known(w, k - 1)
  {
    hide Known, TextIn, Lex;
    KnownText(w, n, k);
    TextOkIff(w, Known(w, k - 1), w.vars[n].value);
    MacroOkIff(w, Known(w, k - 1), Macro("env", m));
  }

  lemma {:induction false} WalkIsShallow(w: World, walk: seq<string>, k: nat)
    requires HasEnvironment(w) && Walk(References(w), walk) && walk[0] in Known(w, k)
    ensures k >= |walk| && walk[|walk| - 1] in Known(w, k - |walk| + 1)
    decreases |walk|
  {
    hide Known;
    if |walk| > 1 {
      assert Hop(References(w), walk, 0);
      KnownReference(w, walk[0], walk[1], k);
      WalkSlice(References(w), walk, 1, |walk|);
      WalkIsShallow(w, walk[1..|walk|], k - 1);
    } else {
      KnownText(w, walk[0], k);
    }
  }

  lemma {:induction false} CyclesHaveNoValue(w: World, walk: seq<string>, k: nat)
    requires HasEnvironment(w) && Cycle(References(w), walk)
    ensures walk[0] !in Known(w, k)
  {
    hide Known;
    if walk[0] in Known(w, k) {
      WalkIsShallow(w, walk, k);
      CyclesHaveNoValue(w, walk, k - |walk| + 1);
    }
  }

  lemma UnknownRefersToUnknown(w: World, n: string) returns (m: string)
    requires HasEnvironment(w) && OthersExpand(w) && HasValue(w, n) && n !in Values(w)
    ensures HasValue(w, m) && m !in Values(w) && Edge(References(w), n, m)
  {
    hide Values, TextIn, Lex, MacroOk;
    var text := w.vars[n].value;
    ValuesSolve(w, n);
    TextOkIff(w, Values(w), text);
    var t :| t in Lex(text).tokens && !MacroOk(w, Values(w), t);
    assert t.Macro? by {
      LiteralOk(w, Values(w), t);
    }
    MacroOkIff(w, Values(w), t);
    m := t.name;
    assert t == Macro("env", m);
  }

  lemma LiteralOk(w: World, known: map<string, string>, t: Token)
    ensures t.Literal? ==> MacroOk(w, known, t)
  {}

  lemma ValuesExpandOthers(w: World)
    requires HasEnvironment(w) && AllHaveValues(w)
    ensures OthersExpand(w)
  {
    hide Values, TextIn, Lex, MacroOk, IsReference;
    forall n | HasValue(w, n)
      ensures Lex(w.vars[n].value).open == ""
      ensures forall t :: t in Lex(w.vars[n].value).tokens && t.Macro? && !IsReference(w, t.ns, t.name) ==>
              MacroOk(w, map[], t)
    {
      ValuesSolve(w, n);
      TextOkIff(w, Values(w), w.vars[n].value);
      forall t | t in Lex(w.vars[n].value).tokens && t.Macro? && !IsReference(w, t.ns, t.name)
        ensures MacroOk(w, map[], t)
      {
        MacroOkIff(w, Values(w), t);
      }
    }
  }

  /** Every variable has a value exactly when all other macros expand and no variable refers to itself
      through others.  References to the process environment and to variables without a value take
      no part. */
  lemma AllHaveValuesIff(w: World)
    requires HasEnvironment(w)
    ensures AllHaveValues(w) <==> OthersExpand(w) && Acyclic(References(w))
  {
    hide Values, OthersExpand;
    if AllHaveValues(w) {
      ValuesExpandOthers(w);
      forall walk
        ensures !Cycle(References(w), walk)
      {
        if Cycle(References(w), walk) {
          assert Hop(References(w), walk, 0);
          CycleHasNoValue(w, walk);
        }
      }
    }
    if OthersExpand(w) && Acyclic(References(w)) {
      var bad := set n | n in w.vars && HasValue(w, n) && n !in Values(w);
      if bad != {} {
        forall n | n in bad
          ensures StaysIn(References(w), bad, n)
        {
          var m := UnknownRefersToUnknown(w, n);
          assert m in bad;
        }
        CycleInside(References(w), bad);
      }
      assert forall n :: HasValue(w, n) && n !in Values(w) ==> n in bad;
    }
  }

  lemma CycleHasNoValue(w: World, walk: seq<string>)
    requires HasEnvironment(w) && Cycle(References(w), walk)
    ensures walk[0] !in Values(w)
  {
    CyclesHaveNoValue(w, walk, |w.vars|);
  }

  // The order of the variables ---------------------------------------------------------------------------

  lemma {:induction false} DispatchIgnored(w: World, known: map<string, string>, es: seq<Expander>, ns: string,
                                           name: string)
    requires Dispatch(w, known, es, ns, name).Ignore?
    ensures ns == "vendor"
  {
    if es != [] {
      DispatchIgnored(w, known, es[1..], ns, name);
    }
  }

  lemma {:induction false} DispatchVendor(w: World, known: map<string, string>, es: seq<Expander>, name: string)
    requires Standard(es) && (es != [] ==> es[|es| - 1].EnvironmentExpander?)
    ensures Dispatch(w, known, es, "vendor", name).Ignore?
  {
    if es != [] {
      assert forall i :: 0 <= i < |es| - 2 ==> es[1..][i] == es[i + 1];
      DispatchVendor(w, known, es[1..], name);
    }
  }

  /** Macro number `i` of the text is the first one that does not expand. */
  ghost predicate TextStopsAt(w: World, text: string, i: nat) {
    StopsAt(Lex(text).tokens, Macros(w, Values(w)), i)
  }

  /** The first macro of the variable that does not expand is a vendor macro. */
  ghost predicate StopsAtVendor(w: World, n: string) {
    HasValue(w, n) && exists i: nat ::
      TextStopsAt(w, w.vars[n].value, i) && Lex(w.vars[n].value).tokens[i].ns == "vendor"
  }

  /** The first macro of the variable that does not expand is another one, or all expand and one is not closed. */
  ghost predicate StopsOtherwise(w: World, n: string) {
    && HasValue(w, n)
    && ((exists i: nat :: TextStopsAt(w, w.vars[n].value, i) && Lex(w.vars[n].value).tokens[i].ns != "vendor") ||
        (Lex(w.vars[n].value).open != "" && !exists i: nat :: TextStopsAt(w, w.vars[n].value, i)))
  }

  /** A macro is ignored exactly when it is a vendor macro. */
  lemma IgnoredIffVendor(w: World, known: map<string, string>, ns: string, name: string)
    requires HasEnvironment(w)
    ensures Macros(w, known)(ns, name).Ignore? <==> ns == "vendor"
  {
    hide Apply, EnvMacro;
    if ns == "vendor" {
      DispatchVendor(w, known, w.expanders, name);
    } else if Dispatch(w, known, w.expanders, ns, name).Ignore? {
      DispatchIgnored(w, known, w.expanders, ns, name);
    }
  }

  lemma TextStops(w: World, text: string, i: nat)
    requires HasEnvironment(w) && TextStopsAt(w, text, i)
    ensures i < |Lex(text).tokens| && Lex(text).tokens[i].Macro? && forall j: nat :: TextStopsAt(w, text, j) ==> j == i
    ensures TextIn(w, Values(w), text) == if Lex(text).tokens[i].ns == "vendor" then Outcome.Ignore else Outcome.Error
  {
    hide Values, Lex, Dispatch, Render;
    var ts, f := Lex(text).tokens, Macros(w, Values(w));
    RenderStops(ts, f, i);
    IgnoredIffVendor(w, Values(w), ts[i].ns, ts[i].name);
    NothingDeferred(w, Values(w), w.expanders, ts[i].ns, ts[i].name);
    assert forall j: nat :: StopsAt(ts, f, j) ==> !(i < j) && !(j < i);
  }

  /** A variable is ignored exactly when it stops at a vendor macro, and at fault exactly when it stops otherwise. */
  lemma StopsIff(w: World, n: string)
    requires HasEnvironment(w) && HasValue(w, n)
    ensures TextIn(w, Values(w), w.vars[n].value).Ignore? <==> StopsAtVendor(w, n)
    ensures TextIn(w, Values(w), w.vars[n].value).Error? <==> StopsOtherwise(w, n)
  {
    hide Values, Lex, TextIn, StopsAt, HasEnvironment, Macros;
    var text := w.vars[n].value;
    if i: nat :| TextStopsAt(w, text, i) {
      TextStops(w, text, i);
    } else {
      TextGoesOn(w, text);
    }
  }

  lemma TextGoesOn(w: World, text: string)
    requires !exists i: nat :: TextStopsAt(w, text, i)
    ensures Lex(text).open == "" ==> TextIn(w, Values(w), text).Ok?
    ensures Lex(text).open != "" ==> TextIn(w, Values(w), text) == Outcome.Error
  {
    hide Values, Lex, Render, Macros, StopsAt;
    RenderGoesOn(Lex(text).tokens, Macros(w, Values(w)));
    assert forall i: nat :: StopsAt(Lex(text).tokens, Macros(w, Values(w)), i) ==> TextStopsAt(w, text, i);
  }

  /** The variables, each once. */
  ghost predicate Lists(w: World, order: seq<string>) {
    && (forall n :: n in order <==> n in w.vars)
    && (forall i, j :: 0 <= i < j < |order| ==> order[i] != order[j])
  }

  ghost predicate SomeStopAtVendor(w: World) {
    exists n :: StopsAtVendor(w, n)
  }

  ghost predicate SomeStopOtherwise(w: World) {
    exists n :: StopsOtherwise(w, n)
  }

  lemma {:induction false} VerdictStops(w: World, order: seq<string>)
    requires HasEnvironment(w)
    ensures VerdictOf(w, order) == Failed ==> SomeStopOtherwise(w)
    ensures VerdictOf(w, order) == Reset ==> SomeStopAtVendor(w)
  {
    hide Values, TextIn, StopsAtVendor, StopsOtherwise, HasEnvironment;
    if order != [] {
      VerdictStops(w, order[1..]);
      if HasValue(w, order[0]) {
        StopsIff(w, order[0]);
      }
    }
  }

  lemma {:induction false} AnyOrder(s: set<string>) returns (order: seq<string>)
    ensures (forall n :: n in order <==> n in s) && forall i, j :: 0 <= i < j < |order| ==> order[i] != order[j]
  {
    if s == {} {
      order := [];
    } else {
      var n :| n in s;
      var rest := AnyOrder(s - {n});
      order := [n] + rest;
    }
  }

  lemma OrderFrom(w: World, n: string) returns (order: seq<string>)
    requires n in w.vars
    ensures Lists(w, order) && order != [] && order[0] == n
  {
    var rest := AnyOrder(w.vars.Keys - {n});
    order := [n] + rest;
  }

  /** All orders of the variables give the same verdict exactly when there are not both a variable that stops at a
      vendor macro and one that stops otherwise. */
  lemma SameVerdictIff(w: World)
    requires HasEnvironment(w)
    ensures (forall a, b :: Lists(w, a) && Lists(w, b) ==> VerdictOf(w, a) == VerdictOf(w, b))
            <==> !(SomeStopAtVendor(w) && SomeStopOtherwise(w))
  {
    hide Values, TextIn, StopsAtVendor, StopsOtherwise, HasEnvironment;
    if SomeStopAtVendor(w) && SomeStopOtherwise(w) {
      var n, m :| StopsAtVendor(w, n) && StopsOtherwise(w, m);
      StopsHaveValues(w, n, m);
      var a := OrderFrom(w, n);
      var b := OrderFrom(w, m);
      StopsIff(w, n);
      StopsIff(w, m);
      assert VerdictOf(w, a) == Reset && VerdictOf(w, b) == Failed;
    } else {
      forall a, b | Lists(w, a) && Lists(w, b) ensures VerdictOf(w, a) == VerdictOf(w, b) {
        VerdictExpanded(w, a);
        VerdictExpanded(w, b);
        VerdictStops(w, a);
        VerdictStops(w, b);
      }
    }
  }

  lemma StopsHaveValues(w: World, n: string, m: string)
    requires StopsAtVendor(w, n) && StopsOtherwise(w, m)
    ensures HasValue(w, n) && HasValue(w, m)
  {}

  /** No variable uses a vendor macro. */
  ghost predicate NoVendorMacros(w: World) {
    forall n, t :: HasValue(w, n) && t in Lex(w.vars[n].value).tokens && t.Macro? ==> t.ns != "vendor"
  }

  lemma {:induction false} NeverReset(w: World, order: seq<string>)
    requires NoVendorMacros(w)
    ensures VerdictOf(w, order) != Reset
  {
    hide Values;
    if order != [] {
      NeverReset(w, order[1..]);
      if HasValue(w, order[0]) {
        NeverIgnored(w, order[0]);
      }
    }
  }

  lemma NeverIgnored(w: World, n: string)
    requires NoVendorMacros(w) && HasValue(w, n)
    ensures !TextIn(w, Values(w), w.vars[n].value).Ignore?
  {
    hide Values, Lex, Render, Dispatch;
    var ts, f := Lex(w.vars[n].value).tokens, Macros(w, Values(w));
    RenderGoesOn(ts, f);
    if i: nat :| StopsAt(ts, f, i) {
      RenderStops(ts, f, i);
      assert ts[i] in ts;
      if f(ts[i].ns, ts[i].name).Ignore? {
        DispatchIgnored(w, Values(w), w.expanders, ts[i].ns, ts[i].name);
      }
    }
  }

  /** Without vendor macros the verdict is the same for every order of the variables. */
  lemma OrderIndependent(w: World, order: seq<string>, other: seq<string>)
    requires HasEnvironment(w) && NoVendorMacros(w)
    requires forall n :: (n in order <==> n in w.vars) && (n in other <==> n in w.vars)
    ensures VerdictOf(w, order) == VerdictOf(w, other)
  {
    hide Values, VerdictOf, NoVendorMacros;
    VerdictExpanded(w, order);
    VerdictExpanded(w, other);
    NeverReset(w, order);
    NeverReset(w, other);
  }

  lemma SingleMacro(w: World, known: map<string, string>, ns: string, name: string)
    requires IsValidMacroNamespace(ns) && '}' !in name
    ensures TextIn(w, known, "$" + ns + "{" + name + "}") == Macros(w, known)(ns, name)
  {
    var text := "$" + ns + "{" + name + "}";
    LexMacro(ns, name, "");
    assert text + "" == text;
    assert Lex("") == Lexed([], "");
    assert Lex(text).tokens == [Macro(ns, name)] && [Macro(ns, name)][1..] == [];
    assert Render([], Macros(w, known)) == Outcome.Ok("");
    var o := Macros(w, known)(ns, name);
    assert o.Ok? ==> o.text + "" == o.text;
  }

  // What the macros of a preset stand for ------------------------------------------------------------------

  /** A variable of the process environment, which other expanders ignore. */
  lemma {:induction false} DispatchProcess(w: World, known: map<string, string>, es: seq<Expander>, ns: string,
                                           name: string)
    requires Standard(es) && es != [] && es[|es| - 1].EnvironmentExpander?
    requires (ns == "penv" || ns == "env") && !IsReference(w, ns, name)
    ensures Dispatch(w, known, es, ns, name) ==
            if name == "" then Outcome.Error
            else Outcome.Ok(if name in w.processEnv then w.processEnv[name] else "")
  {
    if !es[0].EnvironmentExpander? {
      assert forall i :: 0 <= i < |es| - 2 ==> es[1..][i] == es[i + 1];
      DispatchProcess(w, known, es[1..], ns, name);
    }
  }

  /** `$penv{name}` is the variable of the process environment, or nothing if there is none; so is `$env{name}`
      unless the preset gives the variable a value.  Without a name both are errors. */
  lemma ProcessEnvironment(w: World, known: map<string, string>, name: string)
    requires HasEnvironment(w) && '}' !in name
    ensures TextIn(w, known, "$penv{" + name + "}") ==
            if name == "" then Outcome.Error
            else Outcome.Ok(if name in w.processEnv then w.processEnv[name] else "")
    ensures !HasValue(w, name) || name == "" ==>
            TextIn(w, known, "$env{" + name + "}") == TextIn(w, known, "$penv{" + name + "}")
  {
    hide TextIn, Dispatch;
    SingleMacro(w, known, "penv", name);
    SingleMacro(w, known, "env", name);
    assert "$" + "penv" + "{" + name + "}" == "$penv{" + name + "}";
    assert "$" + "env" + "{" + name + "}" == "$env{" + name + "}";
    DispatchProcess(w, known, w.expanders, "penv", name);
    if !IsReference(w, "env", name) {
      DispatchProcess(w, known, w.expanders, "env", name);
    }
  }

  /** `$env{name}` is the value of the preset's variable when it has one. */
  lemma PresetVariable(w: World, known: map<string, string>, name: string)
    requires HasEnvironment(w) && '}' !in name && name != "" && HasValue(w, name)
    ensures TextIn(w, known, "$env{" + name + "}") ==
            if name in known then Outcome.Ok(known[name]) else Outcome.Error
  {
    hide TextIn, Dispatch;
    SingleMacro(w, known, "env", name);
    assert "$" + "env" + "{" + name + "}" == "$env{" + name + "}";
    DispatchVariable(w, known, w.expanders, name);
  }

  lemma {:induction false} DispatchVariable(w: World, known: map<string, string>, es: seq<Expander>, name: string)
    requires Standard(es) && es != [] && es[|es| - 1].EnvironmentExpander? && IsReference(w, "env", name)
    ensures Dispatch(w, known, es, "env", name) == if name in known then Outcome.Ok(known[name]) else Outcome.Error
  {
    if !es[0].EnvironmentExpander? {
      assert forall i :: 0 <= i < |es| - 2 ==> es[1..][i] == es[i + 1];
      DispatchVariable(w, known, es[1..], name);
    }
  }

  /** The expanders of a preset: the graph's, the preset's and that of the environment. */
  ghost predicate ForPreset(w: World, base: Expander, preset: Expander) {
    && w.expanders == [base, preset, EnvironmentExpander]
    && base.BaseExpander? && base.file.None? && preset.PresetExpander?
  }

  lemma PlainMacro(w: World, known: map<string, string>, base: Expander, preset: Expander, name: string)
    requires ForPreset(w, base, preset) && '}' !in name
    ensures TextIn(w, known, "${" + name + "}") ==
            var o := Apply(base, "", name, w.version);
            var p := Apply(preset, "", name, w.version);
            if !o.Ignore? then o else if !p.Ignore? then p else Outcome.Error
  {
    hide TextIn, Apply;
    SingleMacro(w, known, "", name);
    assert "$" + "" + "{" + name + "}" == "${" + name + "}";
    var es := w.expanders;
    assert es[1..] == [preset, EnvironmentExpander] && es[1..][1..] == [EnvironmentExpander];
    assert es[1..][1..][1..] == [];
    assert Dispatch(w, known, [], "", name) == Outcome.Error;
    assert Dispatch(w, known, es[1..][1..], "", name) == Outcome.Error;
    var p := Apply(preset, "", name, w.version);
    assert Dispatch(w, known, es[1..], "", name) == if p.Ignore? then Outcome.Error else p;
  }

  /** The macros that stand for the same in all presets, and the versions that know them. */
  lemma GraphMacros(w: World, known: map<string, string>, base: Expander, preset: Expander)
    requires ForPreset(w, base, preset)
    ensures TextIn(w, known, "${sourceDir}") == Outcome.Ok(base.sourceDir)
    ensures TextIn(w, known, "${sourceParentDir}") == Outcome.Ok(base.sourceParentDir)
    ensures TextIn(w, known, "${sourceDirName}") == Outcome.Ok(base.sourceDirName)
    ensures TextIn(w, known, "${dollar}") == Outcome.Ok("$")
    ensures TextIn(w, known, "${hostSystemName}") ==
            if w.version >= 3 then Outcome.Ok(base.hostSystemName) else Outcome.Error
    ensures TextIn(w, known, "${pathListSep}") ==
            if w.version >= 5 then Outcome.Ok(base.pathListSep) else Outcome.Error
  {
    hide TextIn, ForPreset;
    IsGraphExpander(w, base, preset);
    PlainMacro(w, known, base, preset, "sourceDir");
    PlainMacro(w, known, base, preset, "sourceParentDir");
    PlainMacro(w, known, base, preset, "sourceDirName");
    PlainMacro(w, known, base, preset, "dollar");
    PlainMacro(w, known, base, preset, "hostSystemName");
    PlainMacro(w, known, base, preset, "pathListSep");
    assert "${" + "sourceDir" + "}" == "${sourceDir}" && "${" + "sourceParentDir" + "}" == "${sourceParentDir}";
    assert "${" + "sourceDirName" + "}" == "${sourceDirName}" && "${" + "dollar" + "}" == "${dollar}";
    assert "${" + "hostSystemName" + "}" == "${hostSystemName}" && "${" + "pathListSep" + "}" == "${pathListSep}";
  }

  lemma IsGraphExpander(w: World, base: Expander, preset: Expander)
    requires ForPreset(w, base, preset)
    ensures base.BaseExpander? && base.file.None? && preset.PresetExpander?
  {}

  /** The macros that stand for something of the preset, and the versions that know them. */
  lemma PresetMacros(w: World, known: map<string, string>, base: Expander, preset: Expander)
    requires ForPreset(w, base, preset)
    ensures TextIn(w, known, "${presetName}") == Outcome.Ok(preset.presetName)
    ensures TextIn(w, known, "${generator}") == Outcome.Ok(if preset.hidden then "" else preset.generator)
    ensures TextIn(w, known, "${fileDir}") == if w.version >= 4 then Outcome.Ok(preset.fileDir) else Outcome.Error
  {
    hide TextIn, ForPreset;
    IsGraphExpander(w, base, preset);
    PlainMacro(w, known, base, preset, "presetName");
    PlainMacro(w, known, base, preset, "generator");
    PlainMacro(w, known, base, preset, "fileDir");
    assert "${" + "presetName" + "}" == "${presetName}" && "${" + "generator" + "}" == "${generator}";
    assert "${" + "fileDir" + "}" == "${fileDir}";
  }

  lemma ConfigurePresetName(w: World, known: map<string, string>, base: Expander, preset: Expander)
    requires ForPreset(w, base, preset)
    ensures TextIn(w, known, "${configurePresetName}") ==
            if w.version >= 13 && preset.configurePresetName.Some? then Outcome.Ok(preset.configurePresetName.value)
            else Outcome.Error
    ensures TextIn(w, known, "${other}") == Outcome.Error
  {
    hide TextIn, ForPreset;
    IsGraphExpander(w, base, preset);
    PlainMacro(w, known, base, preset, "configurePresetName");
    PlainMacro(w, known, base, preset, "other");
    assert "${" + "configurePresetName" + "}" == "${configurePresetName}" && "${" + "other" + "}" == "${other}";
  }

  /** With vendor macros the verdict can depend on the order: a vendor macro met through another variable is an
      error, met directly it only resets the preset. */
  lemma OrderMatters()
    ensures var w := World([EnvironmentExpander], 1, map[], map["A" := Some("$env{B}"), "B" := Some("$vendor{x}")]);
            VerdictOf(w, ["A", "B"]) == Failed && VerdictOf(w, ["B", "A"]) == Reset
  {
    hide Values, Lex, TextIn;
    var w := World([EnvironmentExpander], 1, map[], map["A" := Some("$env{B}"), "B" := Some("$vendor{x}")]);
    var known := Values(w);
    assert w.expanders[1..] == [];
    assert Dispatch(w, known, w.expanders[1..], "vendor", "x") == Outcome.Ignore;
    SingleMacro(w, known, "vendor", "x");
    assert "$" + "vendor" + "{" + "x" + "}" == "$vendor{x}";
    assert Macros(w, known)("vendor", "x") == Outcome.Ignore;
    ValuesSolve(w, "B");
    SingleMacro(w, known, "env", "B");
    assert "$" + "env" + "{" + "B" + "}" == "$env{B}";
    assert Macros(w, known)("env", "B") == Outcome.Error;
  }
}
