/**
 The inheritable fields of a configure preset and the four field-inheritance helpers
 (strings, optionals, vectors, maps).
 */
module PresetFields {
  import opened Wrappers

  type FileId = nat
  type Category = nat

  datatype Strategy = SetStrategy | ExternalStrategy
  datatype TraceEnableMode = TraceDisable | TraceDefault | TraceExpand
  datatype TraceOutputFormat = TraceHuman | TraceJsonV1
  datatype CacheVar = CacheVar(varType: string, value: string)

  /** A condition object.  An explicit JSON `null` is an object too, told apart by `IsNull`. */
  datatype Condition = NullCondition | RealCondition(json: string)

  datatype Preset = Preset(
    inherits: seq<string>,
    hidden: bool,
    origin: FileId,
    condition: Option<Condition>,
    environment: map<string, Option<string>>,
    generator: string,
    architecture: string,
    toolset: string,
    architectureStrategy: Option<Strategy>,
    toolsetStrategy: Option<Strategy>,
    binaryDir: string,
    installDir: string,
    toolchainFile: string,
    graphVizFile: string,
    warnings: map<Category, bool>,
    errors: map<Category, bool>,
    warnSystemVars: Option<bool>,
    cacheVariables: map<string, Option<CacheVar>>,
    debugOutput: Option<bool>,
    debugTryCompile: Option<bool>,
    debugFind: Option<bool>,
    traceMode: Option<TraceEnableMode>,
    traceFormat: Option<TraceOutputFormat>,
    traceSource: seq<string>,
    traceRedirect: string)

  // Strings and vectors are set when they are not empty.
  function InheritSeq<T(==)>(child: seq<T>, parent: seq<T>): seq<T> {
    if child == [] then parent else child
  }

  function InheritOption<T(==)>(child: Option<T>, parent: Option<T>): Option<T> {
    if child.None? then parent else child
  }

  function InheritMap<K(==), V>(child: map<K, V>, parent: map<K, V>): map<K, V> {
    parent + child
  }

  /** The insertion loop behind `InheritMap`: a key the child already has is never overwritten,
      and the order in which the parent's entries are visited does not matter. */
  method InsertMissing<K(==), V>(child: map<K, V>, parent: map<K, V>) returns (r: map<K, V>)
    ensures r == InheritMap(child, parent)
  {
    r := child;
    var todo := parent.Keys;
    while todo != {}
      invariant todo <= parent.Keys
      invariant r.Keys == child.Keys + (parent.Keys - todo)
      invariant forall k :: k in r ==> r[k] == if k in child then child[k] else parent[k]
    {
      var k :| k in todo;
      if k !in r {
        r := r[k := parent[k]];
      }
      todo := todo - {k};
    }
  }

  /** One turn of the inheritance loop: the child's fields after inheriting from one parent. */
  function Inherit(child: Preset, parent: Preset): Preset {
    child.(
      generator := InheritSeq(child.generator, parent.generator),
      architecture := InheritSeq(child.architecture, parent.architecture),
      toolset := InheritSeq(child.toolset, parent.toolset),
      architectureStrategy := InheritOption(child.architectureStrategy, parent.architectureStrategy),
      toolsetStrategy := InheritOption(child.toolsetStrategy, parent.toolsetStrategy),
      binaryDir := InheritSeq(child.binaryDir, parent.binaryDir),
      installDir := InheritSeq(child.installDir, parent.installDir),
      toolchainFile := InheritSeq(child.toolchainFile, parent.toolchainFile),
      graphVizFile := InheritSeq(child.graphVizFile, parent.graphVizFile),
      warnings := InheritMap(child.warnings, parent.warnings),
      errors := InheritMap(child.errors, parent.errors),
      warnSystemVars := InheritOption(child.warnSystemVars, parent.warnSystemVars),
      cacheVariables := InheritMap(child.cacheVariables, parent.cacheVariables),
      debugOutput := InheritOption(child.debugOutput, parent.debugOutput),
      debugTryCompile := InheritOption(child.debugTryCompile, parent.debugTryCompile),
      debugFind := InheritOption(child.debugFind, parent.debugFind),
      traceMode := InheritOption(child.traceMode, parent.traceMode),
      traceFormat := InheritOption(child.traceFormat, parent.traceFormat),
      traceSource := InheritSeq(child.traceSource, parent.traceSource),
      traceRedirect := InheritSeq(child.traceRedirect, parent.traceRedirect),
      environment := InheritMap(child.environment, parent.environment),
      condition := InheritOption(child.condition, parent.condition))
  }

  /** The end of a visit: an explicit null condition is dropped. */
  function DropNull(p: Preset): Preset {
    if p.condition == Some(NullCondition) then p.(condition := None) else p
  }

  /** The required-field checks made after inheriting. */
  predicate Acceptable(p: Preset, version: int) {
    p.hidden ||
    (&& (version < 3 ==> p.generator != "" && p.binaryDir != "")
     && (forall w :: w in p.warnings && w in p.errors ==> p.warnings[w] || !p.errors[w])
     && "" !in p.cacheVariables)
  }

  // Reading a field ---------------------------------------------------------------------------

  datatype Slot =
    | Generator | Architecture | Toolset | ArchitectureStrategy | ToolsetStrategy
    | BinaryDir | InstallDir | ToolchainFile | GraphVizFile
    | Warning(category: Category) | Error(category: Category) | WarnSystemVars
    | CacheVariable(key: string)
    | DebugOutput | DebugTryCompile | DebugFind
    | TraceMode | TraceFormat | TraceSource | TraceRedirect
    | Environment(key: string)

  datatype Value =
    | Text(text: string) | Texts(texts: seq<string>) | Flag(flag: bool)
    | StrategyValue(strategy: Strategy) | ModeValue(mode: TraceEnableMode) | FormatValue(format: TraceOutputFormat)
    | CacheValue(entry: Option<CacheVar>) | EnvValue(env: Option<string>)

  function SetText(s: string): Option<Value> {
    if s == "" then None else Some(Text(s))
  }

  function SetFlag(b: Option<bool>): Option<Value> {
    if b.None? then None else Some(Flag(b.value))
  }

  function SetEntry<K(==), V>(m: map<K, V>, k: K, wrap: V -> Value): Option<Value> {
    if k in m then Some(wrap(m[k])) else None
  }

  function SetOption<V>(v: Option<V>, wrap: V -> Value): Option<Value> {
    if v.Some? then Some(wrap(v.value)) else None
  }

  /** The value of a field or of one map entry, or `None` when it is not set. */
  function Read(p: Preset, slot: Slot): Option<Value> {
    match slot
    case Generator => SetText(p.generator)
    case Architecture => SetText(p.architecture)
    case Toolset => SetText(p.toolset)
    case ArchitectureStrategy => SetOption(p.architectureStrategy, v => StrategyValue(v))
    case ToolsetStrategy => SetOption(p.toolsetStrategy, v => StrategyValue(v))
    case BinaryDir => SetText(p.binaryDir)
    case InstallDir => SetText(p.installDir)
    case ToolchainFile => SetText(p.toolchainFile)
    case GraphVizFile => SetText(p.graphVizFile)
    case Warning(c) => SetEntry(p.warnings, c, v => Flag(v))
    case Error(c) => SetEntry(p.errors, c, v => Flag(v))
    case WarnSystemVars => SetFlag(p.warnSystemVars)
    case CacheVariable(k) => SetEntry(p.cacheVariables, k, v => CacheValue(v))
    case DebugOutput => SetFlag(p.debugOutput)
    case DebugTryCompile => SetFlag(p.debugTryCompile)
    case DebugFind => SetFlag(p.debugFind)
    case TraceMode => SetOption(p.traceMode, v => ModeValue(v))
    case TraceFormat => SetOption(p.traceFormat, v => FormatValue(v))
    case TraceSource => if p.traceSource == [] then None else Some(Texts(p.traceSource))
    case TraceRedirect => SetText(p.traceRedirect)
    case Environment(k) => SetEntry(p.environment, k, v => EnvValue(v))
  }

  // Inheriting from several parents in order ----------------------------------------------------

  function InheritAll(child: Preset, parents: seq<Preset>): Preset {
    if parents == [] then child
    else Inherit(InheritAll(child, parents[..|parents| - 1]), parents[|parents| - 1])
  }

  /** The first set value in a list. */
  function FirstSet<V(==)>(values: seq<Option<V>>): Option<V> {
    if values == [] then None
    else if values[0].Some? then values[0]
    else FirstSet(values[1..])
  }

  lemma {:induction false} FirstSetAppend<V>(values: seq<Option<V>>, last: Option<V>)
    ensures FirstSet(values + [last]) == if FirstSet(values).Some? then FirstSet(values) else last
  {
    if values == [] {
      assert FirstSet([last]) == if last.Some? then last else FirstSet([last][1..]);
    } else {
      assert (values + [last])[1..] == values[1..] + [last];
      FirstSetAppend(values[1..], last);
    }
  }

  lemma InheritReads(child: Preset, parent: Preset, slot: Slot)
    ensures Read(Inherit(child, parent), slot) ==
            if Read(child, slot).Some? then Read(child, slot) else Read(parent, slot)
  {
  }

  ghost function ReadEach(presets: seq<Preset>, slot: Slot): seq<Option<Value>> {
    seq(|presets|, i requires 0 <= i < |presets| => Read(presets[i], slot))
  }

  /** Inheriting in sequence gives every field the child's own value if set, else the first set
      value among the parents, in order. */
  lemma {:induction false} InheritAllReads(child: Preset, parents: seq<Preset>, slot: Slot)
    ensures Read(InheritAll(child, parents), slot) == FirstSet([Read(child, slot)] + ReadEach(parents, slot))
  {
    hide Read, Inherit;
    if parents == [] {
      var own := [Read(child, slot)];
      assert own + ReadEach(parents, slot) == own;
      assert own[1..] == [];
    } else {
      var front, last := parents[..|parents| - 1], parents[|parents| - 1];
      InheritAllReads(child, front, slot);
      InheritReads(InheritAll(child, front), last, slot);
      var before := [Read(child, slot)] + ReadEach(front, slot);
      assert [Read(child, slot)] + ReadEach(parents, slot) == before + [Read(last, slot)];
      FirstSetAppend(before, Read(last, slot));
    }
  }

  ghost function ConditionEach(presets: seq<Preset>): seq<Option<Condition>> {
    seq(|presets|, i requires 0 <= i < |presets| => presets[i].condition)
  }

  /** The condition, too, is the child's own if set, else the first set one among the parents, in order. */
  lemma {:induction false} InheritAllFirstCondition(child: Preset, parents: seq<Preset>)
    ensures InheritAll(child, parents).condition == FirstSet([child.condition] + ConditionEach(parents))
  {
    var own := [child.condition];
    if parents == [] {
      assert own + ConditionEach(parents) == own;
      assert own[1..] == [];
    } else {
      var front, last := parents[..|parents| - 1], parents[|parents| - 1];
      InheritAllFirstCondition(child, front);
      assert own + ConditionEach(parents) == own + ConditionEach(front) + [last.condition];
      FirstSetAppend(own + ConditionEach(front), last.condition);
    }
  }

  lemma {:induction false} InheritAllCondition(child: Preset, parents: seq<Preset>)
    ensures InheritAll(child, parents).condition.Some? <==>
            child.condition.Some? || exists p :: p in parents && p.condition.Some?
    ensures child.condition.Some? ==> InheritAll(child, parents).condition == child.condition
    ensures InheritAll(child, parents).condition == Some(NullCondition) ==>
            child.condition == Some(NullCondition) || exists p :: p in parents && p.condition == Some(NullCondition)
  {
    if parents != [] {
      var front, last := parents[..|parents| - 1], parents[|parents| - 1];
      InheritAllCondition(child, front);
      assert parents == front + [last];
    }
  }

  // Re-applying inheritance changes nothing -----------------------------------------------------

  lemma InheritAgain(x: Preset, p: Preset)
    ensures Inherit(Inherit(x, p), p) == Inherit(x, p)
  {}

  lemma InheritMapKeepsCover<K, V>(x: map<K, V>, p: map<K, V>, q: map<K, V>)
    requires InheritMap(x, p) == x
    ensures InheritMap(InheritMap(x, q), p) == InheritMap(x, q)
  {
    assert forall k :: k in p ==> k in p + x;
  }

  lemma InheritKeepsCover(x: Preset, p: Preset, q: Preset)
    requires Inherit(x, p) == x
    ensures Inherit(Inherit(x, q), p) == Inherit(x, q)
  {
    hide InheritMap;
    assert Inherit(x, p).warnings == x.warnings && Inherit(x, p).errors == x.errors;
    assert Inherit(x, p).cacheVariables == x.cacheVariables && Inherit(x, p).environment == x.environment;
    InheritMapKeepsCover(x.warnings, p.warnings, q.warnings);
    InheritMapKeepsCover(x.errors, p.errors, q.errors);
    InheritMapKeepsCover(x.cacheVariables, p.cacheVariables, q.cacheVariables);
    InheritMapKeepsCover(x.environment, p.environment, q.environment);
  }

  lemma {:induction false} InheritAllCovers(child: Preset, parents: seq<Preset>, i: nat)
    requires i < |parents|
    ensures Inherit(InheritAll(child, parents), parents[i]) == InheritAll(child, parents)
  {
    var front, last := parents[..|parents| - 1], parents[|parents| - 1];
    if i == |parents| - 1 {
      InheritAgain(InheritAll(child, front), last);
    } else {
      InheritAllCovers(child, front, i);
      InheritKeepsCover(InheritAll(child, front), parents[i], last);
    }
  }

  lemma {:induction false} InheritAllAbsorbed(x: Preset, parents: seq<Preset>)
    requires forall i :: 0 <= i < |parents| ==> Inherit(x, parents[i]) == x
    ensures InheritAll(x, parents) == x
  {
    if parents != [] {
      InheritAllAbsorbed(x, parents[..|parents| - 1]);
    }
  }

  /** A preset that has inherited from its parents inherits nothing more from the same parents. */
  lemma InheritAllAgain(child: Preset, parents: seq<Preset>)
    ensures InheritAll(InheritAll(child, parents), parents) == InheritAll(child, parents)
  {
    forall i | 0 <= i < |parents|
      ensures Inherit(InheritAll(child, parents), parents[i]) == InheritAll(child, parents)
    {
      InheritAllCovers(child, parents, i);
    }
    InheritAllAbsorbed(InheritAll(child, parents), parents);
  }

  // Everything but the condition ------------------------------------------------------------

  function Strip(p: Preset): Preset {
    p.(condition := None)
  }

  ghost function StripEach(ps: seq<Preset>): seq<Preset> {
    seq(|ps|, i requires 0 <= i < |ps| => Strip(ps[i]))
  }

  lemma {:induction false} StripInheritAll(child: Preset, parents: seq<Preset>)
    ensures Strip(InheritAll(child, parents)) == InheritAll(Strip(child), StripEach(parents))
  {
    if parents != [] {
      var front := parents[..|parents| - 1];
      StripInheritAll(child, front);
      assert StripEach(parents)[..|parents| - 1] == StripEach(front);
    }
  }
}
