/**
 The argument parser without sub-parsers: one pass over the arguments, each going to a keyword, a
 position, the current keyword's values or the unparsed arguments, shown to do what splitting the
 arguments at the keywords says.
 */
module ArgumentParser {
  import opened Wrappers
  import opened KeywordMap

  /** What a keyword is bound to: a flag, one text, a list that grows over all occurrences, or a new list
      for each occurrence; with the number of values it expects at least. */
  datatype Binding = Flag | Text(atLeast: nat, nonEmpty: bool) | List(atLeast: nat) | Lists(atLeast: nat)

  function AtLeast(b: Binding): nat {
    if b.Flag? then 0 else b.atLeast
  }

  datatype Grammar = Grammar(keywords: seq<Pair<Binding>>, positions: set<nat>, trailing: Option<Binding>)

  /** A text takes one value, so it cannot expect more. */
  ghost predicate GoodBinding(b: Binding) {
    b.Text? ==> b.atLeast <= 1
  }

  ghost predicate GoodGrammar(g: Grammar) {
    && Sorted(g.keywords)
    && (forall k :: k in Contents(g.keywords) ==> GoodBinding(Contents(g.keywords)[k]))
    && (g.trailing.Some? ==> GoodBinding(g.trailing.value))
  }

  datatype Owner = Keyword(name: string) | Trailing
  datatype Value = Value(present: bool, text: string, list: seq<string>, lists: seq<seq<string>>)
  datatype Problem = MissingValue | EmptyValue

  function Get(values: map<Owner, Value>, o: Owner): Value {
    if o in values then values[o] else Value(false, "", [], [])
  }

  /** The parser's state and everything it has filled in. */
  datatype State = State(
    keyword: string, pos: nat, seen: nat, expected: nat, func: Option<(Owner, Binding)>, done: bool,
    values: map<Owner, Value>, positional: map<nat, string>, unparsed: seq<string>,
    errors: set<(string, Problem)>, parsed: seq<string>)

  // Splitting at the keywords ---------------------------------------------------------------------------

  datatype Occurrence = Occurrence(keyword: string, run: seq<string>)

  /** The arguments before the first keyword, and each keyword with the arguments up to the next. */
  datatype Split = Split(lead: seq<string>, parts: seq<Occurrence>)

  ghost function SplitAt(t: map<string, Binding>, args: seq<string>): Split {
    if args == [] then Split([], [])
    else Extend(t, SplitAt(t, args[..|args| - 1]), args[|args| - 1])
  }

  ghost function Extend(t: map<string, Binding>, s: Split, arg: string): Split {
    if arg in t then Split(s.lead, s.parts + [Occurrence(arg, [])])
    else if s.parts == [] then Split(s.lead + [arg], [])
    else
      var last := s.parts[|s.parts| - 1];
      Split(s.lead, s.parts[..|s.parts| - 1] + [Occurrence(last.keyword, last.run + [arg])])
  }

  function Joined(parts: seq<Occurrence>): seq<string> {
    if parts == [] then []
    else Joined(parts[..|parts| - 1]) + [parts[|parts| - 1].keyword] + parts[|parts| - 1].run
  }

  ghost predicate NoKeywords(t: map<string, Binding>, args: seq<string>) {
    forall i :: 0 <= i < |args| ==> args[i] !in t
  }

  /** The split is the one into maximal runs: put together it gives the arguments back, every part
      begins with a keyword and no run contains one. */
  lemma {:induction false} SplitIsMaximal(t: map<string, Binding>, args: seq<string>)
    ensures var s := SplitAt(t, args);
            && s.lead + Joined(s.parts) == args
            && NoKeywords(t, s.lead)
            && forall i :: 0 <= i < |s.parts| ==> s.parts[i].keyword in t && NoKeywords(t, s.parts[i].run)
  {
    hide Extend, Joined;
    if args == [] {
      JoinedNothing();
    } else {
      var front, arg := args[..|args| - 1], args[|args| - 1];
      SplitIsMaximal(t, front);
      assert args == front + [arg];
      ExtendIsMaximal(t, SplitAt(t, front), arg);
    }
  }

  lemma JoinedNothing()
    ensures Joined([]) == []
  {}

  lemma ExtendIsMaximal(t: map<string, Binding>, s: Split, arg: string)
    requires NoKeywords(t, s.lead) && forall i :: 0 <= i < |s.parts| ==>
             s.parts[i].keyword in t && NoKeywords(t, s.parts[i].run)
    ensures var s' := Extend(t, s, arg);
            && s'.lead + Joined(s'.parts) == s.lead + Joined(s.parts) + [arg]
            && NoKeywords(t, s'.lead)
            && forall i :: 0 <= i < |s'.parts| ==> s'.parts[i].keyword in t && NoKeywords(t, s'.parts[i].run)
  {
    var s' := Extend(t, s, arg);
    if arg in t {
      assert s'.parts[..|s.parts|] == s.parts;
      assert Joined(s'.parts) == Joined(s.parts) + [arg] + [];
    } else if s.parts != [] {
      var n := |s.parts| - 1;
      assert s'.parts[..n] == s.parts[..n];
      assert Joined(s'.parts) == Joined(s.parts) + [arg];
    }
  }

  // What each part gives -----------------------------------------------------------------------------------

  /** The number of values a binding takes out of a run. */
  function Taken(b: Binding, run: seq<string>): (n: nat)
    ensures n <= |run|
  {
    match b
    case Flag => 0
    case Text(_, _) => if run == [] then 0 else 1
    case _ => |run|
  }

  predicate Accepts(b: Binding, run: seq<string>) {
    match b
    case Flag => false
    case Text(_, _) => run == []
    case _ => true
  }

  /** The bound value after one more occurrence followed by `run`. */
  function ValueAfter(b: Binding, v: Value, run: seq<string>): Value {
    match b
    case Flag => v.(present := true)
    case Text(_, _) => if run == [] then v else v.(text := run[0])
    case List(_) => v.(list := v.list + run)
    case Lists(_) => v.(lists := v.lists + [run])
  }

  function UnparsedIn(b: Binding, run: seq<string>): seq<string> {
    run[Taken(b, run)..]
  }

  function EmptyIn(key: string, b: Binding, run: seq<string>): set<(string, Problem)> {
    if b.Text? && b.nonEmpty && run != [] && run[0] == "" then {(key, EmptyValue)} else {}
  }

  function MissingIn(key: string, b: Binding, run: seq<string>): set<(string, Problem)> {
    if Taken(b, run) < AtLeast(b) then {(key, MissingValue)} else {}
  }

  // The arguments before the first keyword --------------------------------------------------------------------

  /** What became of them: stored at their position, unparsed, or handed to the trailing binding, which
      takes over at the first argument without a position. */
  datatype Lead = Lead(positional: map<nat, string>, unparsed: seq<string>, trail: Option<seq<string>>)

  ghost function LeadOf(g: Grammar, start: nat, lead: seq<string>): Lead {
    if lead == [] then Lead(map[], [], None)
    else
      var n := |lead| - 1;
      LeadNext(g, start + n, LeadOf(g, start, lead[..n]), lead[n])
  }

  ghost function LeadNext(g: Grammar, i: nat, before: Lead, arg: string): Lead {
    if before.trail.Some? then before.(trail := Some(before.trail.value + [arg]))
    else if i in g.positions then before.(positional := before.positional[i := arg])
    else if g.trailing.Some? then before.(trail := Some([arg]))
    else before.(unparsed := before.unparsed + [arg])
  }

  /** What the trailing binding leaves unparsed; a trailing flag swallows the argument that triggers it. */
  function TrailUnparsed(b: Binding, trail: seq<string>): seq<string> {
    if b.Flag? && trail != [] then trail[1..] else UnparsedIn(b, trail)
  }

  // The expected state ------------------------------------------------------------------------------------------

  ghost function PartValues(t: map<string, Binding>, v: map<Owner, Value>, parts: seq<Occurrence>): map<Owner, Value>
    requires forall i :: 0 <= i < |parts| ==> parts[i].keyword in t
  {
    if parts == [] then v
    else
      var before, o := PartValues(t, v, parts[..|parts| - 1]), parts[|parts| - 1];
      before[Keyword(o.keyword) := ValueAfter(t[o.keyword], Get(before, Keyword(o.keyword)), o.run)]
  }

  ghost function PartUnparsed(t: map<string, Binding>, parts: seq<Occurrence>): seq<string>
    requires forall i :: 0 <= i < |parts| ==> parts[i].keyword in t
  {
    if parts == [] then []
    else
      var o := parts[|parts| - 1];
      PartUnparsed(t, parts[..|parts| - 1]) + UnparsedIn(t[o.keyword], o.run)
  }

  ghost function PartEmpty(t: map<string, Binding>, parts: seq<Occurrence>): set<(string, Problem)>
    requires forall i :: 0 <= i < |parts| ==> parts[i].keyword in t
  {
    if parts == [] then {}
    else
      var o := parts[|parts| - 1];
      PartEmpty(t, parts[..|parts| - 1]) + EmptyIn(o.keyword, t[o.keyword], o.run)
  }

  ghost function PartMissing(t: map<string, Binding>, parts: seq<Occurrence>): set<(string, Problem)>
    requires forall i :: 0 <= i < |parts| ==> parts[i].keyword in t
  {
    if parts == [] then {}
    else
      var o := parts[|parts| - 1];
      PartMissing(t, parts[..|parts| - 1]) + MissingIn(o.keyword, t[o.keyword], o.run)
  }

  /** The binding whose values are being read, its owner, the name errors are filed under, and the
      arguments it has been given. */
  datatype Current = Nobody | Somebody(owner: Owner, key: string, binding: Binding, run: seq<string>)

  ghost function CurrentOf(g: Grammar, t: map<string, Binding>, s: Split, l: Lead): Current
    requires forall i :: 0 <= i < |s.parts| ==> s.parts[i].keyword in t
  {
    if s.parts != [] then
      var o := s.parts[|s.parts| - 1];
      Somebody(Keyword(o.keyword), o.keyword, t[o.keyword], o.run)
    else if l.trail.Some? && g.trailing.Some? then Somebody(Trailing, "", g.trailing.value, l.trail.value)
    else Nobody
  }

  ghost function LeadValues(g: Grammar, l: Lead): map<Owner, Value> {
    if l.trail.Some? && g.trailing.Some? then
      map[Trailing := ValueAfter(g.trailing.value, Get(map[], Trailing), l.trail.value)]
    else map[]
  }

  ghost function LeadUnparsed(g: Grammar, l: Lead): seq<string> {
    if l.trail.Some? && g.trailing.Some? then
      l.unparsed + TrailUnparsed(g.trailing.value, l.trail.value) else l.unparsed
  }

  ghost function LeadEmpty(g: Grammar, l: Lead): set<(string, Problem)> {
    if l.trail.Some? && g.trailing.Some? then EmptyIn("", g.trailing.value, l.trail.value) else {}
  }

  ghost function LeadMissing(g: Grammar, l: Lead): set<(string, Problem)> {
    if l.trail.Some? && g.trailing.Some? then MissingIn("", g.trailing.value, l.trail.value) else {}
  }

  /** The missing values of everything but the current binding. */
  ghost function FinishedMissing(g: Grammar, t: map<string, Binding>, s: Split, l: Lead): set<(string, Problem)>
    requires forall i :: 0 <= i < |s.parts| ==> s.parts[i].keyword in t
  {
    if s.parts == [] then {} else LeadMissing(g, l) + PartMissing(t, s.parts[..|s.parts| - 1])
  }

  ghost predicate Reads(c: Current, st: State) {
    match c
    case Nobody => !st.done && st.func == None
    case Somebody(owner, key, b, run) =>
      && st.done && st.keyword == key && st.seen == Taken(b, run) && st.expected == AtLeast(b)
      && st.func == if Accepts(b, run) then Some((owner, b)) else None
  }

  function Names(parts: seq<Occurrence>): seq<string> {
    seq(|parts|, i requires 0 <= i < |parts| => parts[i].keyword)
  }

  /** After the arguments `args` the state is what splitting them says. */
  ghost predicate Tracks(g: Grammar, start: nat, args: seq<string>, st: State) {
    var t := Contents(g.keywords);
    var s := SplitAt(t, args);
    var l := LeadOf(g, start, s.lead);
    && (forall i :: 0 <= i < |s.parts| ==> s.parts[i].keyword in t)
    && st.pos == start + |args|
    && Reads(CurrentOf(g, t, s, l), st)
    && st.values == PartValues(t, LeadValues(g, l), s.parts)
    && st.positional == l.positional
    && st.unparsed == LeadUnparsed(g, l) + PartUnparsed(t, s.parts)
    && st.errors == LeadEmpty(g, l) + PartEmpty(t, s.parts) + FinishedMissing(g, t, s, l)
    && st.parsed == Names(s.parts)
  }

  // One argument --------------------------------------------------------------------------------------------------

  /** The end of a keyword's values: too few are an error. */
  function FinishKeyword(st: State): State {
    if st.done && st.seen < st.expected then st.(errors := st.errors + {(st.keyword, MissingValue)}) else st
  }

  /** A binding takes over. */
  function BindTo(st: State, o: Owner, b: Binding): State {
    var v := Get(st.values, o);
    st.(expected := AtLeast(b),
        func := if b.Flag? then None else Some((o, b)),
        values := match b
                  case Flag => st.values[o := v.(present := true)]
                  case Lists(_) => st.values[o := v.(lists := v.lists + [[]])]
                  case _ => st.values[o := v])
  }

  /** The current binding takes one value. */
  function TakeValue(st: State, arg: string): State
    requires st.func.Some?
  {
    var (o, b) := st.func.value;
    var v := Get(st.values, o);
    match b
    case Flag => st
    case Text(_, nonEmpty) =>
      st.(errors := if nonEmpty && arg == "" then st.errors + {(st.keyword, EmptyValue)} else st.errors,
          values := st.values[o := v.(text := arg)], func := None, seen := st.seen + 1)
    case List(_) => st.(values := st.values[o := v.(list := v.list + [arg])], seen := st.seen + 1)
    case Lists(_) =>
      if v.lists == [] then st
      else
        var last := |v.lists| - 1;
        st.(values := st.values[o := v.(lists := v.lists[last := v.lists[last] + [arg]])], seen := st.seen + 1)
  }

  /** The argument is a keyword: the one before it is finished and the new one bound. */
  function StartKeyword(st: State, arg: string, b: Binding): State {
    var fin := FinishKeyword(st);
    BindTo(fin.(keyword := arg, seen := 0, done := true, parsed := fin.parsed + [arg]), Keyword(arg), b)
  }

  function GiveValue(st: State, arg: string): State {
    if st.func.Some? then TakeValue(st, arg) else st.(unparsed := st.unparsed + [arg])
  }

  /** The argument comes before any keyword and no trailing binding has taken over. */
  function TakeLead(g: Grammar, st: State, arg: string): State {
    if st.pos in g.positions then st.(positional := st.positional[st.pos := arg])
    else if g.trailing.Some? then
      var bound := BindTo(st.(keyword := "", seen := 0, done := true), Trailing, g.trailing.value);
      if bound.func.None? then bound else TakeValue(bound, arg)
    else GiveValue(st, arg)
  }

  ghost function Consumed(g: Grammar, st: State, arg: string): State {
    var t := Contents(g.keywords);
    if arg in t then StartKeyword(st, arg, t[arg])
    else if !st.done then TakeLead(g, st, arg)
    else GiveValue(st, arg)
  }

  ghost function Step(g: Grammar, st: State, arg: string): State {
    var next := Consumed(g, st, arg);
    next.(pos := next.pos + 1)
  }

  // One argument keeps the state what the split says -----------------------------------------------------------------

  /** What a further argument adds to the unparsed ones, and to the empty values. */
  function Rest(b: Binding, run: seq<string>, arg: string): seq<string> {
    if Accepts(b, run) then [] else [arg]
  }

  lemma RunGrows(b: Binding, key: string, run: seq<string>, arg: string)
    ensures Taken(b, run + [arg]) == Taken(b, run) + if Accepts(b, run) then 1 else 0
    ensures UnparsedIn(b, run + [arg]) == UnparsedIn(b, run) + Rest(b, run, arg)
    ensures EmptyIn(key, b, run + [arg]) ==
            EmptyIn(key, b, run) + if Accepts(b, run) then EmptyIn(key, b, [arg]) else {}
    ensures Accepts(b, run + [arg]) <==> Accepts(b, run) && !b.Text?
  {
    assert run == [] ==> run + [arg] == [arg];
    if !Accepts(b, run) {
      assert (run + [arg])[Taken(b, run)..] == run[Taken(b, run)..] + [arg];
    } else {
      assert (run + [arg])[Taken(b, run) + 1..] == [];
    }
  }

  /** The current binding is given one more argument. */
  lemma ValueGiven(st: State, o: Owner, key: string, b: Binding, v: Value, run: seq<string>, arg: string)
    requires Reads(Somebody(o, key, b, run), st)
    requires o in st.values && st.values[o] == ValueAfter(b, v, run)
    ensures var next := GiveValue(st, arg);
            && Reads(Somebody(o, key, b, run + [arg]), next)
            && next.values == st.values[o := ValueAfter(b, v, run + [arg])]
            && next.unparsed == st.unparsed + Rest(b, run, arg)
            && next.errors == st.errors + (if Accepts(b, run) then EmptyIn(key, b, [arg]) else {})
            && next.pos == st.pos && next.positional == st.positional && next.parsed == st.parsed
  {
    RunGrows(b, key, run, arg);
    match b
    case Flag =>
      assert st.values[o := ValueAfter(b, v, run + [arg])] == st.values;
    case Text(_, _) =>
      assert run == [] ==> run + [arg] == [arg];
      assert run != [] ==> st.values[o := ValueAfter(b, v, run + [arg])] == st.values;
      assert st.unparsed + [] == st.unparsed;
    case List(_) =>
      assert v.list + (run + [arg]) == v.list + run + [arg];
      assert st.unparsed + [] == st.unparsed;
    case Lists(_) =>
      var last := |v.lists|;
      assert (v.lists + [run])[last := run + [arg]] == v.lists + [run + [arg]];
      assert st.unparsed + [] == st.unparsed;
  }

  /** A binding takes over: its value is that of an empty run. */
  lemma Bound0(st: State, o: Owner, b: Binding)
    ensures BindTo(st, o, b).values == st.values[o := ValueAfter(b, Get(st.values, o), [])]
  {
    var v := Get(st.values, o);
    assert v.list + [] == v.list;
  }

  lemma MissingOfCurrent(c: Current, st: State)
    requires Reads(c, st)
    ensures FinishKeyword(st).errors ==
            st.errors + (if c.Somebody? then MissingIn(c.key, c.binding, c.run) else {})
  {}

  ghost predicate AllIn(t: map<string, Binding>, parts: seq<Occurrence>) {
    forall i :: 0 <= i < |parts| ==> parts[i].keyword in t
  }

  lemma PartsNext(t: map<string, Binding>, v: map<Owner, Value>, parts: seq<Occurrence>, o: Occurrence)
    requires AllIn(t, parts) && o.keyword in t
    ensures AllIn(t, parts + [o])
    ensures PartValues(t, v, parts + [o]) ==
            PartValues(t, v, parts)[Keyword(o.keyword) :=
              ValueAfter(t[o.keyword], Get(PartValues(t, v, parts), Keyword(o.keyword)), o.run)]
    ensures PartUnparsed(t, parts + [o]) == PartUnparsed(t, parts) + UnparsedIn(t[o.keyword], o.run)
    ensures PartEmpty(t, parts + [o]) == PartEmpty(t, parts) + EmptyIn(o.keyword, t[o.keyword], o.run)
    ensures PartMissing(t, parts + [o]) == PartMissing(t, parts) + MissingIn(o.keyword, t[o.keyword], o.run)
    ensures Names(parts + [o]) == Names(parts) + [o.keyword]
  {
    assert (parts + [o])[..|parts|] == parts;
  }

  lemma SplitNext(t: map<string, Binding>, args: seq<string>, arg: string)
    ensures SplitAt(t, args + [arg]) == Extend(t, SplitAt(t, args), arg)
  {
    assert (args + [arg])[..|args|] == args;
  }

  lemma KeywordTracks(g: Grammar, start: nat, args: seq<string>, st: State, arg: string)
    requires Tracks(g, start, args, st) && arg in Contents(g.keywords)
    ensures Tracks(g, start, args + [arg], Step(g, st, arg))
  {
    hide PartValues, PartUnparsed, PartEmpty, PartMissing, Contents, ValueAfter, LeadOf, MissingIn, EmptyIn, SplitAt;
    hide LeadEmpty, LeadUnparsed;
    var t := Contents(g.keywords);
    var s := SplitAt(t, args);
    var l := LeadOf(g, start, s.lead);
    var o := Occurrence(arg, []);
    var b := t[arg];
    SplitNext(t, args, arg);
    PartsNext(t, LeadValues(g, l), s.parts, o);
    MissingOfCurrent(CurrentOf(g, t, s, l), st);
    if s.parts != [] {
      var last := s.parts[|s.parts| - 1];
      PartsNext(t, LeadValues(g, l), s.parts[..|s.parts| - 1], last);
      assert s.parts[..|s.parts| - 1] + [last] == s.parts;
    }
    var fin := FinishKeyword(st);
    var mid := fin.(keyword := arg, seen := 0, done := true, parsed := fin.parsed + [arg]);
    Bound0(mid, Keyword(arg), b);
    assert (s.parts + [o])[..|s.parts|] == s.parts;
    NothingYet(arg, b);
    NoPartMissing(t);
    assert LeadUnparsed(g, l) + (PartUnparsed(t, s.parts) + []) == LeadUnparsed(g, l) + PartUnparsed(t, s.parts);
  }

  lemma NothingYet(key: string, b: Binding)
    ensures UnparsedIn(b, []) == [] && EmptyIn(key, b, []) == {} && Taken(b, []) == 0
    ensures Accepts(b, []) <==> !b.Flag?
  {}

  lemma NoPartMissing(t: map<string, Binding>)
    ensures PartMissing(t, []) == {}
  {}

  lemma RunTracks(g: Grammar, start: nat, args: seq<string>, st: State, arg: string)
    requires Tracks(g, start, args, st) && arg !in Contents(g.keywords)
    requires SplitAt(Contents(g.keywords), args).parts != []
    ensures Tracks(g, start, args + [arg], Step(g, st, arg))
  {
    hide PartValues, PartUnparsed, PartEmpty, PartMissing, Contents, ValueAfter, LeadOf, MissingIn, EmptyIn,
         SplitAt, GiveValue;
    var t := Contents(g.keywords);
    var s := SplitAt(t, args);
    var l := LeadOf(g, start, s.lead);
    var front, last := s.parts[..|s.parts| - 1], s.parts[|s.parts| - 1];
    var longer := Occurrence(last.keyword, last.run + [arg]);
    var b := t[last.keyword];
    assert front + [last] == s.parts;
    SplitNext(t, args, arg);
    PartsNext(t, LeadValues(g, l), front, last);
    PartsNext(t, LeadValues(g, l), front, longer);
    var v := Get(PartValues(t, LeadValues(g, l), front), Keyword(last.keyword));
    ValueGiven(st, Keyword(last.keyword), last.keyword, b, v, last.run, arg);
    RunGrows(b, last.keyword, last.run, arg);
    assert (front + [longer])[..|front|] == front;
    assert Names(front + [longer]) == Names(front + [last]);
    assert LeadUnparsed(g, l) + (PartUnparsed(t, front) + (UnparsedIn(b, last.run) + Rest(b, last.run, arg)))
        == LeadUnparsed(g, l) + (PartUnparsed(t, front) + UnparsedIn(b, last.run)) + Rest(b, last.run, arg);
  }

  lemma {:induction false} TrailIsBound(g: Grammar, start: nat, lead: seq<string>)
    ensures var l := LeadOf(g, start, lead); l.trail.Some? ==> g.trailing.Some? && l.trail.value != []
  {
    if lead != [] {
      TrailIsBound(g, start, lead[..|lead| - 1]);
    }
  }

  lemma LeadGrows(g: Grammar, start: nat, lead: seq<string>, arg: string)
    ensures LeadOf(g, start, lead + [arg]) == LeadNext(g, start + |lead|, LeadOf(g, start, lead), arg)
  {
    assert (lead + [arg])[..|lead|] == lead;
  }

  lemma TrailUnparsedGrows(b: Binding, trail: seq<string>, arg: string)
    requires trail != []
    ensures TrailUnparsed(b, trail + [arg]) == TrailUnparsed(b, trail) + Rest(b, trail, arg)
  {
    RunGrows(b, "", trail, arg);
    assert (trail + [arg])[1..] == trail[1..] + [arg];
  }

  /** The arguments before the first keyword, as far as the state shows them. */
  ghost predicate TracksLead(g: Grammar, l: Lead, st: State) {
    && Reads(CurrentOf(g, map[], Split([], []), l), st)
    && st.values == LeadValues(g, l)
    && st.positional == l.positional
    && st.unparsed == LeadUnparsed(g, l)
    && st.errors == LeadEmpty(g, l)
    && st.parsed == []
  }

  lemma LeadStep(g: Grammar, l: Lead, st: State, arg: string)
    requires TracksLead(g, l, st) && (l.trail.Some? ==> g.trailing.Some? && l.trail.value != [])
    requires arg !in Contents(g.keywords)
    ensures TracksLead(g, LeadNext(g, st.pos, l, arg), Consumed(g, st, arg))
    ensures Consumed(g, st, arg).pos == st.pos
  {
    hide Contents;
    if l.trail.Some? {
      var b, trail := g.trailing.value, l.trail.value;
      ValueGiven(st, Trailing, "", b, Get(map[], Trailing), trail, arg);
      RunGrows(b, "", trail, arg);
      TrailUnparsedGrows(b, trail, arg);
      assert l.unparsed + (TrailUnparsed(b, trail) + Rest(b, trail, arg)) ==
        l.unparsed + TrailUnparsed(b, trail) + Rest(b, trail, arg);
    } else if st.pos !in g.positions && g.trailing.Some? {
      TrailStarts(g, l, st, arg);
    }
  }

  lemma TrailStarts(g: Grammar, l: Lead, st: State, arg: string)
    requires TracksLead(g, l, st) && l.trail.None? && g.trailing.Some? && st.pos !in g.positions
    ensures TracksLead(g, l.(trail := Some([arg])), TakeLead(g, st, arg))
    ensures TakeLead(g, st, arg).pos == st.pos
  {
    var b := g.trailing.value;
    var bound := BindTo(st.(keyword := "", seen := 0, done := true), Trailing, b);
    Bound0(st.(keyword := "", seen := 0, done := true), Trailing, b);
    assert [] + [arg] == [arg];
    if b.Flag? {
      assert l.unparsed + [] == l.unparsed;
    } else {
      ValueGiven(bound, Trailing, "", b, Get(map[], Trailing), [], arg);
      RunGrows(b, "", [], arg);
      assert l.unparsed + [] == l.unparsed;
    }
  }

  lemma LeadTracks(g: Grammar, start: nat, args: seq<string>, st: State, arg: string)
    requires Tracks(g, start, args, st) && arg !in Contents(g.keywords)
    requires SplitAt(Contents(g.keywords), args).parts == []
    ensures Tracks(g, start, args + [arg], Step(g, st, arg))
  {
    hide Contents, LeadOf, LeadNext, Consumed, LeadValues, LeadUnparsed, LeadEmpty;
    var t := Contents(g.keywords);
    var s := SplitAt(t, args);
    var l := LeadOf(g, start, s.lead);
    SplitIsMaximal(t, args);
    assert s.lead == args;
    SplitNext(t, args, arg);
    LeadGrows(g, start, s.lead, arg);
    TrailIsBound(g, start, s.lead);
    assert LeadUnparsed(g, l) + [] == LeadUnparsed(g, l);
    LeadStep(g, l, st, arg);
    var l' := LeadNext(g, st.pos, l, arg);
    assert LeadUnparsed(g, l') + [] == LeadUnparsed(g, l');
  }

  /** Whatever the argument, the state stays what the split says. */
  lemma StepTracks(g: Grammar, start: nat, args: seq<string>, st: State, arg: string)
    requires Tracks(g, start, args, st)
    ensures Tracks(g, start, args + [arg], Step(g, st, arg))
  {
    hide Tracks, Step, Contents, SplitAt;
    if arg in Contents(g.keywords) {
      KeywordTracks(g, start, args, st, arg);
    } else if SplitAt(Contents(g.keywords), args).parts == [] {
      LeadTracks(g, start, args, st, arg);
    } else {
      RunTracks(g, start, args, st, arg);
    }
  }

  // The result ----------------------------------------------------------------------------------------------

  /** What a parse of `args` must leave behind. */
  ghost predicate Parsed(g: Grammar, start: nat, args: seq<string>, st: State) {
    var t := Contents(g.keywords);
    var s := SplitAt(t, args);
    var l := LeadOf(g, start, s.lead);
    && AllIn(t, s.parts)
    && st.values == PartValues(t, LeadValues(g, l), s.parts)
    && st.positional == l.positional
    && st.unparsed == LeadUnparsed(g, l) + PartUnparsed(t, s.parts)
    && st.errors == LeadEmpty(g, l) + PartEmpty(t, s.parts) + LeadMissing(g, l) + PartMissing(t, s.parts)
    && st.parsed == Names(s.parts)
  }

  lemma FinishParses(g: Grammar, start: nat, args: seq<string>, st: State)
    requires Tracks(g, start, args, st)
    ensures Parsed(g, start, args, FinishKeyword(st))
  {
    hide PartValues, PartUnparsed, PartEmpty, PartMissing, Contents, LeadOf, MissingIn, SplitAt;
    var t := Contents(g.keywords);
    var s := SplitAt(t, args);
    var l := LeadOf(g, start, s.lead);
    MissingOfCurrent(CurrentOf(g, t, s, l), st);
    NoPartMissing(t);
    if s.parts != [] {
      var front, last := s.parts[..|s.parts| - 1], s.parts[|s.parts| - 1];
      PartsNext(t, map[], front, last);
      assert front + [last] == s.parts;
    }
  }

  const INITIAL: State := State("", 0, 0, 0, None, false, map[], map[], [], {}, [])

  lemma InitialTracks(g: Grammar, start: nat)
    ensures Tracks(g, start, [], INITIAL.(pos := start))
  {
    hide Contents;
    var none: seq<string> := [];
    assert none + none == none;
  }

  /** The binding `b` of `o` is the current one, has been given `run`, and its value is that after the run. */
  ghost predicate Holds(st: State, o: Owner, b: Binding, v: Value, run: seq<string>) {
    && Reads(Somebody(o, st.keyword, b, run), st)
    && o in st.values && st.values[o] == ValueAfter(b, v, run)
  }

  // Where an argument goes ----------------------------------------------------------------------------------

  /** A keyword, a position, a value of the current binding, the unparsed arguments, or nowhere, when it only
      triggers a trailing flag. */
  datatype Place = AtKeyword | AtPosition | AtValue | AtUnparsed | Swallowed

  ghost predicate WentTo(before: State, after: State, arg: string, p: Place) {
    && after.parsed == before.parsed + (if p.AtKeyword? then [arg] else [])
    && after.positional == (if p.AtPosition? then before.positional[before.pos := arg] else before.positional)
    && after.unparsed == before.unparsed + (if p.AtUnparsed? then [arg] else [])
    && (p.AtPosition? || p.AtUnparsed? ==> after.values == before.values && after.seen == before.seen)
    && (p.AtValue? ==> after.seen == (if before.done then before.seen else 0) + 1 && after.done)
    && (p.Swallowed? ==> after.seen == 0 && !before.done && after.done)
    && exists o :: OnlyOwner(before.values, after.values, o)
  }

  ghost predicate OnlyOwner(before: map<Owner, Value>, after: map<Owner, Value>, o: Owner) {
    forall other :: other != o ==> Get(after, other) == Get(before, other)
  }

  ghost predicate Placed(before: State, after: State, arg: string) {
    exists p :: WentTo(before, after, arg, p)
  }

  /** The places exclude each other. */
  lemma OnePlace(before: State, after: State, arg: string, p: Place, q: Place)
    requires WentTo(before, after, arg, p) && WentTo(before, after, arg, q) && before.pos !in before.positional
    ensures p == q
  {
    assert |before.parsed + [arg]| != |before.parsed| && |before.unparsed + [arg]| != |before.unparsed|;
    assert before.pos in before.positional[before.pos := arg];
  }

  /** The current binding takes values. */
  ghost predicate Receives(st: State) {
    st.func.Some? ==>
      st.done && !st.func.value.1.Flag? &&
      (st.func.value.1.Lists? ==> Get(st.values, st.func.value.0).lists != [])
  }

  lemma ValuePlace(st: State, arg: string)
    requires Receives(st) && st.func.Some?
    ensures WentTo(st, TakeValue(st, arg), arg, AtValue) && Receives(TakeValue(st, arg))
  {
    var (o, b) := st.func.value;
    var next := TakeValue(st, arg);
    assert OnlyOwner(st.values, next.values, o);
    assert st.parsed + [] == st.parsed && st.unparsed + [] == st.unparsed;
  }

  lemma GivenPlace(st: State, arg: string)
    requires Receives(st) && st.done
    ensures Placed(st, GiveValue(st, arg), arg) && Receives(GiveValue(st, arg))
  {
    hide TakeValue, WentTo;
    if st.func.Some? {
      ValuePlace(st, arg);
    } else {
      UnparsedPlace(st, arg);
    }
  }

  lemma UnparsedPlace(st: State, arg: string)
    ensures WentTo(st, st.(unparsed := st.unparsed + [arg]), arg, AtUnparsed)
  {
    assert OnlyOwner(st.values, st.values, Trailing);
    assert st.parsed + [] == st.parsed;
  }

  lemma KeywordPlace(st: State, arg: string, b: Binding)
    ensures Placed(st, StartKeyword(st, arg, b), arg) && Receives(StartKeyword(st, arg, b))
  {
    var next := StartKeyword(st, arg, b);
    assert OnlyOwner(st.values, next.values, Keyword(arg));
    assert st.unparsed + [] == st.unparsed;
    assert WentTo(st, next, arg, AtKeyword);
  }

  /** A trailing binding takes over: it takes the argument, or swallows it. */
  lemma TrailingPlace(st: State, arg: string, b: Binding)
    requires !st.done
    ensures var bound := BindTo(st.(keyword := "", seen := 0, done := true), Trailing, b);
            if bound.func.None? then Placed(st, bound, arg) && Receives(bound)
            else Placed(st, TakeValue(bound, arg), arg) && Receives(TakeValue(bound, arg))
  {
    var bound := BindTo(st.(keyword := "", seen := 0, done := true), Trailing, b);
    assert st.parsed + [] == st.parsed && st.unparsed + [] == st.unparsed;
    if bound.func.None? {
      assert OnlyOwner(st.values, bound.values, Trailing);
      assert WentTo(st, bound, arg, Swallowed);
    } else {
      assert OnlyOwner(st.values, TakeValue(bound, arg).values, Trailing);
      assert WentTo(st, TakeValue(bound, arg), arg, AtValue);
    }
  }

  lemma LeadPlace(g: Grammar, st: State, arg: string)
    requires Receives(st) && !st.done
    ensures Placed(st, TakeLead(g, st, arg), arg) && Receives(TakeLead(g, st, arg))
  {
    hide BindTo, TakeValue;
    if st.pos in g.positions {
      var next := TakeLead(g, st, arg);
      assert OnlyOwner(st.values, next.values, Trailing);
      assert st.parsed + [] == st.parsed && st.unparsed + [] == st.unparsed;
      assert WentTo(st, next, arg, AtPosition);
    } else if g.trailing.Some? {
      hide Placed, Receives;
      TrailingPlace(st, arg, g.trailing.value);
    } else {
      UnparsedPlace(st, arg);
    }
  }

  lemma ConsumeEffect(g: Grammar, st: State, arg: string)
    ensures Receives(st) ==> Placed(st, Consumed(g, st, arg), arg) && Receives(Consumed(g, st, arg))
    ensures forall start, args :: Tracks(g, start, args, st) ==> Tracks(g, start, args + [arg], Step(g, st, arg))
  {
    hide Tracks, Placed, TakeLead, GiveValue, StartKeyword, Contents;
    forall start, args | Tracks(g, start, args, st)
      ensures Tracks(g, start, args + [arg], Step(g, st, arg))
    {
      StepTracks(g, start, args, st, arg);
    }
    if Receives(st) {
      if arg in Contents(g.keywords) {
        KeywordPlace(st, arg, Contents(g.keywords)[arg]);
      } else if !st.done {
        LeadPlace(g, st, arg);
      } else {
        GivenPlace(st, arg);
      }
    }
  }

  class Instance {
    const grammar: Grammar
    var keyword: string
    var pos: nat
    var keywordValuesSeen: nat
    var keywordValuesExpected: nat
    var keywordValueFunc: Option<(Owner, Binding)>
    var doneWithPositional: bool
    var values: map<Owner, Value>
    var positional: map<nat, string>
    var unparsed: seq<string>
    var errors: set<(string, Problem)>
    var parsedKeywords: seq<string>

    constructor (grammar: Grammar)
      ensures this.grammar == grammar && Now() == INITIAL
    {
      this.grammar := grammar;
      keyword, pos, keywordValuesSeen, keywordValuesExpected := "", 0, 0, 0;
      keywordValueFunc, doneWithPositional := None, false;
      values, positional, unparsed, errors, parsedKeywords := map[], map[], [], {}, [];
    }

    ghost function Now(): State
      reads this
    {
      State(keyword, pos, keywordValuesSeen, keywordValuesExpected, keywordValueFunc, doneWithPositional,
            values, positional, unparsed, errors, parsedKeywords)
    }

    /** The last keyword's values are complete: what tracked the arguments is now what a parse of them leaves. */
    method Finish()
      modifies this
      ensures Now() == FinishKeyword(old(Now()))
      ensures forall start, args :: Tracks(grammar, start, args, old(Now())) ==> Parsed(grammar, start, args, Now())
    {
      hide Tracks, Parsed;
      forall start, args | Tracks(grammar, start, args, Now())
        ensures Parsed(grammar, start, args, FinishKeyword(Now()))
      {
        FinishParses(grammar, start, args, Now());
      }
      if !doneWithPositional {
        return;
      }
      if keywordValuesSeen < keywordValuesExpected {
        errors := errors + {(keyword, MissingValue)};
      }
    }

    /** One more occurrence, with nothing after it yet: the value is that after an empty run. */
    method Bind(o: Owner, b: Binding)
      modifies this
      ensures Now() == BindTo(old(Now()), o, b)
      ensures values == old(values)[o := ValueAfter(b, Get(old(values), o), [])]
      ensures doneWithPositional && keywordValuesSeen == 0 ==> Reads(Somebody(o, keyword, b, []), Now())
    {
      Bound0(Now(), o, b);
      NothingYet(keyword, b);
      var v := Get(values, o);
      match b {
        case Flag =>
          values := values[o := v.(present := true)];
          keywordValueFunc := None;
        case Lists(_) =>
          values := values[o := v.(lists := v.lists + [[]])];
          keywordValueFunc := Some((o, b));
        case _ =>
          values := values[o := v];
          keywordValueFunc := Some((o, b));
      }
      keywordValuesExpected := AtLeast(b);
    }

    /** One more argument: the value after a run becomes that after the longer run. */
    method Take(arg: string)
      requires keywordValueFunc.Some?
      modifies this
      ensures Now() == TakeValue(old(Now()), arg)
      ensures forall o, b, v, run :: Holds(old(Now()), o, b, v, run) ==> Holds(Now(), o, b, v, run + [arg])
    {
      forall o, b, v, run | Holds(Now(), o, b, v, run)
        ensures Holds(TakeValue(Now(), arg), o, b, v, run + [arg])
      {
        ValueGiven(Now(), o, keyword, b, v, run, arg);
      }
      var (o, b) := keywordValueFunc.value;
      var v := Get(values, o);
      match b {
        case Flag =>
          return;
        case Text(_, nonEmpty) =>
          if arg == "" && nonEmpty {
            errors := errors + {(keyword, EmptyValue)};
          }
          values := values[o := v.(text := arg)];
          keywordValueFunc := None;
        case List(_) =>
          values := values[o := v.(list := v.list + [arg])];
        case Lists(_) =>
          if v.lists == [] {
            return;
          }
          var last := |v.lists| - 1;
          values := values[o := v.(lists := v.lists[last := v.lists[last] + [arg]])];
      }
      keywordValuesSeen := keywordValuesSeen + 1;
    }

    /** One argument goes to one place, and only one (OnePlace), and what the split says goes on to hold. */
    method Consume(arg: string)
      requires Sorted(grammar.keywords)
      modifies this
      ensures Now() == Consumed(grammar, old(Now()), arg)
      ensures Receives(old(Now())) ==> Receives(Now()) && Placed(old(Now()), Now(), arg)
      ensures forall start, args :: Tracks(grammar, start, args, old(Now())) ==>
                Tracks(grammar, start, args + [arg], Now().(pos := pos + 1))
    {
      ConsumeEffect(grammar, Now(), arg);
      hide Contents, BindTo, TakeValue, FinishKeyword, Tracks, Placed, Parsed, Holds, Reads, ValueAfter;
      var it := Find(grammar.keywords, arg);
      if it.Some? {
        Finish();
        keyword := arg;
        keywordValuesSeen := 0;
        doneWithPositional := true;
        parsedKeywords := parsedKeywords + [arg];
        Bind(Keyword(arg), it.value);
        return;
      }
      if !doneWithPositional {
        if pos in grammar.positions {
          positional := positional[pos := arg];
          return;
        }
        if grammar.trailing.Some? {
          keyword := "";
          keywordValuesSeen := 0;
          doneWithPositional := true;
          Bind(Trailing, grammar.trailing.value);
          if keywordValueFunc.None? {
            return;
          }
        }
      }
      if keywordValueFunc.Some? {
        Take(arg);
        return;
      }
      unparsed := unparsed + [arg];
    }

    /** The whole pass. */
    method Parse(args: seq<string>, start: nat)
      requires Sorted(grammar.keywords) && Now() == INITIAL
      modifies this
      ensures Parsed(grammar, start, args, Now())
    {
      hide Contents, Tracks, Parsed, Consumed, FinishKeyword;
      pos := start;
      InitialTracks(grammar, start);
      for i := 0 to |args|
        invariant Tracks(grammar, start, args[..i], Now())
      {
        StepTracks(grammar, start, args[..i], Now(), args[i]);
        assert args[..i] + [args[i]] == args[..i + 1];
        Consume(args[i]);
        pos := pos + 1;
      }
      assert args[..|args|] == args;
      FinishParses(grammar, start, args, Now());
      Finish();
    }
  }

  // What the result says about a keyword --------------------------------------------------------------------

  /** The arguments that follow the occurrences of `k`, in order. */
  function RunsOf(k: string, parts: seq<Occurrence>): seq<string> {
    if parts == [] then []
    else
      var o := parts[|parts| - 1];
      RunsOf(k, parts[..|parts| - 1]) + if o.keyword == k then o.run else []
  }

  /** A list-bound keyword collects, over all its occurrences, the maximal runs that follow them. */
  lemma {:induction false} ListCollectsRuns(t: map<string, Binding>, v: map<Owner, Value>, parts: seq<Occurrence>,
                                            k: string)
    requires AllIn(t, parts) && k in t && t[k].List?
    ensures Get(PartValues(t, v, parts), Keyword(k)).list == Get(v, Keyword(k)).list + RunsOf(k, parts)
  {
    if parts != [] {
      ListCollectsRuns(t, v, parts[..|parts| - 1], k);
      var list, runs := Get(v, Keyword(k)).list, RunsOf(k, parts[..|parts| - 1]);
      var o := parts[|parts| - 1];
      assert list + runs + o.run == list + (runs + o.run);
    }
  }

  /** Occurrence `i` is one of `k` and is followed by fewer arguments, up to the next keyword or the end, than the
      binding of `k` expects. */
  ghost predicate TooFew(t: map<string, Binding>, parts: seq<Occurrence>, k: string, i: nat) {
    i < |parts| && parts[i].keyword == k && k in t && |parts[i].run| < AtLeast(t[k])
  }

  ghost predicate SomeTooFew(t: map<string, Binding>, parts: seq<Occurrence>, k: string) {
    exists i: nat :: TooFew(t, parts, k, i)
  }

  /** A missing value is reported for a keyword exactly when some occurrence of it has too few. */
  lemma {:induction false} MissingIffTooFew(t: map<string, Binding>, parts: seq<Occurrence>, k: string)
    requires AllIn(t, parts) && forall n :: n in t ==> GoodBinding(t[n])
    ensures (k, MissingValue) in PartMissing(t, parts) <==> SomeTooFew(t, parts, k)
  {
    if parts != [] {
      var front, last := parts[..|parts| - 1], parts[|parts| - 1];
      MissingIffTooFew(t, front, k);
      if i: nat :| TooFew(t, parts, k, i) && i < |front| {
        assert TooFew(t, front, k, i);
      }
      if i: nat :| TooFew(t, front, k, i) {
        assert TooFew(t, parts, k, i);
      }
      assert TooFew(t, parts, k, |front|) <==> (k, MissingValue) in MissingIn(last.keyword, t[last.keyword], last.run);
    }
  }

  /** After a parse a list-bound keyword holds the concatenation, over its occurrences, of the runs that follow
      them. */
  lemma ParsedList(g: Grammar, start: nat, args: seq<string>, st: State, k: string)
    requires Parsed(g, start, args, st) && k in Contents(g.keywords) && Contents(g.keywords)[k].List?
    ensures Get(st.values, Keyword(k)).list == RunsOf(k, SplitAt(Contents(g.keywords), args).parts)
  {
    hide Contents, SplitAt, LeadOf, PartValues, PartUnparsed, PartEmpty, PartMissing, RunsOf;
    var t := Contents(g.keywords);
    var s := SplitAt(t, args);
    var v := LeadValues(g, LeadOf(g, start, s.lead));
    ListCollectsRuns(t, v, s.parts, k);
    assert Get(v, Keyword(k)).list == [];
  }

  /** The runs that follow the occurrences of `k`, one by one. */
  function EachRunOf(k: string, parts: seq<Occurrence>): seq<seq<string>> {
    if parts == [] then []
    else
      var o := parts[|parts| - 1];
      EachRunOf(k, parts[..|parts| - 1]) + if o.keyword == k then [o.run] else []
  }

  /** What the runs of a keyword that is not bound to a list make of its value: a flag is set by any occurrence,
      a text is the first argument of the last run that has one, and a list of lists holds the runs. */
  ghost predicate HoldsRuns(b: Binding, v: Value, runs: seq<seq<string>>) {
    match b
    case Flag => v.present <==> runs != []
    case Text(_, _) =>
      (forall i :: 0 <= i < |runs| && runs[i] != [] && (forall j :: i < j < |runs| ==> runs[j] == []) ==>
          v.text == runs[i][0]) &&
      ((forall i :: 0 <= i < |runs| ==> runs[i] == []) ==> v.text == "")
    case List(_) => true
    case Lists(_) => v.lists == runs
  }

  lemma HoldsMore(b: Binding, v: Value, runs: seq<seq<string>>, run: seq<string>)
    requires HoldsRuns(b, v, runs)
    ensures HoldsRuns(b, ValueAfter(b, v, run), runs + [run])
  {
    var more := runs + [run];
    if b.Text? {
      assert more[|runs|] == run && forall i :: 0 <= i < |runs| ==> more[i] == runs[i];
    }
  }

  lemma {:induction false} PartsHoldRuns(t: map<string, Binding>, v: map<Owner, Value>, parts: seq<Occurrence>,
                                         k: string)
    requires AllIn(t, parts) && k in t && HoldsRuns(t[k], Get(v, Keyword(k)), [])
    ensures HoldsRuns(t[k], Get(PartValues(t, v, parts), Keyword(k)), EachRunOf(k, parts))
  {
    hide HoldsRuns, ValueAfter;
    if parts != [] {
      var front, o := parts[..|parts| - 1], parts[|parts| - 1];
      PartsHoldRuns(t, v, front, k);
      HoldsMore(t[k], Get(PartValues(t, v, front), Keyword(k)), EachRunOf(k, front), o.run);
      assert o.keyword != k ==> EachRunOf(k, parts) == EachRunOf(k, front);
    }
  }

  /** After a parse a keyword bound to a flag, a text or a list of lists holds what its runs say. */
  lemma ParsedValues(g: Grammar, start: nat, args: seq<string>, st: State, k: string)
    requires Parsed(g, start, args, st) && k in Contents(g.keywords)
    ensures HoldsRuns(Contents(g.keywords)[k], Get(st.values, Keyword(k)), EachRunOf(k,
            SplitAt(Contents(g.keywords), args).parts))
  {
    hide Contents, PartUnparsed, PartEmpty, PartMissing, EachRunOf;
    var t := Contents(g.keywords);
    var s := SplitAt(t, args);
    var v := LeadValues(g, LeadOf(g, start, s.lead));
    assert Get(v, Keyword(k)) == Value(false, "", [], []);
    PartsHoldRuns(t, v, s.parts, k);
  }

  lemma {:induction false} OnlyMissing(t: map<string, Binding>, parts: seq<Occurrence>, k: string)
    requires AllIn(t, parts)
    ensures (k, MissingValue) !in PartEmpty(t, parts)
  {
    if parts != [] {
      OnlyMissing(t, parts[..|parts| - 1], k);
    }
  }

  /** The trailing binding took over and was given fewer arguments than it expects. */
  ghost predicate TrailTooFew(g: Grammar, start: nat, args: seq<string>) {
    var l := LeadOf(g, start, SplitAt(Contents(g.keywords), args).lead);
    l.trail.Some? && g.trailing.Some? && |l.trail.value| < AtLeast(g.trailing.value)
  }

  /** After a parse a missing value is reported for a keyword exactly when some occurrence of it is followed by
      too few arguments, or, under the empty name, when the trailing binding was given too few. */
  lemma ParsedMissing(g: Grammar, start: nat, args: seq<string>, st: State, k: string)
    requires GoodGrammar(g) && Parsed(g, start, args, st)
    ensures (k, MissingValue) in st.errors <==>
            SomeTooFew(Contents(g.keywords), SplitAt(Contents(g.keywords), args).parts, k) ||
            (k == "" && TrailTooFew(g, start, args))
  {
    hide LeadOf, PartValues, PartUnparsed, LeadValues, LeadUnparsed, PartMissing, PartEmpty;
    hide LeadMissing, LeadEmpty, SomeTooFew, Sorted, GoodBinding, Names;
    var t := Contents(g.keywords);
    var s := SplitAt(t, args);
    var l := LeadOf(g, start, s.lead);
    OnlyMissing(t, s.parts, k);
    MissingIffTooFew(t, s.parts, k);
    TrailIsBound(g, start, s.lead);
    LeadMissingIff(g, l, k);
    assert (k, MissingValue) in st.errors <==>
      (k, MissingValue) in PartMissing(t, s.parts) || (k, MissingValue) in LeadMissing(g, l);
  }

  /** The errors of the trailing binding are filed under the empty name. */
  lemma LeadMissingIff(g: Grammar, l: Lead, k: string)
    requires g.trailing.Some? ==> GoodBinding(g.trailing.value)
    requires l.trail.Some? ==> l.trail.value != []
    ensures (k, MissingValue) !in LeadEmpty(g, l)
    ensures (k, MissingValue) in LeadMissing(g, l) <==>
            k == "" && l.trail.Some? && g.trailing.Some? && |l.trail.value| < AtLeast(g.trailing.value)
  {}

  // The arguments before the first keyword ----------------------------------------------------------------

  lemma {:induction false} JoinedStarts(parts: seq<Occurrence>)
    requires parts != []
    ensures Joined(parts) != [] && Joined(parts)[0] == parts[0].keyword
  {
    if |parts| > 1 {
      JoinedStarts(parts[..|parts| - 1]);
    }
  }

  /** They are those with no keyword among them and the arguments before them. */
  lemma LeadIff(t: map<string, Binding>, args: seq<string>, j: nat)
    requires j < |args|
    ensures |SplitAt(t, args).lead| <= |args| && SplitAt(t, args).lead == args[..|SplitAt(t, args).lead|]
    ensures j < |SplitAt(t, args).lead| <==> NoKeywords(t, args[..j + 1])
  {
    hide SplitAt, Joined;
    var s := SplitAt(t, args);
    var m := |s.lead|;
    SplitIsMaximal(t, args);
    assert args[..m] == s.lead;
    if j < m {
      assert forall i :: 0 <= i <= j ==> args[i] == s.lead[i];
    } else {
      if s.parts == [] {
        NoJoined();
        assert false;
      }
      JoinedStarts(s.parts);
      assert args[..j + 1][m] == args[m] == Joined(s.parts)[0];
    }
  }

  lemma NoJoined()
    ensures Joined([]) == []
  {}

  /** All indices from `start` on, `n` of them, are bound positions. */
  ghost predicate AllBound(g: Grammar, start: nat, n: nat) {
    forall i :: start <= i < start + n ==> i in g.positions
  }

  /** What becomes of the arguments before the first keyword: an argument is at a position exactly when its index is
      bound and no trailing binding has taken over, which happens at the first index that is not bound. */
  ghost predicate LeadShape(g: Grammar, start: nat, lead: seq<string>, l: Lead) {
    && (forall i :: i in l.positional <==>
          i in g.positions && start <= i < start + |lead| && (g.trailing.None? || AllBound(g, start, i + 1 - start)))
    && (l.trail.Some? <==> g.trailing.Some? && !AllBound(g, start, |lead|))
    && (g.trailing.Some? ==> l.unparsed == [])
    && (l.trail.Some? ==>
          var j := |lead| - |l.trail.value|;
          0 <= j < |lead| && l.trail.value == lead[j..] && AllBound(g, start, j) && start + j !in g.positions)
  }

  lemma LeadShapeNext(g: Grammar, start: nat, lead: seq<string>, l: Lead, arg: string)
    requires LeadShape(g, start, lead, l)
    ensures LeadShape(g, start, lead + [arg], LeadNext(g, start + |lead|, l, arg))
  {
    var n, next, more := |lead|, LeadNext(g, start + |lead|, l, arg), lead + [arg];
    assert AllBound(g, start, n + 1) <==> AllBound(g, start, n) && start + n in g.positions;
    if l.trail.Some? {
      var j := n - |l.trail.value|;
      assert more[j..] == lead[j..] + [arg];
      assert forall k :: k > j ==> !AllBound(g, start, k);
    } else {
      assert more[n..] == [arg];
    }
  }

  lemma {:induction false} LeadHasShape(g: Grammar, start: nat, lead: seq<string>)
    ensures LeadShape(g, start, lead, LeadOf(g, start, lead))
  {
    if lead != [] {
      hide LeadShape, LeadNext;
      var n := |lead| - 1;
      LeadHasShape(g, start, lead[..n]);
      LeadShapeNext(g, start, lead[..n], LeadOf(g, start, lead[..n]), lead[n]);
      assert lead[..n] + [lead[n]] == lead;
    }
  }

  /** After a parse a position is filled exactly when it is bound, an argument stands there, no keyword comes up to it,
      and no trailing binding has taken over before; it is filled with that argument. */
  lemma ParsedPositions(g: Grammar, start: nat, args: seq<string>, st: State, i: nat)
    requires Parsed(g, start, args, st)
    ensures i in st.positional <==>
            i in g.positions && start <= i < start + |args| &&
              NoKeywords(Contents(g.keywords), args[..i - start + 1]) &&
            (g.trailing.None? || forall j :: start <= j <= i ==> j in g.positions)
    ensures i in st.positional ==> st.positional[i] == args[i - start]
  {
    hide Contents, SplitAt, LeadOf, PartValues, PartUnparsed, PartEmpty, PartMissing, NoKeywords;
    var t := Contents(g.keywords);
    var lead := SplitAt(t, args).lead;
    LeadHasShape(g, start, lead);
    LeadAccounts(g, start, lead);
    if start <= i < start + |args| {
      LeadIff(t, args, i - start);
    } else {
      LeadFits(t, args);
    }
  }

  lemma LeadFits(t: map<string, Binding>, args: seq<string>)
    ensures |SplitAt(t, args).lead| <= |args|
  {
    SplitIsMaximal(t, args);
  }

  /** After a parse a trailing binding has been given the arguments from the first index that is not bound up to the
      first keyword, and holds what they make of its value. */
  lemma ParsedTrailing(g: Grammar, start: nat, args: seq<string>, st: State, j: nat, m: nat)
    requires Parsed(g, start, args, st) && g.trailing.Some? && j < m <= |args|
    requires NoKeywords(Contents(g.keywords), args[..m]) && (m < |args| ==> args[m] in Contents(g.keywords))
    requires start + j !in g.positions && forall i :: start <= i < start + j ==> i in g.positions
    ensures HoldsRuns(g.trailing.value, Get(st.values, Trailing), [args[j..m]])
    ensures g.trailing.value.List? ==> Get(st.values, Trailing).list == args[j..m]
  {
    hide Contents, SplitAt, LeadOf, PartValues, PartUnparsed, PartEmpty, PartMissing;
    var t := Contents(g.keywords);
    var s := SplitAt(t, args);
    var l := LeadOf(g, start, s.lead);
    assert args[..m - 1 + 1] == args[..m];
    LeadIff(t, args, m - 1);
    if m < |args| {
      assert args[..m + 1][m] == args[m];
      LeadIff(t, args, m);
    }
    LeadFits(t, args);
    assert |s.lead| == m && s.lead == args[..m];
    LeadHasShape(g, start, s.lead);
    assert !AllBound(g, start, m);
    TrailStartsAt(g, start, s.lead, l, j);
    assert s.lead[j..] == args[j..m];
    PartsKeepTrailing(t, LeadValues(g, l), s.parts);
    TrailHolds(g.trailing.value, args[j..m]);
  }

  lemma TrailStartsAt(g: Grammar, start: nat, lead: seq<string>, l: Lead, j: nat)
    requires LeadShape(g, start, lead, l) && g.trailing.Some? && j < |lead|
    requires start + j !in g.positions && forall i :: start <= i < start + j ==> i in g.positions
    ensures l.trail == Some(lead[j..])
  {
    assert !AllBound(g, start, |lead|);
    var k := |lead| - |l.trail.value|;
    assert k < j ==> start + k in g.positions;
    assert j < k ==> start + j in g.positions;
  }

  lemma TrailHolds(b: Binding, run: seq<string>)
    ensures HoldsRuns(b, ValueAfter(b, Get(map[], Trailing), run), [run])
    ensures b.List? ==> ValueAfter(b, Get(map[], Trailing), run).list == run
  {
    HoldsMore(b, Get(map[], Trailing), [], run);
    assert [] + [run] == [run];
  }

  lemma {:induction false} PartsKeepTrailing(t: map<string, Binding>, v: map<Owner, Value>, parts: seq<Occurrence>)
    requires AllIn(t, parts)
    ensures Get(PartValues(t, v, parts), Trailing) == Get(v, Trailing)
  {
    if parts != [] {
      PartsKeepTrailing(t, v, parts[..|parts| - 1]);
    }
  }

  /** A flag leaves everything after it unparsed, a text everything but the first, a list nothing. */
  lemma LeftUnparsed(b: Binding, run: seq<string>)
    ensures UnparsedIn(b, run) ==
            match b
            case Flag => run
            case Text(_, _) => if run == [] then [] else run[1..]
            case List(_) => []
            case Lists(_) => []
  {}

  // Empty values ------------------------------------------------------------------------------------------

  /** Occurrence `i` is one of `k`, which wants a text that is not empty, and the first argument after it is. */
  ghost predicate GivenEmpty(t: map<string, Binding>, parts: seq<Occurrence>, k: string, i: nat) {
    && i < |parts| && parts[i].keyword == k && k in t && t[k].Text? && t[k].nonEmpty
    && parts[i].run != [] && parts[i].run[0] == ""
  }

  ghost predicate SomeGivenEmpty(t: map<string, Binding>, parts: seq<Occurrence>, k: string) {
    exists i: nat :: GivenEmpty(t, parts, k, i)
  }

  lemma {:induction false} EmptyIffGiven(t: map<string, Binding>, parts: seq<Occurrence>, k: string)
    requires AllIn(t, parts)
    ensures (k, EmptyValue) in PartEmpty(t, parts) <==> SomeGivenEmpty(t, parts, k)
    ensures (k, EmptyValue) !in PartMissing(t, parts)
  {
    if parts != [] {
      var front, last := parts[..|parts| - 1], parts[|parts| - 1];
      EmptyIffGiven(t, front, k);
      if i: nat :| GivenEmpty(t, parts, k, i) && i < |front| {
        assert GivenEmpty(t, front, k, i);
      }
      if i: nat :| GivenEmpty(t, front, k, i) {
        assert GivenEmpty(t, parts, k, i);
      }
      assert GivenEmpty(t, parts, k, |front|) <==> (k, EmptyValue) in EmptyIn(last.keyword, t[last.keyword], last.run);
    }
  }

  /** The trailing binding wants a text that is not empty, and the argument at which it takes over is. */
  ghost predicate TrailGivenEmpty(g: Grammar, start: nat, args: seq<string>) {
    var l := LeadOf(g, start, SplitAt(Contents(g.keywords), args).lead);
    && g.trailing.Some? && g.trailing.value.Text? && g.trailing.value.nonEmpty
    && l.trail.Some? && l.trail.value != [] && l.trail.value[0] == ""
  }

  /** After a parse an empty value is reported for a keyword exactly when it wants a text that is not empty and some
      occurrence of it is followed by an empty argument, or, under the empty name, for the trailing binding. */
  lemma ParsedEmpty(g: Grammar, start: nat, args: seq<string>, st: State, k: string)
    requires Parsed(g, start, args, st)
    ensures (k, EmptyValue) in st.errors <==>
            SomeGivenEmpty(Contents(g.keywords), SplitAt(Contents(g.keywords), args).parts, k) ||
            (k == "" && TrailGivenEmpty(g, start, args))
  {
    hide LeadOf, PartValues, PartUnparsed, LeadValues, LeadUnparsed, PartMissing, PartEmpty;
    hide LeadMissing, LeadEmpty, SomeGivenEmpty, Names;
    var t := Contents(g.keywords);
    var s := SplitAt(t, args);
    var l := LeadOf(g, start, s.lead);
    EmptyIffGiven(t, s.parts, k);
    LeadEmptyIff(g, l, k);
    assert (k, EmptyValue) in st.errors <==>
      (k, EmptyValue) in PartEmpty(t, s.parts) || (k, EmptyValue) in LeadEmpty(g, l);
  }

  lemma LeadEmptyIff(g: Grammar, l: Lead, k: string)
    ensures (k, EmptyValue) !in LeadMissing(g, l)
    ensures (k, EmptyValue) in LeadEmpty(g, l) <==>
            k == "" && g.trailing.Some? && g.trailing.value.Text? && g.trailing.value.nonEmpty &&
            l.trail.Some? && l.trail.value != [] && l.trail.value[0] == ""
  {}

  // Every argument is accounted for -------------------------------------------------------------------------

  /** The arguments that the bindings of the parts take, in order. */
  function TakenIn(t: map<string, Binding>, parts: seq<Occurrence>): seq<string>
    requires forall i :: 0 <= i < |parts| ==> parts[i].keyword in t
  {
    if parts == [] then []
    else
      var o := parts[|parts| - 1];
      TakenIn(t, parts[..|parts| - 1]) + o.run[..Taken(t[o.keyword], o.run)]
  }

  /** The arguments at positions, in order. */
  function PositionedIn(positional: map<nat, string>, start: nat, n: nat): seq<string> {
    if n == 0 then []
    else
      PositionedIn(positional, start, n - 1) +
      if start + n - 1 in positional then [positional[start + n - 1]] else []
  }

  /** What the trailing binding takes; a flag swallows the argument that triggers it. */
  function TrailTaken(b: Binding, trail: seq<string>): seq<string> {
    if b.Flag? then trail[..if trail == [] then 0 else 1] else trail[..Taken(b, trail)]
  }

  /** The arguments `all` are, each as often as it occurs, those in the three lists. */
  ghost predicate Together(all: seq<string>, p: seq<string>, q: seq<string>, r: seq<string>) {
    multiset(all) == multiset(p) + multiset(q) + multiset(r)
  }

  lemma {:induction false} PartsAccount(t: map<string, Binding>, parts: seq<Occurrence>)
    requires AllIn(t, parts)
    ensures Together(Joined(parts), Names(parts), TakenIn(t, parts), PartUnparsed(t, parts))
  {
    hide Taken, Together;
    if parts == [] {
      NoneTogether();
    } else {
      var n := |parts| - 1;
      var front, o := parts[..n], parts[n];
      var k := Taken(t[o.keyword], o.run);
      PartsAccount(t, front);
      assert Names(parts) == Names(front) + [o.keyword];
      PartAccounts(Joined(front), Names(front), TakenIn(t, front), PartUnparsed(t, front), o, k);
    }
  }

  lemma PartAccounts(all: seq<string>, names: seq<string>, taken: seq<string>, rest: seq<string>, o: Occurrence, k: nat)
    requires Together(all, names, taken, rest) && k <= |o.run|
    ensures Together(all + [o.keyword] + o.run, names + [o.keyword], taken + o.run[..k], rest + o.run[k..])
  {
    assert o.run == o.run[..k] + o.run[k..];
    assert multiset(o.run) == multiset(o.run[..k]) + multiset(o.run[k..]);
  }

  lemma NoneTogether()
    ensures Together([], [], [], [])
  {}

  lemma {:induction false} PositionedSame(a: map<nat, string>, b: map<nat, string>, start: nat, n: nat)
    requires forall i :: start <= i < start + n ==> (i in a <==> i in b) && (i in a ==> a[i] == b[i])
    ensures PositionedIn(a, start, n) == PositionedIn(b, start, n)
  {
    if n > 0 {
      PositionedSame(a, b, start, n - 1);
    }
  }

  function TrailOf(l: Lead): seq<string> {
    if l.trail.Some? then l.trail.value else []
  }

  /** The arguments before the first keyword are those at positions, the unparsed ones and the trailing ones. */
  ghost predicate Accounts(l: Lead, start: nat, lead: seq<string>) {
    && Together(lead, PositionedIn(l.positional, start, |lead|), l.unparsed, TrailOf(l))
    && InPlace(l.positional, start, lead)
  }

  /** The arguments at positions are where they stand. */
  ghost predicate InPlace(positional: map<nat, string>, start: nat, args: seq<string>) {
    forall i :: i in positional ==> start <= i < start + |args| && positional[i] == args[i - start]
  }

  lemma InPlaceNext(positional: map<nat, string>, start: nat, args: seq<string>, arg: string)
    requires InPlace(positional, start, args)
    ensures start + |args| !in positional
    ensures InPlace(positional, start, args + [arg]) && InPlace(positional[start + |args| := arg], start, args + [arg])
  {
    assert forall i :: i in positional ==> (args + [arg])[i - start] == args[i - start];
  }

  lemma InPlaceMore(positional: map<nat, string>, start: nat, args: seq<string>, more: seq<string>)
    requires InPlace(positional, start, args)
    ensures InPlace(positional, start, args + more)
  {
    assert forall i :: i in positional ==> (args + more)[i - start] == args[i - start];
  }

  lemma OneMore(all: seq<string>, p: seq<string>, u: seq<string>, t: seq<string>, arg: string)
    requires Together(all, p, u, t)
    ensures Together(all + [arg], p + [arg], u, t)
    ensures Together(all + [arg], p, u + [arg], t)
    ensures Together(all + [arg], p, u, t + [arg])
  {}

  lemma LeadAccountsNext(g: Grammar, start: nat, before: Lead, lead: seq<string>, arg: string)
    requires Accounts(before, start, lead)
    ensures Accounts(LeadNext(g, start + |lead|, before, arg), start, lead + [arg])
  {
    hide PositionedIn, Together, InPlace;
    var n, next := |lead|, LeadNext(g, start + |lead|, before, arg);
    var p := PositionedIn(before.positional, start, n);
    InPlaceNext(before.positional, start, lead, arg);
    PositionedSame(before.positional, next.positional, start, n);
    PositionedNext(next.positional, start, n);
    assert p + [] == p && [] + [arg] == [arg];
    OneMore(lead, p, before.unparsed, TrailOf(before), arg);
  }

  lemma PositionedNext(positional: map<nat, string>, start: nat, n: nat)
    ensures PositionedIn(positional, start, n + 1) ==
            PositionedIn(positional, start, n) + if start + n in positional then [positional[start + n]] else []
  {}

  lemma {:induction false} LeadAccounts(g: Grammar, start: nat, lead: seq<string>)
    ensures Accounts(LeadOf(g, start, lead), start, lead)
  {
    hide LeadNext;
    if lead == [] {
      hide Accounts;
      NothingAccounts(start);
    } else {
      hide Accounts;
      var n := |lead| - 1;
      LeadAccounts(g, start, lead[..n]);
      LeadAccountsNext(g, start, LeadOf(g, start, lead[..n]), lead[..n], lead[n]);
      assert lead[..n] + [lead[n]] == lead;
    }
  }

  lemma NothingAccounts(start: nat)
    ensures Accounts(Lead(map[], [], None), start, [])
  {}

  /** The position of the next argument is free. */
  lemma PositionIsFree(g: Grammar, start: nat, args: seq<string>, st: State)
    requires Tracks(g, start, args, st)
    ensures st.pos !in st.positional
  {
    hide Contents, PartValues, PartUnparsed, PartEmpty, FinishedMissing, LeadOf;
    var s := SplitAt(Contents(g.keywords), args);
    SplitIsMaximal(Contents(g.keywords), args);
    LeadAccounts(g, start, s.lead);
  }

  /** Every argument is a keyword, at a position, taken as a value or unparsed, as often as it is given; only the
      argument that triggers a trailing flag is nowhere. */
  lemma ArgumentsAccounted(g: Grammar, start: nat, args: seq<string>, st: State)
    requires Parsed(g, start, args, st)
    ensures var s := SplitAt(Contents(g.keywords), args);
            var l := LeadOf(g, start, s.lead);
            && AllIn(Contents(g.keywords), s.parts)
            && AddUp(args, st.parsed, PositionedIn(st.positional, start, |s.lead|), st.unparsed,
                     TakenIn(Contents(g.keywords), s.parts),
                     if g.trailing.Some? then TrailTaken(g.trailing.value, TrailOf(l)) else [])
            && InPlace(st.positional, start, args)
  {
    hide Contents, SplitAt, LeadOf, PartValues, PartEmpty, PartMissing, LeadValues, LeadEmpty, LeadMissing;
    hide Joined, Names, TakenIn, PartUnparsed, LeadUnparsed, PositionedIn, TrailTaken, TrailOf, Together, AddUp;
    var t := Contents(g.keywords);
    var s := SplitAt(t, args);
    var l := LeadOf(g, start, s.lead);
    SplitIsMaximal(t, args);
    PartsAccount(t, s.parts);
    LeadAccounts(g, start, s.lead);
    TrailIsBound(g, start, s.lead);
    TrailAccounts(g, l);
    InPlaceMore(st.positional, start, s.lead, Joined(s.parts));
    AllAddUp(s.lead, PositionedIn(l.positional, start, |s.lead|), l.unparsed, TrailOf(l), LeadUnparsed(g, l),
             if g.trailing.Some? then TrailTaken(g.trailing.value, TrailOf(l)) else [],
             Joined(s.parts), Names(s.parts), TakenIn(t, s.parts), PartUnparsed(t, s.parts));
  }

  /** The arguments are, each as often as it is given, those in the five lists. */
  ghost predicate AddUp(args: seq<string>, keywords: seq<string>, positioned: seq<string>, unparsed: seq<string>,
                        taken: seq<string>, trailing: seq<string>)
  {
    multiset(args) ==
    multiset(keywords) + multiset(positioned) + multiset(unparsed) + multiset(taken) + multiset(trailing)
  }

  lemma AllAddUp(lead: seq<string>, p: seq<string>, u: seq<string>, trail: seq<string>, u': seq<string>,
                 taken: seq<string>,
                 joined: seq<string>, names: seq<string>, values: seq<string>, rest: seq<string>)
    requires Together(lead, p, u, trail) && Together(joined, names, values, rest)
    requires multiset(u) + multiset(trail) == multiset(u') + multiset(taken)
    ensures AddUp(lead + joined, names, p, u' + rest, values, taken)
  {
    assert multiset(lead + joined) == multiset(lead) + multiset(joined);
    assert multiset(lead) == multiset(p) + (multiset(u) + multiset(trail));
  }

  lemma TrailAccounts(g: Grammar, l: Lead)
    requires l.trail.Some? ==> g.trailing.Some?
    ensures multiset(l.unparsed) + multiset(TrailOf(l)) ==
            multiset(LeadUnparsed(g, l)) + multiset(if g.trailing.Some? then
              TrailTaken(g.trailing.value, TrailOf(l)) else [])
  {
    if l.trail.Some? {
      var b, trail := g.trailing.value, l.trail.value;
      var k := |TrailTaken(b, trail)|;
      assert TrailTaken(b, trail) == trail[..k] && TrailUnparsed(b, trail) == trail[k..];
      assert trail == trail[..k] + trail[k..];
    }
  }

  /** With a trailing flag and nothing else, a single argument is not found anywhere afterwards. */
  lemma TrailingFlagSwallows(arg: string, st: State)
    requires Parsed(Grammar([], {}, Some(Flag)), 0, [arg], st)
    ensures st.parsed == [] && st.positional == map[] && st.unparsed == [] && st.errors == {}
    ensures Get(st.values, Trailing) == Value(true, "", [], [])
  {
    var g := Grammar([], {}, Some(Flag));
    var t := Contents(g.keywords);
    assert t == map[];
    assert [arg][..0] == [];
    assert SplitAt(t, []) == Split([], []);
    assert SplitAt(t, [arg]) == Split([] + [arg], []);
    assert [] + [arg] == [arg];
    assert LeadOf(g, 0, []) == Lead(map[], [], None);
    assert LeadOf(g, 0, [arg]) == Lead(map[], [], Some([arg]));
  }

  /** `a` is `b` with some elements left out. */
  ghost predicate Subsequence(a: seq<string>, b: seq<string>)
    decreases |b|
  {
    if b == [] then a == []
    else Subsequence(a, b[..|b| - 1]) ||
         (a != [] && a[|a| - 1] == b[|b| - 1] && Subsequence(a[..|a| - 1], b[..|b| - 1]))
  }

  lemma {:induction false} StatesOf(g: Grammar, start: nat, args: seq<string>) returns (st: State)
    ensures Tracks(g, start, args, st) && Subsequence(st.unparsed, args)
  {
    hide Tracks, Contents;
    if args == [] {
      InitialTracks(g, start);
      st := INITIAL.(pos := start);
    } else {
      var front, arg := args[..|args| - 1], args[|args| - 1];
      var before := StatesOf(g, start, front);
      StepTracks(g, start, front, before, arg);
      assert front + [arg] == args;
      st := Step(g, before, arg);
      StepUnparsed(g, before, arg);
      assert st.unparsed == before.unparsed + [arg] ==> st.unparsed[..|st.unparsed| - 1] == before.unparsed;
    }
  }

  lemma StepUnparsed(g: Grammar, st: State, arg: string)
    ensures Step(g, st, arg).unparsed == st.unparsed || Step(g, st, arg).unparsed == st.unparsed + [arg]
  {}

  /** The unparsed arguments keep their order. */
  lemma UnparsedInOrder(g: Grammar, start: nat, args: seq<string>, st: State)
    requires Parsed(g, start, args, st)
    ensures Subsequence(st.unparsed, args)
  {
    hide Contents, Subsequence;
    var other := StatesOf(g, start, args);
  }
}
