/**
 The generated C files of the tracepoint generator put together (tools/etwlttng/Emitter.cs:
 `EmitTracepointsHeader`, `EmitProvider`, `EmitTable`, `EmitDispatch`): tracepoint definitions, trampolines,
 the table struct and its initialiser, handlers and the switch. An event that the engine raises
 must come out as its own tracepoint record with its own values.
 */
module TraceProgram {
  import opened TraceModel
  import opened TraceEmitter
  import opened OverflowFormat
  import opened TraceDispatch
  import opened Wrappers

  /** What a table member is initialised with. */
  datatype Value = Macro(text: string) | Count(count: nat) | Data(name: string) | Pfn(target: string)

  /** A trampoline: its parameters, and the tracepoint it raises with which of them. */
  datatype Trampoline = Trampoline(name: string, params: seq<Param>, event: string, args: seq<string>)

  /** A `TRACEPOINT_EVENT`: its arguments and the lines that record them. */
  datatype Tracepoint = Tracepoint(params: seq<Param>, lines: seq<Ctf>)

  /** The generated program. Members carry the parameters of their function, if any. */
  datatype Program = Program(
    tracepoints: seq<(string, Tracepoint)>,
    members: seq<(string, seq<Param>)>,
    inits: seq<(string, Value)>,
    trampolines: seq<(string, Trampoline)>,
    handlers: seq<(string, seq<Stmt>)>,
    cases: seq<(string, string)>,
    states: seq<string>)

  // ----- what is generated -----

  const DATA_MEMBERS: seq<(string, seq<Param>)> := [("version", []), ("eventCount", []), ("eventEnabledState", [])]

  function DataInits(events: seq<TraceEvent>): seq<(string, Value)> {
    [("version", Macro("ESE_TRACEPOINT_TABLE_VERSION")), ("eventCount", Count(|events|)),
     ("eventEnabledState", Data("g_eventEnabledState"))]
  }

  function TracepointOf(ev: TraceEvent): Tracepoint {
    Tracepoint(Signature(ev), CtfLines(ev))
  }

  function TrampolineOf(ev: TraceEvent): Trampoline {
    Trampoline("EseTracepoint_" + ev.name, Signature(ev), ev.name, NamesOf(Signature(ev)))
  }

  function Tracepoints(events: seq<TraceEvent>): (r: seq<(string, Tracepoint)>)
    ensures |r| == |events| && forall i :: 0 <= i < |r| ==> r[i] == (events[i].name, TracepointOf(events[i]))
  {
    seq(|events|, i requires 0 <= i < |events| => (events[i].name, TracepointOf(events[i])))
  }

  /** The function members of the table, one per event in order. */
  function Pfns(events: seq<TraceEvent>): (r: seq<(string, seq<Param>)>)
    ensures |r| == |events| && forall i :: 0 <= i < |r| ==> r[i] == ("pfn_" + events[i].name, Signature(events[i]))
  {
    seq(|events|, i requires 0 <= i < |events| => ("pfn_" + events[i].name, Signature(events[i])))
  }

  function PfnInits(events: seq<TraceEvent>): (r: seq<(string, Value)>)
    ensures |r| == |events| && forall i :: 0 <= i < |r| ==> r[i] == ("pfn_" + events[i].name, Pfn("EseTracepoint_" + events[i].name))
  {
    seq(|events|, i requires 0 <= i < |events| => ("pfn_" + events[i].name, Pfn("EseTracepoint_" + events[i].name)))
  }

  function Trampolines(events: seq<TraceEvent>): (r: seq<(string, Trampoline)>)
    ensures |r| == |events| && forall i :: 0 <= i < |r| ==> r[i] == ("EseTracepoint_" + events[i].name, TrampolineOf(events[i]))
  {
    seq(|events|, i requires 0 <= i < |events| => ("EseTracepoint_" + events[i].name, TrampolineOf(events[i])))
  }

  function Handlers(events: seq<TraceEvent>): (r: seq<(string, seq<Stmt>)>)
    ensures |r| == |events| && forall i :: 0 <= i < |r| ==> r[i] == ("EseTpDispatchHandler_" + events[i].name, Handler(events[i]))
  {
    seq(|events|, i requires 0 <= i < |events| => ("EseTpDispatchHandler_" + events[i].name, Handler(events[i])))
  }

  function Cases(events: seq<TraceEvent>): (r: seq<(string, string)>)
    ensures |r| == |events| && forall i :: 0 <= i < |r| ==> r[i] == ("_etguid" + events[i].name, "EseTpDispatchHandler_" + events[i].name)
  {
    seq(|events|, i requires 0 <= i < |events| => ("_etguid" + events[i].name, "EseTpDispatchHandler_" + events[i].name))
  }

  /** The address of the enable state of each event's tracepoint. */
  function States(events: seq<TraceEvent>): (r: seq<string>)
    ensures |r| == |events| && forall i :: 0 <= i < |r| ==> r[i] == "&lttng_ust_tracepoint_ese___" + events[i].name + ".state"
  {
    seq(|events|, i requires 0 <= i < |events| => "&lttng_ust_tracepoint_ese___" + events[i].name + ".state")
  }

  function Generated(events: seq<TraceEvent>): Program {
    Program(
      Tracepoints(events),
      DATA_MEMBERS + Pfns(events),
      DataInits(events) + PfnInits(events),
      Trampolines(events),
      Handlers(events),
      Cases(events),
      States(events))
  }

  /** `EmitTracepointsHeader`: one `TRACEPOINT_EVENT` per event. */
  method EmitTracepointsHeader(events: seq<TraceEvent>) returns (tracepoints: seq<(string, Tracepoint)>)
    ensures tracepoints == Tracepoints(events)
  {
    hide Signature, ReadPairs, CtfLines;
    tracepoints := [];
    for i := 0 to |events|
      invariant tracepoints == Tracepoints(events)[..i]
    {
      var toks := EmitTpArgs(events[i]);
      var lines := EmitTpFields(events[i]);
      tracepoints := tracepoints + [(events[i].name, Tracepoint(ReadPairs(toks).value.0, lines))];
    }
  }

  /** `EmitTable`: the struct's members, in order. */
  method EmitTable(events: seq<TraceEvent>) returns (members: seq<(string, seq<Param>)>)
    ensures members == DATA_MEMBERS + Pfns(events)
  {
    hide Signature, ReadParams;
    members := DATA_MEMBERS;
    for i := 0 to |events|
      invariant members == DATA_MEMBERS + Pfns(events)[..i]
    {
      var toks := EmitTableParams(events[i]);
      members := members + [("pfn_" + events[i].name, ReadParams(toks).value.0)];
    }
    assert Pfns(events)[..|events|] == Pfns(events);
  }

  /** `EmitTrampoline`. */
  method EmitTrampoline(ev: TraceEvent) returns (t: Trampoline)
    ensures t == TrampolineOf(ev)
  {
    hide Signature, ReadParams, ReadArgs;
    var params := EmitTrampolineParams(ev);
    var call := EmitTracepointCall(ev);
    t := Trampoline("EseTracepoint_" + ev.name, ReadParams(params).value.0, ev.name, ReadArgs(call).value.0);
  }

  /** `EmitProvider`: trampolines, the enable-state array and the table's initialisers. */
  method EmitProvider(events: seq<TraceEvent>)
    returns (trampolines: seq<(string, Trampoline)>, states: seq<string>, inits: seq<(string, Value)>)
    ensures trampolines == Trampolines(events) && inits == DataInits(events) + PfnInits(events)
    ensures states == States(events)
  {
    hide TrampolineOf, DataInits;
    trampolines, states, inits := [], [], [];
    for i := 0 to |events|
      invariant trampolines == Trampolines(events)[..i]
    {
      var t := EmitTrampoline(events[i]);
      trampolines := trampolines + [("EseTracepoint_" + events[i].name, t)];
    }
    assert trampolines == Trampolines(events);
    for i := 0 to |events|
      invariant states == States(events)[..i]
    {
      states := states + ["&lttng_ust_tracepoint_ese___" + events[i].name + ".state"];
    }
    assert states == States(events);
    inits := DataInits(events);
    for i := 0 to |events|
      invariant inits == DataInits(events) + PfnInits(events)[..i]
    {
      inits := inits + [("pfn_" + events[i].name, Pfn("EseTracepoint_" + events[i].name))];
    }
    assert PfnInits(events)[..|events|] == PfnInits(events);
  }

  /** `EmitDispatch`: the handlers, and the switch over event numbers. */
  method EmitDispatch(events: seq<TraceEvent>) returns (handlers: seq<(string, seq<Stmt>)>, cases: seq<(string, string)>)
    ensures handlers == Handlers(events) && cases == Cases(events)
  {
    hide Handler;
    handlers, cases := [], [];
    for i := 0 to |events|
      invariant handlers == Handlers(events)[..i]
    {
      var stmts := EmitDispatchHandler(events[i]);
      handlers := handlers + [("EseTpDispatchHandler_" + events[i].name, stmts)];
    }
    for i := 0 to |events|
      invariant cases == Cases(events)[..i]
    {
      cases := cases + [("_etguid" + events[i].name, "EseTpDispatchHandler_" + events[i].name)];
    }
  }

  method EmitAll(events: seq<TraceEvent>) returns (p: Program)
    ensures p == Generated(events)
  {
    hide Tracepoints, Pfns, DataInits, PfnInits, Trampolines, Handlers, Cases, States;
    var tracepoints := EmitTracepointsHeader(events);
    var trampolines, states, inits := EmitProvider(events);
    var members := EmitTable(events);
    var handlers, cases := EmitDispatch(events);
    p := Program(tracepoints, members, inits, trampolines, handlers, cases, states);
  }

  // ----- names -----

  predicate DistinctKeys<T>(pairs: seq<(string, T)>) {
    forall i, j :: 0 <= i < j < |pairs| ==> pairs[i].0 != pairs[j].0
  }

  /** The definition of a name, among definitions of which no two have the same name. */
  function Lookup<T>(pairs: seq<(string, T)>, key: string): Option<T> {
    if pairs == [] then None
    else if pairs[0].0 == key then Some(pairs[0].1)
    else Lookup(pairs[1..], key)
  }

  lemma {:induction false} LookupFinds<T>(pairs: seq<(string, T)>, k: nat)
    requires k < |pairs| && DistinctKeys(pairs)
    ensures Lookup(pairs, pairs[k].0) == Some(pairs[k].1)
    decreases |pairs|
  {
    if k > 0 {
      LookupFinds(pairs[1..], k - 1);
    }
  }

  function IndexOf(names: seq<string>, name: string): (i: nat)
    requires name in names
    ensures i < |names| && names[i] == name
  {
    if names[0] == name then 0 else 1 + IndexOf(names[1..], name)
  }

  predicate AllIn(args: seq<string>, names: seq<string>) {
    forall arg :: arg in args ==> arg in names
  }

  /** What belongs to the names that a list mentions. */
  function Picked<T>(names: seq<string>, args: seq<string>, values: seq<T>): (r: seq<T>)
    requires |values| == |names| && AllIn(args, names)
    ensures |r| == |args| && forall i :: 0 <= i < |r| ==> r[i] == values[IndexOf(names, args[i])]
  {
    seq(|args|, i requires 0 <= i < |args| => values[IndexOf(names, args[i])])
  }

  predicate DistinctParams(params: seq<Param>) {
    forall i, j :: 0 <= i < j < |params| ==> params[i].name != params[j].name
  }

  /** Mentioning all parameters in order picks everything in order. */
  lemma PickedAll<T>(params: seq<Param>, values: seq<T>)
    requires |values| == |params| && DistinctParams(params)
    ensures Picked(NamesOf(params), NamesOf(params), values) == values
  {
    var names := NamesOf(params);
    forall i | 0 <= i < |names|
      ensures values[IndexOf(names, names[i])] == values[i]
    {
      var j := IndexOf(names, names[i]);
      assert params[i].name == params[j].name;
    }
  }

  // ----- what a compiler accepts -----

  /**
   Designated initialisers: they must name members in the order of their declaration, and members
   may be left out.
   */
  function Initialised(members: seq<(string, seq<Param>)>, inits: seq<(string, Value)>): Option<seq<(string, Value)>> {
    if inits == [] then Some([])
    else if members == [] then None
    else if members[0].0 != inits[0].0 then Initialised(members[1..], inits)
    else
      match Initialised(members[1..], inits[1..])
      case None => None
      case Some(rest) => Some([inits[0]] + rest)
  }

  /** One initialiser for each member, in order, is accepted as it stands. */
  lemma {:induction false} InitialisesInOrder(members: seq<(string, seq<Param>)>, inits: seq<(string, Value)>)
    requires |inits| == |members| && forall i :: 0 <= i < |members| ==> inits[i].0 == members[i].0
    ensures Initialised(members, inits) == Some(inits)
    decreases |members|
  {
    if inits != [] {
      InitialisesInOrder(members[1..], inits[1..]);
      assert [inits[0]] + inits[1..] == inits;
    }
  }

  predicate TracepointCompiles(t: Tracepoint) {
    DistinctParams(t.params) && forall i :: 0 <= i < |t.lines| ==> t.lines[i].source in NamesOf(t.params)
  }

  /** A trampoline has different parameters, and raises a tracepoint that takes what it passes. */
  predicate TrampolineCompiles(tracepoints: seq<(string, Tracepoint)>, t: Trampoline) {
    && DistinctParams(t.params) && AllIn(t.args, NamesOf(t.params))
    && var definition := Lookup(tracepoints, t.event);
       && definition.Some?
       && TypesOf(definition.value.params) == Picked(NamesOf(t.params), t.args, TypesOf(t.params))
  }

  /** A member that is set to a function has that function's type. */
  predicate InitCompiles(p: Program, init: (string, Value)) {
    init.1.Pfn? ==>
      var t, member := Lookup(p.trampolines, init.1.target), Lookup(p.members, init.0);
      t.Some? && member.Some? && TypesOf(t.value.params) == TypesOf(member.value)
  }

  predicate Unambiguous(p: Program) {
    && DistinctKeys(p.tracepoints) && DistinctKeys(p.members) && DistinctKeys(p.trampolines)
    && DistinctKeys(p.handlers) && DistinctKeys(p.cases)
  }

  /** All the generated files together. */
  predicate Compiles(p: Program) {
    && Unambiguous(p)
    && Initialised(p.members, p.inits).Some?
    && (forall i :: 0 <= i < |p.tracepoints| ==> TracepointCompiles(p.tracepoints[i].1))
    && (forall i :: 0 <= i < |p.members| ==> DistinctParams(p.members[i].1))
    && (forall i :: 0 <= i < |p.trampolines| ==> TrampolineCompiles(p.tracepoints, p.trampolines[i].1))
    && (forall i :: 0 <= i < |p.inits| ==> InitCompiles(p, p.inits[i]))
    && (forall i :: 0 <= i < |p.handlers| ==> DistinctStrings(Declared(p.handlers[i].1)))
  }

  // ----- what it does -----

  /** The members that hold a function, with the types of its parameters. */
  function Functions(members: seq<(string, seq<Param>)>, values: seq<(string, Value)>): map<string, seq<string>> {
    map name | name in Keys(members) && HasPfn(values, name) && Lookup(members, name).Some?
      :: TypesOf(Lookup(members, name).value)
  }

  function Keys<T>(pairs: seq<(string, T)>): set<string> {
    set i | 0 <= i < |pairs| :: pairs[i].0
  }

  predicate HasPfn(values: seq<(string, Value)>, name: string) {
    Lookup(values, name).Some? && Lookup(values, name).value.Pfn?
  }

  /** A call of a trampoline: the tracepoint it raises, with the values of its arguments. */
  function Forward(t: Trampoline, contents: seq<Content>): Option<(string, seq<Content>)> {
    if |contents| != |t.params| || !DistinctParams(t.params) || !AllIn(t.args, NamesOf(t.params)) then None
    else Some((t.event, Picked(NamesOf(t.params), t.args, contents)))
  }

  /** What a line records of a value: undefined for an unguarded null text and for too short a block. */
  function Kept(line: Ctf, c: Content): Option<Content> {
    if line.macro == "ctf_string" then
      if c.Narrow? then Some(c) else if c.Null? && line.guarded then Some(Narrow("")) else None
    else if line.macro == "ctf_array_hex" then
      if c.Block? && 0 <= line.length <= |c.bytes| then Some(Block(c.bytes[..line.length])) else None
    else Some(c)
  }

  function KeptAll(lines: seq<Ctf>, values: seq<Content>): Option<seq<(string, Content)>>
    requires |values| == |lines|
  {
    if lines == [] then Some([])
    else
      var first, rest := Kept(lines[0], values[0]), KeptAll(lines[1..], values[1..]);
      if first.None? || rest.None? then None else Some([(lines[0].name, first.value)] + rest.value)
  }

  function SourcesOf(lines: seq<Ctf>): (r: seq<string>)
    ensures |r| == |lines| && forall i :: 0 <= i < |r| ==> r[i] == lines[i].source
  {
    seq(|lines|, i requires 0 <= i < |lines| => lines[i].source)
  }

  /** A raised tracepoint: the recorded fields, each by name with its value. */
  function Recorded(t: Tracepoint, contents: seq<Content>): Option<seq<(string, Content)>> {
    if |contents| != |t.params| || !AllIn(SourcesOf(t.lines), NamesOf(t.params)) then None
    else KeptAll(t.lines, Picked(NamesOf(t.params), SourcesOf(t.lines), contents))
  }

  datatype Record = Record(event: string, fields: seq<(string, Content)>)

  /**
   The engine raises an event: the switch picks a handler, the handler calls through the table, the
   trampoline raises a tracepoint, and its lines record it. None if the files do not compile or the
   run is undefined.
   */
  function Raise(p: Program, utf8: (Content, nat) -> string, show: (string, Content) -> string,
                 guid: string, va: seq<Operand>): Option<Record> {
    if !Compiles(p) then None
    else
      var values := Initialised(p.members, p.inits).value;
      var handler := Lookup(p.cases, guid);
      if handler.None? then None
      else
        var stmts := Lookup(p.handlers, handler.value);
        if stmts.None? then None
        else
          var w := World(utf8, show, Functions(p.members, values));
          var end := ExecAll(w, Start(va), stmts.value);
          if end.None? || |end.value.calls| != 1 then None
          else Through(p, values, end.value.calls[0])
  }

  /** A call through the table. */
  function Through(p: Program, values: seq<(string, Value)>, call: Invocation): Option<Record> {
    var value := Lookup(values, call.member);
    if value.None? || !value.value.Pfn? then None
    else
      var t := Lookup(p.trampolines, value.value.target);
      if t.None? then None
      else
        var raised := Forward(t.value, call.contents);
        if raised.None? then None else Written(p, raised.value.0, raised.value.1)
  }

  function Written(p: Program, event: string, contents: seq<Content>): Option<Record> {
    var definition := Lookup(p.tracepoints, event);
    if definition.None? then None
    else
      var fields := Recorded(definition.value, contents);
      if fields.None? then None else Some(Record(event, fields.value))
  }

  // ----- names of generated things -----

  predicate DistinctEvents(events: seq<TraceEvent>) {
    forall i, j :: 0 <= i < j < |events| ==> events[i].name != events[j].name
  }

  lemma Injective(prefix: string, a: string, b: string)
    requires a != b
    ensures prefix + a != prefix + b
  {
    assert (prefix + a)[|prefix|..] == a && (prefix + b)[|prefix|..] == b;
  }

  /** Two things of the same prefixed name are generated exactly when two events have the same name. */
  lemma {:induction false} PrefixedKeys<T>(prefix: string, events: seq<TraceEvent>, pairs: seq<(string, T)>)
    requires |pairs| == |events| && forall i :: 0 <= i < |events| ==> pairs[i].0 == prefix + events[i].name
    ensures DistinctKeys(pairs) <==> DistinctEvents(events)
  {
    if DistinctEvents(events) {
      forall i, j | 0 <= i < j < |pairs|
        ensures pairs[i].0 != pairs[j].0
      {
        Injective(prefix, events[i].name, events[j].name);
      }
    }
    if DistinctKeys(pairs) {
      forall i, j | 0 <= i < j < |events|
        ensures events[i].name != events[j].name
      {
        assert pairs[i].0 != pairs[j].0;
      }
    }
  }

  /** The three data members do not clash with any function member. */
  lemma MembersDistinct<T>(data: seq<(string, T)>, events: seq<TraceEvent>, pairs: seq<(string, T)>)
    requires |data| == 3 && data[0].0 == "version" && data[1].0 == "eventCount" && data[2].0 == "eventEnabledState"
    requires |pairs| == |events| && forall i :: 0 <= i < |events| ==> pairs[i].0 == "pfn_" + events[i].name
    ensures DistinctKeys(data + pairs) <==> DistinctEvents(events)
  {
    PrefixedKeys("pfn_", events, pairs);
    assert DistinctKeys(data) by {
      assert data[0].0[0] == 'v' && data[1].0[0] == 'e' && data[2].0[0] == 'e';
      assert data[1].0[5] == 'C' && data[2].0[5] == 'E';
    }
    forall i, j | 0 <= i < 3 && 0 <= j < |pairs|
      ensures data[i].0 != pairs[j].0
    {
      assert data[i].0[0] != 'p' && pairs[j].0[0] == 'p';
    }
    DistinctConcat(data, pairs);
  }

  lemma DistinctConcat<T>(a: seq<(string, T)>, b: seq<(string, T)>)
    requires DistinctKeys(a) && forall i, j :: 0 <= i < |a| && 0 <= j < |b| ==> a[i].0 != b[j].0
    ensures DistinctKeys(a + b) <==> DistinctKeys(b)
  {
    if DistinctKeys(a + b) {
      forall i, j | 0 <= i < j < |b|
        ensures b[i].0 != b[j].0
      {
        assert (a + b)[|a| + i].0 != (a + b)[|a| + j].0;
      }
    }
  }

  /** The generated names are pairwise different exactly when the event names are. */
  lemma GeneratedIsUnambiguous(events: seq<TraceEvent>)
    ensures Unambiguous(Generated(events)) <==> DistinctEvents(events)
  {
    hide Signature, TracepointOf, TrampolineOf, Handler, DistinctKeys, DistinctEvents;
    MembersDistinct(DATA_MEMBERS, events, Pfns(events));
    assert forall i :: 0 <= i < |events| ==> "" + events[i].name == events[i].name;
    PrefixedKeys("", events, Tracepoints(events));
    PrefixedKeys("EseTracepoint_", events, Trampolines(events));
    PrefixedKeys("EseTpDispatchHandler_", events, Handlers(events));
    PrefixedKeys("_etguid", events, Cases(events));
  }

  /** The provider initialises the members in exactly the order in which the struct declares them. */
  lemma ProviderMatchesTable(events: seq<TraceEvent>)
    ensures var p := Generated(events); Initialised(p.members, p.inits) == Some(p.inits)
  {
    hide Signature, Initialised;
    InitialisesInOrder(Generated(events).members, Generated(events).inits);
  }

  /** Each event's member holds that event's trampoline and has that event's signature. */
  lemma TableHolds(events: seq<TraceEvent>, k: nat)
    requires k < |events| && DistinctEvents(events)
    ensures var p := Generated(events);
            && Lookup(p.members, "pfn_" + events[k].name) == Some(Signature(events[k]))
            && Lookup(p.inits, "pfn_" + events[k].name) == Some(Pfn("EseTracepoint_" + events[k].name))
            && "pfn_" + events[k].name in Functions(p.members, p.inits)
            && Functions(p.members, p.inits)["pfn_" + events[k].name] == TypesOf(Signature(events[k]))
  {
    hide Signature, TypesOf, DistinctEvents, Lookup, Functions, Pfns, PfnInits, DataInits;
    MemberHolds(events, k);
    InitHolds(events, k);
    FunctionsHas(DATA_MEMBERS + Pfns(events), DataInits(events) + PfnInits(events), 3 + k);
  }

  lemma MemberHolds(events: seq<TraceEvent>, k: nat)
    requires k < |events| && DistinctEvents(events)
    ensures var members := DATA_MEMBERS + Pfns(events);
            && members[3 + k] == ("pfn_" + events[k].name, Signature(events[k]))
            && Lookup(members, "pfn_" + events[k].name) == Some(Signature(events[k]))
  {
    hide Signature, DistinctKeys, DistinctEvents, Lookup;
    MembersDistinct(DATA_MEMBERS, events, Pfns(events));
    LookupFinds(DATA_MEMBERS + Pfns(events), 3 + k);
  }

  lemma InitHolds(events: seq<TraceEvent>, k: nat)
    requires k < |events| && DistinctEvents(events)
    ensures Lookup(DataInits(events) + PfnInits(events), "pfn_" + events[k].name) == Some(Pfn("EseTracepoint_" + events[k].name))
  {
    hide DistinctKeys, DistinctEvents, Lookup;
    var inits := DataInits(events) + PfnInits(events);
    MembersDistinct(DataInits(events), events, PfnInits(events));
    assert inits[3 + k] == PfnInits(events)[k];
    LookupFinds(inits, 3 + k);
  }

  lemma FunctionsHas(members: seq<(string, seq<Param>)>, values: seq<(string, Value)>, k: nat)
    requires k < |members|
    requires Lookup(members, members[k].0) == Some(members[k].1) && HasPfn(values, members[k].0)
    ensures members[k].0 in Functions(members, values)
    ensures Functions(members, values)[members[k].0] == TypesOf(members[k].1)
  {
    hide Lookup, TypesOf, HasPfn;
    assert members[k].0 in Keys(members);
  }

  /** The number of an event runs the handler of that event; its name finds its trampoline and its tracepoint. */
  lemma SwitchSelects(events: seq<TraceEvent>, k: nat)
    requires k < |events| && DistinctEvents(events)
    ensures var p := Generated(events);
            var handler := Lookup(p.cases, "_etguid" + events[k].name);
            && handler == Some("EseTpDispatchHandler_" + events[k].name)
            && Lookup(p.handlers, handler.value) == Some(Handler(events[k]))
    ensures Lookup(Generated(events).trampolines, "EseTracepoint_" + events[k].name) == Some(TrampolineOf(events[k]))
    ensures Lookup(Generated(events).tracepoints, events[k].name) == Some(TracepointOf(events[k]))
  {
    hide Handler, TrampolineOf, TracepointOf, DistinctKeys, DistinctEvents, Lookup;
    GeneratedIsUnambiguous(events);
    LookupFinds(Cases(events), k);
    LookupFinds(Handlers(events), k);
    LookupFinds(Trampolines(events), k);
    LookupFinds(Tracepoints(events), k);
  }

  // ----- when the files compile -----

  predicate ParamsApart(ev: TraceEvent) {
    && DistinctNames(TypedFields(ev))
    && (HasOverflow(ev) ==> forall f :: f in TypedFields(ev) ==> f.name != "overflow")
  }

  lemma ApartIffDistinct(ev: TraceEvent)
    ensures ParamsApart(ev) <==> DistinctParams(Signature(ev))
  {
    hide ParamType;
    var typed, params := TypedFields(ev), Signature(ev);
    assert forall i :: 0 <= i < |typed| ==> params[i].name == typed[i].name;
    if DistinctParams(params) {
      forall f | HasOverflow(ev) && f in typed
        ensures f.name != "overflow"
      {
        var i :| 0 <= i < |typed| && typed[i] == f;
        assert params[i].name != params[|typed|].name;
      }
    }
  }

  /** What can be checked before generating: no two events, fields of an event or parameters share a name. */
  predicate Buildable(events: seq<TraceEvent>) {
    DistinctEvents(events) && forall j :: 0 <= j < |events| ==> DistinctNames(events[j].fields) && ParamsApart(events[j])
  }

  lemma PartsCompile(events: seq<TraceEvent>, j: nat)
    requires j < |events| && DistinctEvents(events) && ParamsApart(events[j])
    ensures TracepointCompiles(TracepointOf(events[j]))
    ensures TrampolineCompiles(Generated(events).tracepoints, TrampolineOf(events[j]))
    ensures InitCompiles(Generated(events), ("pfn_" + events[j].name, Pfn("EseTracepoint_" + events[j].name)))
  {
    hide ParamsApart, Generated, Lookup, DistinctEvents, Signature, CtfLines, Records, Picked;
    var ev := events[j];
    ApartIffDistinct(ev);
    SwitchSelects(events, j);
    TableHolds(events, j);
    PickedAll(Signature(ev), TypesOf(Signature(ev)));
    forall i | 0 <= i < |CtfLines(ev)|
      ensures CtfLines(ev)[i].source in NamesOf(Signature(ev))
    {
      LineReads(ev, i);
    }
  }

  lemma LineReads(ev: TraceEvent, i: nat)
    requires i < |CtfLines(ev)|
    ensures CtfLines(ev)[i].source == Signature(ev)[i].name && CtfLines(ev)[i].name == Signature(ev)[i].name
  {
    hide Signature, CtfLines;
    LinesRecord(ev, i);
  }

  /** The generated files compile if and only if the names that the input gives do not collide. */
  lemma CompilesIffBuildable(events: seq<TraceEvent>)
    ensures Compiles(Generated(events)) <==> Buildable(events)
  {
    hide Signature, Handler, TracepointOf, TrampolineOf, DistinctNames, ParamsApart, DistinctEvents, Unambiguous, Initialised,
         TracepointCompiles, TrampolineCompiles, InitCompiles, DistinctParams, Declared, DistinctStrings;
    var p := Generated(events);
    GeneratedIsUnambiguous(events);
    ProviderMatchesTable(events);
    if Compiles(p) {
      forall j | 0 <= j < |events|
        ensures DistinctNames(events[j].fields) && ParamsApart(events[j])
      {
        ApartIffDistinct(events[j]);
        HandlerDeclares(events[j]);
        assert p.members[3 + j] == Pfns(events)[j];
        assert p.handlers[j].1 == Handler(events[j]);
      }
    }
    if Buildable(events) {
      forall j | 0 <= j < |events|
        ensures TracepointCompiles(p.tracepoints[j].1) && TrampolineCompiles(p.tracepoints, p.trampolines[j].1)
        ensures InitCompiles(p, PfnInits(events)[j])
        ensures DistinctParams(Pfns(events)[j].1) && DistinctStrings(Declared(p.handlers[j].1))
      {
        ApartIffDistinct(events[j]);
        HandlerDeclares(events[j]);
        PartsCompile(events, j);
      }
      MembersCompile(events);
      InitsCompile(events);
    }
  }

  lemma MembersCompile(events: seq<TraceEvent>)
    requires forall j :: 0 <= j < |events| ==> DistinctParams(Pfns(events)[j].1)
    ensures forall i :: 0 <= i < |Generated(events).members| ==> DistinctParams(Generated(events).members[i].1)
  {
    hide Signature, Pfns;
    var members := Generated(events).members;
    forall i | 0 <= i < |members|
      ensures DistinctParams(members[i].1)
    {
      if i >= 3 {
        assert members[i] == Pfns(events)[i - 3];
      }
    }
  }

  lemma InitsCompile(events: seq<TraceEvent>)
    requires forall j :: 0 <= j < |events| ==> InitCompiles(Generated(events), PfnInits(events)[j])
    ensures forall i :: 0 <= i < |Generated(events).inits| ==> InitCompiles(Generated(events), Generated(events).inits[i])
  {
    hide PfnInits, Lookup;
    var inits := Generated(events).inits;
    forall i | 0 <= i < |inits|
      ensures InitCompiles(Generated(events), inits[i])
    {
      if i >= 3 {
        assert inits[i] == PfnInits(events)[i - 3];
      } else {
        assert !inits[i].1.Pfn?;
      }
    }
  }

  // ----- the whole way -----

  /** A trampoline passes everything on, in order, exactly when its parameters have different names. */
  lemma TrampolineForwards(ev: TraceEvent, contents: seq<Content>)
    requires |contents| == |Signature(ev)|
    ensures Forward(TrampolineOf(ev), contents) == if ParamsApart(ev) then Some((ev.name, contents)) else None
  {
    hide Signature, ParamsApart, DistinctParams;
    ApartIffDistinct(ev);
    if ParamsApart(ev) {
      PickedAll(Signature(ev), contents);
    }
  }

  function ByteLength(f: TraceField): int {
    if f.inType.Guid? then 16 else f.binaryLength
  }

  /** Every typed blob has as many bytes as are recorded of it. */
  predicate BlobsPresent(ev: TraceEvent, va: seq<Operand>)
    requires AllPassed(ev.fields, va)
  {
    forall i :: 0 <= i < |TypedFields(ev)| && IsBlob(ev.fields[i]) ==>
      va[i].content.Block? && 0 <= ByteLength(ev.fields[i]) <= |va[i].content.bytes|
  }

  /** What is to be recorded of a field: a null text as an empty one, a blob up to its length. */
  function RecordedAs(w: World, f: TraceField, arg: Operand): Content
    requires PassedAs(f, arg)
  {
    if f.inType.AnsiString? && arg.content.Null? then Narrow("")
    else if IsBlob(f) && arg.content.Block? && 0 <= ByteLength(f) <= |arg.content.bytes| then
      Block(arg.content.bytes[..ByteLength(f)])
    else Delivered(w, f, arg)
  }

  /** What is to be recorded of an event: each typed field by name, then the overflow text. */
  function RecordOf(w: World, ev: TraceEvent, va: seq<Operand>): (r: seq<(string, Content)>)
    requires AllPassed(ev.fields, va)
    ensures |r| == |Signature(ev)|
    ensures forall i :: 0 <= i < |TypedFields(ev)| ==> r[i] == (ev.fields[i].name, RecordedAs(w, ev.fields[i], va[i]))
    ensures HasOverflow(ev) ==> r[|r| - 1] == ("overflow", Arguments(w, ev, va)[|TypedFields(ev)|])
  {
    var n := |TypedFields(ev)|;
    seq(n, i requires 0 <= i < n => (ev.fields[i].name, RecordedAs(w, ev.fields[i], va[i])))
    + if HasOverflow(ev) then [("overflow", Arguments(w, ev, va)[n])] else []
  }

  lemma ArgumentCount(w: World, ev: TraceEvent, va: seq<Operand>)
    requires AllPassed(ev.fields, va)
    ensures |Arguments(w, ev, va)| == |Signature(ev)|
    ensures forall i :: 0 <= i < |TypedFields(ev)| ==> Arguments(w, ev, va)[i] == Delivered(w, ev.fields[i], va[i])
    ensures HasOverflow(ev) ==> Arguments(w, ev, va)[|TypedFields(ev)|].Narrow?
  {
    hide ParamType, OverflowText, Cut, Delivered;
  }

  /** One line keeps its field, or is undefined for a missing or too short blob. */
  lemma FieldKept(w: World, f: TraceField, arg: Operand)
    requires PassedAs(f, arg)
    ensures var enough := IsBlob(f) ==> arg.content.Block? && 0 <= ByteLength(f) <= |arg.content.bytes|;
            Kept(CtfMacro(f), Delivered(w, f, arg)) == if enough then Some(RecordedAs(w, f, arg)) else None
  {
    hide VaArgType;
  }

  /** Keeping all values is keeping each. */
  lemma {:induction false} KeptEach(lines: seq<Ctf>, values: seq<Content>, kept: seq<(string, Content)>)
    requires |values| == |lines| == |kept|
    requires forall i :: 0 <= i < |lines| ==> kept[i].0 == lines[i].name
    ensures (forall i :: 0 <= i < |lines| ==> Kept(lines[i], values[i]) == Some(kept[i].1)) ==> KeptAll(lines, values) == Some(kept)
    decreases |lines|
  {
    hide Kept;
    if lines != [] {
      KeptEach(lines[1..], values[1..], kept[1..]);
      assert [kept[0]] + kept[1..] == kept;
    }
  }

  lemma {:induction false} KeptFails(lines: seq<Ctf>, values: seq<Content>, i: nat)
    requires |values| == |lines| && i < |lines| && Kept(lines[i], values[i]).None?
    ensures KeptAll(lines, values).None?
    decreases |lines|
  {
    if i > 0 {
      KeptFails(lines[1..], values[1..], i - 1);
    }
  }

  /** The lines of a tracepoint record every argument by name, exactly when no blob is missing or short. */
  lemma TracepointRecords(w: World, ev: TraceEvent, va: seq<Operand>)
    requires AllPassed(ev.fields, va) && ParamsApart(ev)
    ensures Recorded(TracepointOf(ev), Arguments(w, ev, va)) ==
            if BlobsPresent(ev, va) then Some(RecordOf(w, ev, va)) else None
  {
    hide Signature, ParamsApart, DistinctParams, Arguments, KeptAll, Delivered, RecordedAs, PassedAs, Picked;
    var lines, values := CtfLines(ev), Arguments(w, ev, va);
    ArgumentCount(w, ev, va);
    ApartIffDistinct(ev);
    PickedAll(Signature(ev), values);
    forall i | 0 <= i < |lines|
      ensures lines[i].source == Signature(ev)[i].name && lines[i].name == Signature(ev)[i].name
    {
      LineReads(ev, i);
    }
    assert SourcesOf(lines) == NamesOf(Signature(ev));
    LinesKeep(w, ev, va);
  }

  lemma LinesKeep(w: World, ev: TraceEvent, va: seq<Operand>)
    requires AllPassed(ev.fields, va)
    ensures |Arguments(w, ev, va)| == |CtfLines(ev)|
    ensures KeptAll(CtfLines(ev), Arguments(w, ev, va)) == if BlobsPresent(ev, va) then Some(RecordOf(w, ev, va)) else None
  {
    hide Arguments, KeptAll, Delivered, RecordedAs, PassedAs, CtfMacro, Kept, ByteLength;
    var lines, values, kept, n := CtfLines(ev), Arguments(w, ev, va), RecordOf(w, ev, va), |TypedFields(ev)|;
    ArgumentCount(w, ev, va);
    forall i | 0 <= i < n
      ensures lines[i].name == kept[i].0
    {
      LineReads(ev, i);
    }
    if BlobsPresent(ev, va) {
      forall i | 0 <= i < |lines|
        ensures Kept(lines[i], values[i]) == Some(kept[i].1)
      {
        if i < n {
          FieldKept(w, ev.fields[i], va[i]);
        } else {
          OverflowKept(values[i]);
        }
      }
      KeptEach(lines, values, kept);
    } else {
      var i :| 0 <= i < n && IsBlob(ev.fields[i]) &&
        !(va[i].content.Block? && 0 <= ByteLength(ev.fields[i]) <= |va[i].content.bytes|);
      FieldKept(w, ev.fields[i], va[i]);
      KeptFails(lines, values, i);
    }
  }

  lemma OverflowKept(c: Content)
    requires c.Narrow?
    ensures Kept(CTF_OVERFLOW, c) == Some(c)
  {
  }

  /**
   For every event list, every event in it and all arguments the engine can pass for it: the
   generated program records that very event, once, with every typed field in declared order under
   its own name and the overflow text. It does so if and only if no two events, fields of any one
   event or parameters share a name (otherwise the files do not compile), no overflow text is null
   and no typed blob is missing or short (otherwise the run is undefined). A field name is an
   identifier, so it has no `%`.
   */
  lemma EventIsRecorded(events: seq<TraceEvent>, k: nat, va: seq<Operand>,
                        utf8: (Content, nat) -> string, show: (string, Content) -> string)
    requires k < |events| && AllPassed(events[k].fields, va)
    requires forall f :: f in OverflowFields(events[k]) ==> '%' !in f.name
    ensures var w := World(utf8, show, Functions(Generated(events).members, Generated(events).inits));
            Raise(Generated(events), utf8, show, "_etguid" + events[k].name, va) ==
            if Buildable(events) && TextsPresent(events[k], va) && BlobsPresent(events[k], va)
            then Some(Record(events[k].name, RecordOf(w, events[k], va)))
            else None
  {
    hide Handler, TrampolineOf, TracepointOf, DistinctEvents, DistinctNames, ParamsApart, AllPassed, Lookup, Arguments,
         Functions, TypesOf, Forward, ExecAll, Initialised, Generated, Compiles, TextsPresent, BlobsPresent, RecordOf, Recorded;
    CompilesIffBuildable(events);
    if Buildable(events) {
      var ev, p := events[k], Generated(events);
      TableHolds(events, k);
      var w := World(utf8, show, Functions(p.members, p.inits));
      ProviderMatchesTable(events);
      SwitchSelects(events, k);
      HandlerRuns(w, ev, va);
      ArgumentCount(w, ev, va);
      TrampolineForwards(ev, Arguments(w, ev, va));
      TracepointRecords(w, ev, va);
    }
  }

  /** A repeated field of one event keeps another event, itself in order, from being recorded. */
  lemma OtherEventStopsAll(utf8: (Content, nat) -> string, show: (string, Content) -> string)
    ensures var x := TraceField("x", UInt8, 0);
            var a, b := TraceEvent("A", 1, "", "", false, [x, x]), TraceEvent("B", 2, "", "", false, []);
            && DistinctEvents([a, b]) && DistinctNames(b.fields) && ParamsApart(b)
            && Raise(Generated([a, b]), utf8, show, "_etguidB", []) == None
  {
    hide Raise, Generated, Functions, RecordOf;
    var x := TraceField("x", UInt8, 0);
    var a, b := TraceEvent("A", 1, "", "", false, [x, x]), TraceEvent("B", 2, "", "", false, []);
    var events := [a, b];
    assert !DistinctNames(events[0].fields) by {
      assert events[0].fields[0].name == events[0].fields[1].name;
    }
    assert "_etguid" + events[1].name == "_etguidB";
    EventIsRecorded(events, 1, [], utf8, show);
  }

  // ----- the gate before an event is raised -----

  const STATE_PREFIX := "&lttng_ust_tracepoint_ese___"
  const STATE_SUFFIX := ".state"

  /** The tracepoint whose enable state an entry points to. */
  function StateOwner(entry: string): Option<string> {
    var rest := if STATE_PREFIX <= entry then entry[|STATE_PREFIX|..] else "";
    if |rest| >= |STATE_SUFFIX| && rest[|rest| - |STATE_SUFFIX|..] == STATE_SUFFIX then Some(rest[..|rest| - |STATE_SUFFIX|]) else None
  }

  /** `PosixTraceEnabled`: past the count an event is off; else its entry decides. None if it reads past the array. */
  function Gate(p: Program, enabled: string -> bool, etguid: nat): Option<bool> {
    var count := Lookup(p.inits, "eventCount");
    if count.None? || !count.value.Count? then None
    else if etguid >= count.value.count then Some(false)
    else if etguid >= |p.states| || StateOwner(p.states[etguid]).None? then None
    else Some(enabled(StateOwner(p.states[etguid]).value))
  }

  /** The engine's gate lets an event pass exactly when its number is that of an event whose own tracepoint is enabled. */
  lemma GateAsksItsOwn(events: seq<TraceEvent>, enabled: string -> bool, etguid: nat)
    ensures Gate(Generated(events), enabled, etguid) == Some(etguid < |events| && enabled(events[etguid].name))
  {
    CountFound(events);
    if etguid < |events| {
      OwnerRead(events[etguid].name);
    }
  }

  lemma CountFound(events: seq<TraceEvent>)
    ensures Lookup(Generated(events).inits, "eventCount") == Some(Count(|events|))
  {
    hide PfnInits;
    var inits := Generated(events).inits;
    assert inits[0].0 == "version" && inits[0].0[0] == 'v' && "eventCount"[0] == 'e';
    assert inits[1..][0] == ("eventCount", Count(|events|));
    assert Lookup(inits, "eventCount") == Lookup(inits[1..], "eventCount");
  }

  lemma OwnerRead(name: string)
    ensures StateOwner("&lttng_ust_tracepoint_ese___" + name + ".state") == Some(name)
  {
    var entry := "&lttng_ust_tracepoint_ese___" + name + ".state";
    assert entry[..|STATE_PREFIX|] == STATE_PREFIX;
    assert entry[|STATE_PREFIX|..] == name + ".state";
    assert (name + ".state")[|name|..] == ".state" && (name + ".state")[..|name|] == name;
  }
}
