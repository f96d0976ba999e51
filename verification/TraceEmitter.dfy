/**
 The tracepoint generator's emit loops (tools/etwlttng/Emitter.cs), at the level of C tokens and
 statements: four artefacts are written by independent loops, and each is read back with a small
 reader of C lists to show that they agree with one signature per event.
 */
module TraceEmitter {
  import opened TraceModel
  import opened Wrappers

  datatype Tok = Word(text: string) | Comma | Open | Close | Semicolon

  /** A parameter of an event's function: its type and its name. */
  datatype Param = Param(ctype: string, name: string)

  const OVERFLOW := Param("const char*", "overflow")

  /** The one signature that all artefacts of an event must have. */
  function Signature(ev: TraceEvent): seq<Param> {
    ParamsOf(TypedFields(ev)) + if HasOverflow(ev) then [OVERFLOW] else []
  }

  function ParamsOf(fields: seq<TraceField>): (r: seq<Param>)
    ensures |r| == |fields| && forall i :: 0 <= i < |r| ==> r[i] == Param(ParamType(fields[i]), fields[i].name)
  {
    seq(|fields|, i requires 0 <= i < |fields| => Param(ParamType(fields[i]), fields[i].name))
  }

  lemma SignatureFits(ev: TraceEvent)
    ensures |Signature(ev)| <= 10
    ensures Signature(ev) == [] <==> TypedFields(ev) == [] && !HasOverflow(ev)
  {
  }

  // ----- comma-separated lists -----

  /** The items, each followed by a comma. */
  function Each(items: seq<seq<Tok>>): seq<Tok> {
    if items == [] then [] else Each(items[..|items| - 1]) + (items[|items| - 1] + [Comma])
  }

  /** A non-empty list: commas between the items, then the closing. */
  function Listed(items: seq<seq<Tok>>): seq<Tok>
    requires items != []
  {
    Each(items[..|items| - 1]) + (items[|items| - 1] + [Close])
  }

  function PairItems(params: seq<Param>): (r: seq<seq<Tok>>)
    ensures |r| == |params| && forall i :: 0 <= i < |r| ==> r[i] == [Word(params[i].ctype), Comma, Word(params[i].name)]
  {
    seq(|params|, i requires 0 <= i < |params| => [Word(params[i].ctype), Comma, Word(params[i].name)])
  }

  function ParamItems(params: seq<Param>): (r: seq<seq<Tok>>)
    ensures |r| == |params| && forall i :: 0 <= i < |r| ==> r[i] == [Word(params[i].ctype), Word(params[i].name)]
  {
    seq(|params|, i requires 0 <= i < |params| => [Word(params[i].ctype), Word(params[i].name)])
  }

  function WordItems(words: seq<string>): (r: seq<seq<Tok>>)
    ensures |r| == |words| && forall i :: 0 <= i < |r| ==> r[i] == [Word(words[i])]
  {
    seq(|words|, i requires 0 <= i < |words| => [Word(words[i])])
  }

  // ----- the emit loops -----

  /** `TP_ARGS(` type, name pairs `)`, of `EmitOneTracepoint`, after the opening. */
  method EmitTpArgs(ev: TraceEvent) returns (toks: seq<Tok>)
    ensures ReadPairs(toks) == Some((Signature(ev), []))
  {
    hide ParamType, ReadPairs, Each, Listed;
    var typed, hasOverflow := TypedFields(ev), HasOverflow(ev);
    ghost var items := PairItems(Signature(ev));
    assert Each(items[..0]) == [] by { EachNone(items); }
    toks := [];
    if |typed| == 0 && !hasOverflow {
      toks := toks + [Close];
    } else {
      for i := 0 to |typed|
        invariant !hasOverflow && i == |typed| ==> toks + [Close] == Listed(items)
        invariant hasOverflow || i < |typed| ==> toks == Each(items[..i])
      {
        EmitStep(items, i, toks);
        toks := toks + [Word(ParamType(typed[i])), Comma, Word(typed[i].name)];
        var last := !hasOverflow && i + 1 == |typed|;
        toks := toks + if last then [] else [Comma];
      }
      if hasOverflow {
        EmitStep(items, |typed|, toks);
        toks := toks + [Word("const char*"), Comma, Word("overflow")];
      }
      toks := toks + [Close];
    }
    assert toks == Enclosed(items) + [];
    ReadPairsBack(Signature(ev), []);
  }

  /**
   A `ctf_*` line: the field it writes, the parameter it reads, whether a null one is replaced by an
   empty text, and for an array how many bytes.
   */
  datatype Ctf = Ctf(macro: string, element: string, name: string, source: string, guarded: bool, length: int)

  function CtfMacro(f: TraceField): Ctf {
    match f.inType
    case Double => Ctf("ctf_float", "double", f.name, f.name, false, 0)
    case Pointer => Ctf("ctf_integer_hex", "uintptr_t", f.name, f.name, false, 0)
    case UnicodeString => Ctf("ctf_string", "char", f.name, f.name, true, 0)
    case AnsiString => Ctf("ctf_string", "char", f.name, f.name, true, 0)
    case Guid => Ctf("ctf_array_hex", "uint8_t", f.name, f.name, false, 16)
    case Binary => Ctf("ctf_array_hex", "uint8_t", f.name, f.name, false, f.binaryLength)
    case _ => Ctf("ctf_integer", ScalarCType(f.inType), f.name, f.name, false, 0)
  }

  const CTF_OVERFLOW := Ctf("ctf_string", "char", "overflow", "overflow", true, 0)

  function CtfLines(ev: TraceEvent): (r: seq<Ctf>)
    ensures |r| == |Signature(ev)|
    ensures forall i :: 0 <= i < |TypedFields(ev)| ==> r[i] == CtfMacro(TypedFields(ev)[i])
  {
    var typed := TypedFields(ev);
    seq(|typed|, i requires 0 <= i < |typed| => CtfMacro(typed[i])) + if HasOverflow(ev) then [CTF_OVERFLOW] else []
  }

  /** A `ctf_*` line records a parameter: it reads that parameter, as the type it has, and guards a text. */
  predicate Records(c: Ctf, p: Param) {
    && c.name == p.name && c.source == p.name
    && (if c.macro == "ctf_string" || c.macro == "ctf_array_hex" then p.ctype == "const " + c.element + "*"
        else p.ctype == c.element)
    && (c.macro == "ctf_float" <==> p.ctype == "double")
    && (c.macro == "ctf_integer_hex" <==> p.ctype == "uintptr_t")
    && (c.macro == "ctf_string" <==> p.ctype == "const char*")
    && (c.guarded <==> p.ctype == "const char*")
  }

  lemma CtfRecords(f: TraceField)
    ensures Records(CtfMacro(f), Param(ParamType(f), f.name))
  {
  }

  lemma OverflowRecords()
    ensures Records(CTF_OVERFLOW, OVERFLOW)
  {
  }

  /** `TP_FIELDS` of `EmitOneTracepoint`: every argument is recorded, in order, as its own type. */
  method EmitTpFields(ev: TraceEvent) returns (lines: seq<Ctf>)
    ensures lines == CtfLines(ev)
    ensures forall i :: 0 <= i < |lines| ==> Records(lines[i], Signature(ev)[i])
  {
    hide ParamType, CtfMacro, Records;
    var typed := TypedFields(ev);
    lines := [];
    for i := 0 to |typed|
      invariant |lines| == i && forall k :: 0 <= k < i ==> lines[k] == CtfMacro(typed[k])
      invariant forall k :: 0 <= k < i ==> Records(lines[k], Signature(ev)[k])
    {
      CtfRecords(typed[i]);
      lines := lines + [CtfMacro(typed[i])];
    }
    if HasOverflow(ev) {
      OverflowRecords();
      lines := lines + [CTF_OVERFLOW];
    }
  }

  lemma LinesRecord(ev: TraceEvent, i: nat)
    requires i < |CtfLines(ev)|
    ensures Records(CtfLines(ev)[i], Signature(ev)[i])
  {
    hide ParamType, CtfMacro, Records;
    if i < |TypedFields(ev)| {
      CtfRecords(TypedFields(ev)[i]);
    } else {
      OverflowRecords();
    }
  }

  lemma EachNone(items: seq<seq<Tok>>)
    ensures Each(items[..0]) == []
  {
  }

  /** One round of an emit loop: the item, then a comma, or what closes the list. */
  lemma EmitStep(items: seq<seq<Tok>>, i: nat, toks: seq<Tok>)
    requires i < |items| && toks == Each(items[..i])
    ensures toks + items[i] + [Comma] == Each(items[..i + 1])
    ensures i + 1 == |items| ==> toks + items[i] + [Close] == Listed(items)
    ensures i + 1 == |items| ==> toks + items[i] + [Close, Semicolon] == Listed(items) + [Semicolon]
  {
    assert items[..i + 1][..i] == items[..i];
    Regroup(toks, items[i], [Comma]);
    Regroup(toks, items[i], [Close]);
    assert [Close, Semicolon] == [Close] + [Semicolon];
  }

  /** The parameters of a trampoline, of `EmitTrampoline`, after the opening. */
  method EmitTrampolineParams(ev: TraceEvent) returns (toks: seq<Tok>)
    ensures ReadParams(toks) == Some((Signature(ev), []))
  {
    hide ParamType, ReadParams, Each, Listed;
    var typed, hasOverflow := TypedFields(ev), HasOverflow(ev);
    ghost var items := ParamItems(Signature(ev));
    assert Each(items[..0]) == [] by { EachNone(items); }
    toks := [];
    if |typed| == 0 && !hasOverflow {
      toks := toks + [Close];
    } else {
      for i := 0 to |typed|
        invariant !hasOverflow && i == |typed| ==> toks == Listed(items)
        invariant hasOverflow || i < |typed| ==> toks == Each(items[..i])
      {
        EmitStep(items, i, toks);
        var last := !hasOverflow && i + 1 == |typed|;
        toks := toks + [Word(ParamType(typed[i])), Word(typed[i].name)];
        toks := toks + if last then [Close] else [Comma];
      }
      if hasOverflow {
        EmitStep(items, |typed|, toks);
        toks := toks + [Word("const char*"), Word("overflow")] + [Close];
      }
    }
    assert toks == Enclosed(items) + [];
    ReadParamsBack(Signature(ev), []);
  }

  /** The arguments that a trampoline passes on, after `tracepoint(ese, <event>`. */
  method EmitTracepointCall(ev: TraceEvent) returns (toks: seq<Tok>)
    ensures ReadArgs(toks) == Some((NamesOf(Signature(ev)), [Semicolon]))
  {
    hide ParamType;
    var typed := TypedFields(ev);
    ghost var names := NamesOf(Signature(ev));
    toks := [];
    for i := 0 to |typed|
      invariant toks == Leading(names[..i])
    {
      toks := toks + [Comma, Word(typed[i].name)];
      LeadingSnoc(names, i);
    }
    if HasOverflow(ev) {
      toks := toks + [Comma, Word("overflow")];
      LeadingSnoc(names, |typed|);
    }
    assert names[..|names|] == names;
    toks := toks + [Close, Semicolon];
    ReadLeading(names, [Semicolon]);
    assert Leading(names) + ([Close] + [Semicolon]) == toks;
  }

  /** The parameters of a table member, of `EmitTableEntry`, after the opening. */
  method EmitTableParams(ev: TraceEvent) returns (toks: seq<Tok>)
    ensures ReadParams(toks) == Some((Signature(ev), [Semicolon]))
  {
    hide ParamType, ReadParams, Each, Listed;
    var typed, hasOverflow := TypedFields(ev), HasOverflow(ev);
    ghost var items := ParamItems(Signature(ev));
    assert Each(items[..0]) == [] by { EachNone(items); }
    ReadParamsBack(Signature(ev), [Semicolon]);
    toks := [];
    if |typed| == 0 && !hasOverflow {
      toks := toks + [Close, Semicolon];
      assert toks == Enclosed(items) + [Semicolon];
      return;
    }
    for i := 0 to |typed|
      invariant !hasOverflow && i == |typed| ==> toks == Listed(items) + [Semicolon]
      invariant hasOverflow || i < |typed| ==> toks == Each(items[..i])
    {
      EmitStep(items, i, toks);
      var last := !hasOverflow && i + 1 == |typed|;
      toks := toks + [Word(ParamType(typed[i])), Word(typed[i].name)];
      toks := toks + if last then [Close, Semicolon] else [Comma];
    }
    if hasOverflow {
      EmitStep(items, |typed|, toks);
      toks := toks + [Word("const char*"), Word("overflow")] + [Close, Semicolon];
    }
    assert toks == Enclosed(items) + [Semicolon];
  }

  /** What the dispatcher passes: the unpacked typed fields, then the overflow text. */
  function CallArgs(ev: TraceEvent): seq<string> {
    ArgNames(TypedFields(ev)) + if HasOverflow(ev) then ["overflow_buf"] else []
  }

  function ArgNames(fields: seq<TraceField>): (r: seq<string>)
    ensures |r| == |fields| && forall i :: 0 <= i < |r| ==> r[i] == "arg_" + fields[i].name
  {
    seq(|fields|, i requires 0 <= i < |fields| => "arg_" + fields[i].name)
  }

  /** The call of the table function, of `EmitDispatchHandler`, after the opening. */
  method EmitDispatchCall(ev: TraceEvent) returns (toks: seq<Tok>)
    ensures ReadList(toks) == Some((CallArgs(ev), [Semicolon]))
    ensures |CallArgs(ev)| == |Signature(ev)|
  {
    hide ReadList, Each, Listed;
    var typed, hasOverflow := TypedFields(ev), HasOverflow(ev);
    ghost var items := WordItems(CallArgs(ev));
    assert Each(items[..0]) == [] by { EachNone(items); }
    ReadWordsBack(CallArgs(ev), [Semicolon]);
    toks := [];
    if |typed| == 0 && !hasOverflow {
      toks := toks + [Close, Semicolon];
      assert toks == Enclosed(items) + [Semicolon];
      return;
    }
    for i := 0 to |typed|
      invariant !hasOverflow && i == |typed| ==> toks == Listed(items) + [Semicolon]
      invariant hasOverflow || i < |typed| ==> toks == Each(items[..i])
    {
      EmitStep(items, i, toks);
      var last := !hasOverflow && i + 1 == |typed|;
      toks := toks + [Word("arg_" + typed[i].name)];
      toks := toks + if last then [Close, Semicolon] else [Comma];
    }
    if hasOverflow {
      EmitStep(items, |typed|, toks);
      toks := toks + [Word("overflow_buf")] + [Close, Semicolon];
    }
    assert toks == Enclosed(items) + [Semicolon];
  }

  // ----- readers -----

  function NamesOf(params: seq<Param>): (r: seq<string>)
    ensures |r| == |params| && forall i :: 0 <= i < |r| ==> r[i] == params[i].name
  {
    seq(|params|, i requires 0 <= i < |params| => params[i].name)
  }

  /** A parameter list after its opening: empty, or `type name` with commas between. */
  function ReadParams(toks: seq<Tok>): Option<(seq<Param>, seq<Tok>)> {
    if toks != [] && toks[0].Close? then Some(([], toks[1..])) else ReadParamsFrom(toks)
  }

  function ReadParamsFrom(toks: seq<Tok>): Option<(seq<Param>, seq<Tok>)> {
    if |toks| < 3 || !toks[0].Word? || !toks[1].Word? then None
    else
      var param := Param(toks[0].text, toks[1].text);
      if toks[2].Close? then Some(([param], toks[3..]))
      else if toks[2].Comma? then
        match ReadParamsFrom(toks[3..])
        case None => None
        case Some((params, rest)) => Some(([param] + params, rest))
      else None
  }

  /** The arguments of `TP_ARGS` after the opening: empty, or `type, name` with commas between. */
  function ReadPairs(toks: seq<Tok>): Option<(seq<Param>, seq<Tok>)> {
    if toks != [] && toks[0].Close? then Some(([], toks[1..])) else ReadPairsFrom(toks)
  }

  function ReadPairsFrom(toks: seq<Tok>): Option<(seq<Param>, seq<Tok>)> {
    if |toks| < 4 || !toks[0].Word? || !toks[1].Comma? || !toks[2].Word? then None
    else
      var param := Param(toks[0].text, toks[2].text);
      if toks[3].Close? then Some(([param], toks[4..]))
      else if toks[3].Comma? then
        match ReadPairsFrom(toks[4..])
        case None => None
        case Some((params, rest)) => Some(([param] + params, rest))
      else None
  }

  /** An argument list after its opening. */
  function ReadList(toks: seq<Tok>): Option<(seq<string>, seq<Tok>)> {
    if toks != [] && toks[0].Close? then Some(([], toks[1..])) else ReadListFrom(toks)
  }

  function ReadListFrom(toks: seq<Tok>): Option<(seq<string>, seq<Tok>)> {
    if |toks| < 2 || !toks[0].Word? then None
    else if toks[1].Close? then Some(([toks[0].text], toks[2..]))
    else if toks[1].Comma? then
      match ReadListFrom(toks[2..])
      case None => None
      case Some((words, rest)) => Some(([toks[0].text] + words, rest))
    else None
  }

  /** The further arguments of a call: each after a comma, up to the closing. */
  function ReadArgs(toks: seq<Tok>): Option<(seq<string>, seq<Tok>)> {
    if toks == [] then None
    else if toks[0].Close? then Some(([], toks[1..]))
    else if |toks| >= 2 && toks[0].Comma? && toks[1].Word? then
      match ReadArgs(toks[2..])
      case None => None
      case Some((words, rest)) => Some(([toks[1].text] + words, rest))
    else None
  }

  /** The words, each after a comma. */
  function Leading(words: seq<string>): seq<Tok> {
    if words == [] then [] else [Comma, Word(words[0])] + Leading(words[1..])
  }

  lemma {:induction false} LeadingConcat(a: seq<string>, b: seq<string>)
    ensures Leading(a + b) == Leading(a) + Leading(b)
  {
    if a == [] {
      assert a + b == b;
    } else {
      LeadingConcat(a[1..], b);
      assert (a + b)[1..] == a[1..] + b;
      Regroup([Comma, Word(a[0])], Leading(a[1..]), Leading(b));
    }
  }

  lemma LeadingSnoc(words: seq<string>, i: nat)
    requires i < |words|
    ensures Leading(words[..i + 1]) == Leading(words[..i]) + [Comma, Word(words[i])]
  {
    assert words[..i + 1] == words[..i] + [words[i]];
    LeadingConcat(words[..i], [words[i]]);
    assert Leading([words[i]]) == [Comma, Word(words[i])] + Leading([]);
  }

  lemma {:induction false} ReadLeading(words: seq<string>, rest: seq<Tok>)
    ensures ReadArgs(Leading(words) + ([Close] + rest)) == Some((words, rest))
  {
    hide ReadArgs;
    if words == [] {
      ReadArgEnd(rest);
    } else {
      var tail := Leading(words[1..]) + ([Close] + rest);
      ReadLeading(words[1..], rest);
      Regroup([Comma, Word(words[0])], Leading(words[1..]), [Close] + rest);
      ReadArgCons(words[0], tail);
      assert [words[0]] + words[1..] == words;
    }
  }

  lemma ReadArgEnd(rest: seq<Tok>)
    ensures ReadArgs([] + ([Close] + rest)) == Some(([], rest))
  {
    assert ([] + ([Close] + rest))[1..] == rest;
  }

  lemma ReadArgCons(word: string, toks: seq<Tok>)
    requires ReadArgs(toks).Some?
    ensures ReadArgs([Comma, Word(word)] + toks) == Some(([word] + ReadArgs(toks).value.0, ReadArgs(toks).value.1))
  {
    assert ([Comma, Word(word)] + toks)[2..] == toks;
  }

  // ----- reading lists back -----

  lemma Regroup(a: seq<Tok>, b: seq<Tok>, c: seq<Tok>)
    ensures (a + b) + c == a + (b + c)
  {
  }

  /** Peeling the first item off a list. */
  lemma {:induction false} EachHead(items: seq<seq<Tok>>)
    requires items != []
    ensures Each(items) == items[0] + [Comma] + Each(items[1..])
  {
    var n := |items|;
    if n == 1 {
      assert items[..0] == [] && items[1..] == [];
    } else {
      EachHead(items[..n - 1]);
      assert items[..n - 1][1..] == items[1..][..n - 2];
      Regroup(items[0] + [Comma], Each(items[1..][..n - 2]), items[n - 1] + [Comma]);
    }
  }

  lemma ListedHead(items: seq<seq<Tok>>)
    requires |items| >= 2
    ensures Listed(items) == items[0] + [Comma] + Listed(items[1..])
  {
    var n := |items|;
    EachHead(items[..n - 1]);
    assert items[..n - 1][1..] == items[1..][..n - 2];
    Regroup(items[0] + [Comma], Each(items[1..][..n - 2]), items[n - 1] + [Close]);
  }

  lemma ReadParamCons(param: Param, toks: seq<Tok>)
    requires ReadParamsFrom(toks).Some?
    ensures ReadParamsFrom([Word(param.ctype), Word(param.name)] + [Comma] + toks)
            == Some(([param] + ReadParamsFrom(toks).value.0, ReadParamsFrom(toks).value.1))
  {
    assert ([Word(param.ctype), Word(param.name)] + [Comma] + toks)[3..] == toks;
  }

  lemma ReadParamLast(param: Param, rest: seq<Tok>)
    ensures ReadParamsFrom([Word(param.ctype), Word(param.name)] + [Close] + rest) == Some(([param], rest))
  {
    assert ([Word(param.ctype), Word(param.name)] + [Close] + rest)[3..] == rest;
  }

  lemma {:induction false} ReadParamsList(params: seq<Param>, rest: seq<Tok>)
    requires params != []
    ensures ReadParamsFrom(Listed(ParamItems(params)) + rest) == Some((params, rest))
    decreases |params|
  {
    hide ReadParamsFrom, Each;
    var items := ParamItems(params);
    if |params| == 1 {
      ListedOne(items);
      ReadParamLast(params[0], rest);
      assert [params[0]] == params;
    } else {
      var tail := Listed(ParamItems(params[1..])) + rest;
      ReadParamsList(params[1..], rest);
      ListedHead(items);
      assert items[1..] == ParamItems(params[1..]);
      assert Listed(items) + rest == items[0] + [Comma] + tail;
      ReadParamCons(params[0], tail);
      assert [params[0]] + params[1..] == params;
    }
  }

  lemma ListedOne(items: seq<seq<Tok>>)
    requires |items| == 1
    ensures Listed(items) == items[0] + [Close]
  {
    assert items[..0] == [];
  }

  lemma ReadPairCons(param: Param, toks: seq<Tok>)
    requires ReadPairsFrom(toks).Some?
    ensures ReadPairsFrom([Word(param.ctype), Comma, Word(param.name)] + [Comma] + toks)
            == Some(([param] + ReadPairsFrom(toks).value.0, ReadPairsFrom(toks).value.1))
  {
    assert ([Word(param.ctype), Comma, Word(param.name)] + [Comma] + toks)[4..] == toks;
  }

  lemma ReadPairLast(param: Param, rest: seq<Tok>)
    ensures ReadPairsFrom([Word(param.ctype), Comma, Word(param.name)] + [Close] + rest) == Some(([param], rest))
  {
    assert ([Word(param.ctype), Comma, Word(param.name)] + [Close] + rest)[4..] == rest;
  }

  lemma {:induction false} ReadPairsList(params: seq<Param>, rest: seq<Tok>)
    requires params != []
    ensures ReadPairsFrom(Listed(PairItems(params)) + rest) == Some((params, rest))
    decreases |params|
  {
    hide ReadPairsFrom, Each;
    var items := PairItems(params);
    if |params| == 1 {
      ListedOne(items);
      ReadPairLast(params[0], rest);
      assert [params[0]] == params;
    } else {
      var tail := Listed(PairItems(params[1..])) + rest;
      ReadPairsList(params[1..], rest);
      ListedHead(items);
      assert items[1..] == PairItems(params[1..]);
      assert Listed(items) + rest == items[0] + [Comma] + tail;
      ReadPairCons(params[0], tail);
      assert [params[0]] + params[1..] == params;
    }
  }

  lemma ReadWordCons(word: string, toks: seq<Tok>)
    requires ReadListFrom(toks).Some?
    ensures ReadListFrom([Word(word)] + [Comma] + toks)
            == Some(([word] + ReadListFrom(toks).value.0, ReadListFrom(toks).value.1))
  {
    assert ([Word(word)] + [Comma] + toks)[2..] == toks;
  }

  lemma ReadWordLast(word: string, rest: seq<Tok>)
    ensures ReadListFrom([Word(word)] + [Close] + rest) == Some(([word], rest))
  {
    assert ([Word(word)] + [Close] + rest)[2..] == rest;
  }

  lemma {:induction false} ReadWordsList(words: seq<string>, rest: seq<Tok>)
    requires words != []
    ensures ReadListFrom(Listed(WordItems(words)) + rest) == Some((words, rest))
    decreases |words|
  {
    hide ReadListFrom, Each;
    var items := WordItems(words);
    if |words| == 1 {
      ListedOne(items);
      ReadWordLast(words[0], rest);
      assert [words[0]] == words;
    } else {
      var tail := Listed(WordItems(words[1..])) + rest;
      ReadWordsList(words[1..], rest);
      ListedHead(items);
      assert items[1..] == WordItems(words[1..]);
      assert Listed(items) + rest == items[0] + [Comma] + tail;
      ReadWordCons(words[0], tail);
      assert [words[0]] + words[1..] == words;
    }
  }

  /** An empty list or a listed one: what the emit loops produce. */
  function Enclosed(items: seq<seq<Tok>>): seq<Tok> {
    if items == [] then [Close] else Listed(items)
  }

  lemma ListedStart(items: seq<seq<Tok>>, rest: seq<Tok>)
    requires items != [] && items[0] != [] && items[0][0].Word?
    ensures Listed(items) + rest != [] && (Listed(items) + rest)[0].Word?
  {
    if |items| == 1 {
      ListedOne(items);
    } else {
      ListedHead(items);
    }
  }

  lemma ReadParamsBack(params: seq<Param>, rest: seq<Tok>)
    ensures ReadParams(Enclosed(ParamItems(params)) + rest) == Some((params, rest))
  {
    hide ReadParamsFrom, Listed;
    if params == [] {
      assert ([Close] + rest)[1..] == rest;
    } else {
      ReadParamsList(params, rest);
      ListedStart(ParamItems(params), rest);
    }
  }

  lemma ReadPairsBack(params: seq<Param>, rest: seq<Tok>)
    ensures ReadPairs(Enclosed(PairItems(params)) + rest) == Some((params, rest))
  {
    hide ReadPairsFrom, Listed;
    if params == [] {
      assert ([Close] + rest)[1..] == rest;
    } else {
      ReadPairsList(params, rest);
      ListedStart(PairItems(params), rest);
    }
  }

  lemma ReadWordsBack(words: seq<string>, rest: seq<Tok>)
    ensures ReadList(Enclosed(WordItems(words)) + rest) == Some((words, rest))
  {
    hide ReadListFrom, Listed;
    if words == [] {
      assert ([Close] + rest)[1..] == rest;
    } else {
      ReadWordsList(words, rest);
      ListedStart(WordItems(words), rest);
    }
  }
}
