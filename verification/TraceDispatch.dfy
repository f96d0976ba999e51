/**
 The dispatch handler that the generator writes for each event (tools/etwlttng/Emitter.cs,
 `EmitDispatchHandler` and `EmitFieldUnpack`), as C statements, and a small interpreter for those
 statements. The interpreter refuses what C forbids: a second local of the same name, a variadic
 argument read as another type than it was passed with, a call whose arguments do not fit.
 */
module TraceDispatch {
  import opened TraceModel
  import opened TraceEmitter
  import opened OverflowFormat
  import opened Wrappers

  datatype Stmt =
    | ReturnIfNull(member: string)
    | ReadArg(ctype: string, local: string, vaType: string, deref: bool)
    | Buffer(local: string, size: nat)
    | WideToUtf8(source: string, target: string)
    | Alias(ctype: string, local: string, source: string)
    | Snprintf(target: string, fmt: string, args: seq<CExpr>)
    | Call(member: string, names: seq<string>)

  // ----- the emitted handler -----

  const UTF8_SIZE: nat := 2048
  const OVERFLOW_SIZE: nat := 1024

  /** `EmitFieldUnpack`. The top-level `const` of a scalar local is dropped: it is only ever read. */
  function Unpack(f: TraceField): seq<Stmt> {
    match f.inType
    case UnicodeString => [
      ReadArg("const uint16_t*", "wsz_" + f.name, VaArgType(f), false),
      Buffer("utf8_" + f.name, UTF8_SIZE),
      WideToUtf8("wsz_" + f.name, "utf8_" + f.name),
      Alias("const char*", "arg_" + f.name, "utf8_" + f.name)]
    case AnsiString => [ReadArg("const char*", "arg_" + f.name, VaArgType(f), false)]
    case Guid => [ReadArg("const uint8_t*", "arg_" + f.name, VaArgType(f), false)]
    case Binary => [ReadArg("const uint8_t*", "arg_" + f.name, VaArgType(f), false)]
    case _ => [ReadArg(ScalarCType(f.inType), "arg_" + f.name, VaArgType(f), true)]
  }

  function UnpackAll(fields: seq<TraceField>): seq<Stmt> {
    if fields == [] then [] else UnpackAll(fields[..|fields| - 1]) + Unpack(fields[|fields| - 1])
  }

  function FormatOverflow(ev: TraceEvent): seq<Stmt> {
    if HasOverflow(ev) then [
      Buffer("overflow_buf", OVERFLOW_SIZE),
      Snprintf("overflow_buf", FormatOf(OverflowFields(ev)), FormatArgs(OverflowFields(ev)))]
    else []
  }

  function Handler(ev: TraceEvent): seq<Stmt> {
    [ReturnIfNull("pfn_" + ev.name)] + UnpackAll(ev.fields) + FormatOverflow(ev) + [Call("pfn_" + ev.name, CallArgs(ev))]
  }

  method EmitDispatchHandler(ev: TraceEvent) returns (stmts: seq<Stmt>)
    ensures stmts == Handler(ev)
  {
    hide Unpack, FormatOf, FormatArgs, ReadList, CallArgs;
    stmts := [ReturnIfNull("pfn_" + ev.name)];
    for i := 0 to |ev.fields|
      invariant stmts == [ReturnIfNull("pfn_" + ev.name)] + UnpackAll(ev.fields[..i])
    {
      stmts := stmts + Unpack(ev.fields[i]);
      assert ev.fields[..i + 1][..i] == ev.fields[..i];
    }
    assert ev.fields[..|ev.fields|] == ev.fields;
    if HasOverflow(ev) {
      var fmt, args := EmitOverflowFormat(ev);
      stmts := stmts + [Buffer("overflow_buf", OVERFLOW_SIZE), Snprintf("overflow_buf", fmt, args)];
    }
    var toks := EmitDispatchCall(ev);
    var names := ReadList(toks).value.0;
    stmts := stmts + [Call("pfn_" + ev.name, names)];
  }

  // ----- the interpreter -----

  /** A local variable; `size` is for buffers. */
  datatype Local = Local(ctype: string, size: nat, content: Content)

  datatype Invocation = Invocation(member: string, contents: seq<Content>)

  datatype State = State(locals: map<string, Local>, va: seq<Operand>, calls: seq<Invocation>, returned: bool)

  /**
   What the handler runs in: the conversion to UTF-8 into a buffer of a given size, how one
   conversion prints, and the non-null members of the table with their parameter types.
   */
  datatype World = World(
    utf8: (Content, nat) -> string,
    show: (string, Content) -> string,
    table: map<string, seq<string>>)

  /** What fits in a buffer with its terminator. */
  function Cut(text: string, size: nat): string {
    if |text| < size then text else if size == 0 then "" else text[..size - 1]
  }

  /** The type of a local where its value is used: an array becomes a pointer. */
  function Decayed(ctype: string): string {
    if ctype == "char[]" then "const char*" else ctype
  }

  function Evaluate(locals: map<string, Local>, args: seq<CExpr>): Option<seq<Operand>> {
    if args == [] then Some([])
    else if args[0].local !in locals then None
    else
      var v := locals[args[0].local];
      match Evaluate(locals, args[1..])
      case None => None
      case Some(rest) => Some([Operand(if args[0].cast == "" then Decayed(v.ctype) else args[0].cast, v.content)] + rest)
  }

  /** What `snprintf` would print into a large enough buffer. */
  function Formatted(w: World, locals: map<string, Local>, fmt: string, args: seq<CExpr>): Option<string> {
    match Evaluate(locals, args)
    case None => None
    case Some(operands) =>
      match Printf(fmt, operands, w.show)
      case None => None
      case Some((text, _)) => Some(text)
  }

  predicate Callable(locals: map<string, Local>, names: seq<string>, types: seq<string>) {
    && |names| == |types|
    && forall i :: 0 <= i < |names| ==> names[i] in locals && Decayed(locals[names[i]].ctype) == types[i]
  }

  function Contents(locals: map<string, Local>, names: seq<string>): (r: seq<Content>)
    requires forall i :: 0 <= i < |names| ==> names[i] in locals
    ensures |r| == |names| && forall i :: 0 <= i < |r| ==> r[i] == locals[names[i]].content
  {
    seq(|names|, i requires 0 <= i < |names| => locals[names[i]].content)
  }

  /** One statement; none where C forbids it. */
  function Exec(w: World, s: State, stmt: Stmt): Option<State> {
    if s.returned then Some(s)
    else
      match stmt
      case ReturnIfNull(member) => Some(s.(returned := member !in w.table))
      case ReadArg(ctype, local, vaType, deref) =>
        if local in s.locals || s.va == [] || s.va[0].ctype != vaType || (deref && !s.va[0].content.Address?)
           || vaType != (if deref then "const " + ctype + "*" else ctype) then None
        else
          var content := if deref then s.va[0].content.target else s.va[0].content;
          Some(s.(va := s.va[1..], locals := s.locals[local := Local(ctype, 0, content)]))
      case Buffer(local, size) =>
        if local in s.locals then None else Some(s.(locals := s.locals[local := Local("char[]", size, Null)]))
      case WideToUtf8(source, target) =>
        if source !in s.locals || target !in s.locals || s.locals[source].ctype != "const uint16_t*"
           || s.locals[target].ctype != "char[]" then None
        else
          var size := s.locals[target].size;
          Some(s.(locals := s.locals[target := Local("char[]", size, Narrow(w.utf8(s.locals[source].content, size)))]))
      case Alias(ctype, local, source) =>
        if local in s.locals || source !in s.locals || Decayed(s.locals[source].ctype) != ctype then None
        else Some(s.(locals := s.locals[local := Local(ctype, 0, s.locals[source].content)]))
      case Snprintf(target, fmt, args) =>
        if target !in s.locals || s.locals[target].ctype != "char[]" then None
        else
          var size := s.locals[target].size;
          var text := Formatted(w, s.locals, fmt, args);
          if text.None? then None
          else Some(s.(locals := s.locals[target := Local("char[]", size, Narrow(Cut(text.value, size)))]))
      case Call(member, names) =>
        if member !in w.table || !Callable(s.locals, names, w.table[member]) then None
        else Some(s.(calls := s.calls + [Invocation(member, Contents(s.locals, names))]))
  }

  function ExecAll(w: World, s: State, stmts: seq<Stmt>): Option<State>
    decreases |stmts|
  {
    if stmts == [] then Some(s)
    else
      match Exec(w, s, stmts[0])
      case None => None
      case Some(next) => ExecAll(w, next, stmts[1..])
  }

  lemma {:induction false} ExecConcat(w: World, s: State, a: seq<Stmt>, b: seq<Stmt>)
    ensures ExecAll(w, s, a + b) ==
            (match ExecAll(w, s, a)
             case None => None
             case Some(next) => ExecAll(w, next, b))
    decreases |a|
  {
    hide Exec;
    if a == [] {
      assert a + b == b;
    } else {
      assert (a + b)[1..] == a[1..] + b;
      match Exec(w, s, a[0])
      case None =>
      case Some(next) => ExecConcat(w, next, a[1..], b);
    }
  }

  lemma {:induction false} ExecReturned(w: World, s: State, stmts: seq<Stmt>)
    requires s.returned
    ensures ExecAll(w, s, stmts) == Some(s)
    decreases |stmts|
  {
    if stmts != [] {
      ExecReturned(w, s, stmts[1..]);
    }
  }

  lemma ExecOne(w: World, s: State, stmt: Stmt)
    ensures ExecAll(w, s, [stmt]) == Exec(w, s, stmt)
  {
    hide Exec;
    assert [stmt][1..] == [];
    assert forall next :: ExecAll(w, next, []) == Some(next);
  }

  // ----- unpacking -----

  /** The type with which the engine passes a value: a scalar by its address, anything else as a pointer. */
  function EngineType(t: WinType): string {
    match t
    case UInt8 => "const uint8_t*"
    case UInt16 => "const uint16_t*"
    case UInt32 => "const uint32_t*"
    case UInt64 => "const uint64_t*"
    case Int32 => "const int32_t*"
    case Int64 => "const int64_t*"
    case Double => "const double*"
    case Pointer => "const uintptr_t*"
    case Guid => "const uint8_t*"
    case UnicodeString => "const uint16_t*"
    case AnsiString => "const char*"
    case Binary => "const uint8_t*"
  }

  /** What the engine can pass for a field: the address of a scalar, or a text or block that may be null. */
  predicate PassedAs(f: TraceField, arg: Operand) {
    && arg.ctype == EngineType(f.inType)
    && match f.inType
       case UnicodeString => arg.content.Wide? || arg.content.Null?
       case AnsiString => arg.content.Narrow? || arg.content.Null?
       case Guid => arg.content.Block? || arg.content.Null?
       case Binary => arg.content.Block? || arg.content.Null?
       case _ => arg.content.Address?
  }

  /** The generated read takes exactly the type that the engine passes. */
  lemma ReadsWhatIsPassed(f: TraceField)
    ensures VaArgType(f) == EngineType(f.inType)
    ensures IsScalar(f.inType) ==> VaArgType(f) == "const " + ScalarCType(f.inType) + "*"
    ensures !IsScalar(f.inType) && !f.inType.UnicodeString? ==> VaArgType(f) == ParamType(f)
  {
  }

  predicate AllPassed(fields: seq<TraceField>, va: seq<Operand>) {
    |fields| <= |va| && forall i :: 0 <= i < |fields| ==> PassedAs(fields[i], va[i])
  }

  predicate DistinctNames(fields: seq<TraceField>) {
    forall i, j :: 0 <= i < j < |fields| ==> fields[i].name != fields[j].name
  }

  /** What a table function is to get for a field. */
  function Delivered(w: World, f: TraceField, arg: Operand): Content
    requires PassedAs(f, arg)
  {
    if IsScalar(f.inType) then arg.content.target
    else if f.inType.UnicodeString? then Narrow(w.utf8(arg.content, 2048))
    else arg.content
  }

  /** The locals after one field is unpacked. */
  function Bound(w: World, locals: map<string, Local>, f: TraceField, arg: Operand): map<string, Local>
    requires PassedAs(f, arg)
  {
    var result := Local(ParamType(f), 0, Delivered(w, f, arg));
    if f.inType.UnicodeString? then
      locals["wsz_" + f.name := Local("const uint16_t*", 0, arg.content)]
            ["utf8_" + f.name := Local("char[]", UTF8_SIZE, result.content)]
            ["arg_" + f.name := result]
    else locals["arg_" + f.name := result]
  }

  function BoundAll(w: World, fields: seq<TraceField>, va: seq<Operand>): map<string, Local>
    requires AllPassed(fields, va)
  {
    if fields == [] then map[]
    else
      var n := |fields| - 1;
      Bound(w, BoundAll(w, fields[..n], va), fields[n], va[n])
  }

  predicate Fresh(locals: map<string, Local>, name: string) {
    "arg_" + name !in locals && "wsz_" + name !in locals && "utf8_" + name !in locals
  }

  /** Locals of different roles or different fields have different names. */
  lemma LocalsApart(a: string, b: string)
    ensures "arg_" + a != "wsz_" + b && "arg_" + a != "utf8_" + b && "wsz_" + a != "utf8_" + b
    ensures "arg_" + a != "overflow_buf" && "wsz_" + a != "overflow_buf" && "utf8_" + a != "overflow_buf"
    ensures a != b ==> "arg_" + a != "arg_" + b && "wsz_" + a != "wsz_" + b && "utf8_" + a != "utf8_" + b
  {
    assert ("arg_" + a)[0] == 'a' && ("wsz_" + a)[0] == 'w' && ("utf8_" + a)[0] == 'u';
    assert ("wsz_" + b)[0] == 'w' && ("utf8_" + b)[0] == 'u' && "overflow_buf"[0] == 'o';
    assert ("arg_" + a)[4..] == a && ("wsz_" + a)[4..] == a && ("utf8_" + a)[5..] == a;
    assert ("arg_" + b)[4..] == b && ("wsz_" + b)[4..] == b && ("utf8_" + b)[5..] == b;
  }

  /** One field takes one variadic argument and leaves its local. */
  lemma UnpackOne(w: World, s: State, f: TraceField)
    requires !s.returned && s.va != [] && PassedAs(f, s.va[0]) && Fresh(s.locals, f.name)
    ensures ExecAll(w, s, Unpack(f)) == Some(s.(va := s.va[1..], locals := Bound(w, s.locals, f, s.va[0])))
  {
    hide VaArgType, EngineType;
    ReadsWhatIsPassed(f);
    LocalsApart(f.name, f.name);
    if f.inType.UnicodeString? {
      UnpackWide(w, s, f);
    } else {
      ExecOne(w, s, Unpack(f)[0]);
      assert Unpack(f) == [Unpack(f)[0]];
    }
  }

  lemma UnpackWide(w: World, s: State, f: TraceField)
    requires !s.returned && s.va != [] && PassedAs(f, s.va[0]) && Fresh(s.locals, f.name) && f.inType.UnicodeString?
    ensures ExecAll(w, s, Unpack(f)) == Some(s.(va := s.va[1..], locals := Bound(w, s.locals, f, s.va[0])))
  {
    hide ExecAll, Exec;
    LocalsApart(f.name, f.name);
    WideSteps(w, s, "wsz_" + f.name, "utf8_" + f.name, "arg_" + f.name);
  }

  lemma WideSteps(w: World, s: State, wsz: string, utf8: string, result: string)
    requires !s.returned && s.va != [] && s.va[0].ctype == "const uint16_t*"
    requires wsz !in s.locals && utf8 !in s.locals && result !in s.locals
    requires wsz != utf8 && wsz != result && utf8 != result
    ensures var text := Narrow(w.utf8(s.va[0].content, UTF8_SIZE));
            ExecAll(w, s, [ReadArg("const uint16_t*", wsz, "const uint16_t*", false), Buffer(utf8, UTF8_SIZE),
                           WideToUtf8(wsz, utf8), Alias("const char*", result, utf8)])
            == Some(s.(va := s.va[1..],
                       locals := s.locals[wsz := Local("const uint16_t*", 0, s.va[0].content)]
                                         [utf8 := Local("char[]", UTF8_SIZE, text)]
                                         [result := Local("const char*", 0, text)]))
  {
    hide ExecAll, Formatted, Callable, Contents;
    var content := s.va[0].content;
    var text := Narrow(w.utf8(content, UTF8_SIZE));
    var s1 := s.(va := s.va[1..], locals := s.locals[wsz := Local("const uint16_t*", 0, content)]);
    var s2 := s1.(locals := s1.locals[utf8 := Local("char[]", UTF8_SIZE, Null)]);
    var s3 := s2.(locals := s2.locals[utf8 := Local("char[]", UTF8_SIZE, text)]);
    var s4 := s3.(locals := s3.locals[result := Local("const char*", 0, text)]);
    var stmts := [ReadArg("const uint16_t*", wsz, "const uint16_t*", false), Buffer(utf8, UTF8_SIZE),
                  WideToUtf8(wsz, utf8), Alias("const char*", result, utf8)];
    ExecFour(w, s, s1, s2, s3, s4, stmts);
    assert s3.locals == s1.locals[utf8 := Local("char[]", UTF8_SIZE, text)];
  }

  lemma ExecFour(w: World, s: State, s1: State, s2: State, s3: State, s4: State, stmts: seq<Stmt>)
    requires |stmts| == 4
    requires Exec(w, s, stmts[0]) == Some(s1) && Exec(w, s1, stmts[1]) == Some(s2)
    requires Exec(w, s2, stmts[2]) == Some(s3) && Exec(w, s3, stmts[3]) == Some(s4)
    ensures ExecAll(w, s, stmts) == Some(s4)
  {
    hide Exec;
    ExecOne(w, s3, stmts[3]);
    assert stmts[1..][1..] == stmts[2..] && stmts[2..][1..] == stmts[3..] && stmts[3..] == [stmts[3]];
    assert ExecAll(w, s2, stmts[2..]) == ExecAll(w, s3, stmts[3..]);
    assert ExecAll(w, s1, stmts[1..]) == ExecAll(w, s2, stmts[2..]);
  }

  /** A field whose name was used before does not compile. */
  lemma UnpackTaken(w: World, s: State, f: TraceField)
    requires !s.returned && "arg_" + f.name in s.locals
    ensures ExecAll(w, s, Unpack(f)) == None
  {
    LocalsApart(f.name, f.name);
    if !f.inType.UnicodeString? {
      ExecOne(w, s, Unpack(f)[0]);
      assert Unpack(f) == [Unpack(f)[0]];
    } else {
      var stmts := Unpack(f);
      assert stmts == stmts[..3] + [stmts[3]];
      ExecConcat(w, s, stmts[..3], [stmts[3]]);
      LocalsGrow(w, s, stmts[..3], "arg_" + f.name);
      match ExecAll(w, s, stmts[..3])
      case None =>
      case Some(next) => ExecOne(w, next, stmts[3]);
    }
  }

  /** No statement removes a local or returns, apart from the null check. */
  lemma {:induction false} LocalsGrow(w: World, s: State, stmts: seq<Stmt>, local: string)
    requires !s.returned && local in s.locals
    requires forall i :: 0 <= i < |stmts| ==> !stmts[i].ReturnIfNull?
    ensures ExecAll(w, s, stmts).Some? ==>
              !ExecAll(w, s, stmts).value.returned && local in ExecAll(w, s, stmts).value.locals
    decreases |stmts|
  {
    if stmts != [] {
      match Exec(w, s, stmts[0])
      case None =>
      case Some(next) => LocalsGrow(w, next, stmts[1..], local);
    }
  }

  lemma {:induction false} StaysFresh(w: World, fields: seq<TraceField>, va: seq<Operand>, name: string)
    requires AllPassed(fields, va)
    requires forall f :: f in fields ==> f.name != name
    ensures Fresh(BoundAll(w, fields, va), name)
    decreases |fields|
  {
    hide PassedAs, Delivered, ParamType;
    if fields != [] {
      var n := |fields| - 1;
      StaysFresh(w, fields[..n], va, name);
      LocalsApart(name, fields[n].name);
      LocalsApart(fields[n].name, name);
    }
  }

  lemma {:induction false} BufferFree(w: World, fields: seq<TraceField>, va: seq<Operand>)
    requires AllPassed(fields, va)
    ensures "overflow_buf" !in BoundAll(w, fields, va)
    decreases |fields|
  {
    hide PassedAs, Delivered, ParamType;
    if fields != [] {
      var n := |fields| - 1;
      BufferFree(w, fields[..n], va);
      LocalsApart(fields[n].name, fields[n].name);
    }
  }

  /** Every field's local holds what is to be delivered for it. */
  lemma {:induction false} BoundHas(w: World, fields: seq<TraceField>, va: seq<Operand>, i: nat)
    requires AllPassed(fields, va) && DistinctNames(fields) && i < |fields|
    ensures "arg_" + fields[i].name in BoundAll(w, fields, va)
    ensures BoundAll(w, fields, va)["arg_" + fields[i].name] == Local(ParamType(fields[i]), 0, Delivered(w, fields[i], va[i]))
    decreases |fields|
  {
    hide PassedAs, Delivered, ParamType;
    var n := |fields| - 1;
    if i < n {
      BoundHas(w, fields[..n], va, i);
      LocalsApart(fields[i].name, fields[n].name);
    }
  }

  /** Unpacking succeeds exactly when field names differ, and reads one argument per field in order. */
  lemma {:induction false} UnpackEvery(w: World, s: State, fields: seq<TraceField>)
    requires !s.returned && s.locals == map[] && AllPassed(fields, s.va)
    ensures ExecAll(w, s, UnpackAll(fields)) ==
            if DistinctNames(fields) then Some(s.(va := s.va[|fields|..], locals := BoundAll(w, fields, s.va))) else None
    decreases |fields|
  {
    hide PassedAs, Unpack, Bound, ExecAll, Fresh;
    if fields == [] {
      assert ExecAll(w, s, []) == Some(s) by { ExecNothing(w, s); }
      assert s.va[0..] == s.va;
    } else {
      var n := |fields| - 1;
      UnpackEvery(w, s, fields[..n]);
      ExecConcat(w, s, UnpackAll(fields[..n]), Unpack(fields[n]));
      if DistinctNames(fields[..n]) {
        UnpackLast(w, s, fields);
      }
    }
  }

  lemma ExecNothing(w: World, s: State)
    ensures ExecAll(w, s, []) == Some(s)
  {
  }

  lemma UnpackLast(w: World, s: State, fields: seq<TraceField>)
    requires !s.returned && AllPassed(fields, s.va) && fields != [] && DistinctNames(fields[..|fields| - 1])
    ensures var n := |fields| - 1;
            var before := s.(va := s.va[n..], locals := BoundAll(w, fields[..n], s.va));
            ExecAll(w, before, Unpack(fields[n])) ==
            if DistinctNames(fields) then Some(s.(va := s.va[n + 1..], locals := BoundAll(w, fields, s.va))) else None
  {
    hide PassedAs, Unpack, Bound, ExecAll, Fresh, ParamType, Delivered, DistinctNames;
    var n := |fields| - 1;
    var before := s.(va := s.va[n..], locals := BoundAll(w, fields[..n], s.va));
    DistinctSnoc(fields);
    if i :| 0 <= i < n && fields[i].name == fields[n].name {
      BoundHas(w, fields[..n], s.va, i);
      UnpackTaken(w, before, fields[n]);
    } else {
      StaysFresh(w, fields[..n], s.va, fields[n].name);
      assert before.va[0] == s.va[n] && before.va[1..] == s.va[n + 1..];
      UnpackOne(w, before, fields[n]);
    }
  }

  lemma DistinctSnoc(fields: seq<TraceField>)
    requires fields != []
    ensures var n := |fields| - 1;
            DistinctNames(fields) <==>
            DistinctNames(fields[..n]) && forall i :: 0 <= i < n ==> fields[i].name != fields[n].name
  {
  }

  // ----- the whole handler -----

  /** What the fields' locals hold once all are unpacked. */
  function DeliveredAll(w: World, fields: seq<TraceField>, va: seq<Operand>): (r: seq<Content>)
    requires AllPassed(fields, va)
    ensures |r| == |fields| && forall i :: 0 <= i < |r| ==> r[i] == Delivered(w, fields[i], va[i])
  {
    seq(|fields|, i requires 0 <= i < |fields| => Delivered(w, fields[i], va[i]))
  }

  /** Locals that hold the given contents for the given fields. */
  predicate Holds(locals: map<string, Local>, fields: seq<TraceField>, contents: seq<Content>)
    requires |contents| == |fields|
  {
    forall i :: 0 <= i < |fields| ==>
      && "arg_" + fields[i].name in locals
      && locals["arg_" + fields[i].name] == Local(ParamType(fields[i]), 0, contents[i])
  }

  lemma BoundHolds(w: World, fields: seq<TraceField>, va: seq<Operand>)
    requires AllPassed(fields, va) && DistinctNames(fields)
    ensures Holds(BoundAll(w, fields, va), fields, DeliveredAll(w, fields, va))
  {
    hide PassedAs, Delivered, ParamType, BoundAll;
    forall i | 0 <= i < |fields|
      ensures "arg_" + fields[i].name in BoundAll(w, fields, va)
      ensures BoundAll(w, fields, va)["arg_" + fields[i].name]
              == Local(ParamType(fields[i]), 0, DeliveredAll(w, fields, va)[i])
    {
      BoundHas(w, fields, va, i);
    }
  }

  /** The argument of one field evaluates to the operand of its conversion. */
  lemma EvaluateField(locals: map<string, Local>, f: TraceField, c: Content, args: seq<CExpr>)
    requires "arg_" + f.name in locals && locals["arg_" + f.name] == Local(ParamType(f), 0, c)
    requires Evaluate(locals, args).Some?
    ensures Evaluate(locals, ArgOf(f) + args) == Some(OperandOf(f, c) + Evaluate(locals, args).value)
  {
    hide ParamType, FormatArg, ConversionAt, Accepts, Conversion;
    ArgumentIffConversion(f, c);
    var rest := Evaluate(locals, args).value;
    if IsBlob(f) {
      assert [] + args == args && [] + rest == rest;
    } else {
      NotAnArray(f);
      assert ([FormatArg(f).value] + args)[1..] == args;
    }
  }

  /** The arguments of the `snprintf` evaluate to the operands that its format expects. */
  lemma {:induction false} EvaluateArgs(locals: map<string, Local>, fields: seq<TraceField>, contents: seq<Content>)
    requires |contents| == |fields| && Holds(locals, fields, contents)
    ensures Evaluate(locals, FormatArgs(fields)) == Some(Operands(fields, contents))
    decreases |fields|
  {
    hide ParamType, ArgOf, OperandOf;
    if fields != [] {
      hide Evaluate;
      EvaluateArgs(locals, fields[1..], contents[1..]);
      EvaluateField(locals, fields[0], contents[0], FormatArgs(fields[1..]));
      assert Evaluate(locals, FormatArgs(fields)) == Some(Operands(fields, contents));
    }
  }

  lemma NotAnArray(f: TraceField)
    ensures Decayed(ParamType(f)) == ParamType(f)
  {
    assert "char[]"[4] == '[';
    assert ParamType(f) == "char[]" ==> ParamType(f)[4] == '[';
  }

  /** What the table function gets: each typed field, then the overflow text as far as it fits. */
  function Arguments(w: World, ev: TraceEvent, va: seq<Operand>): seq<Content>
    requires AllPassed(ev.fields, va)
  {
    var contents := DeliveredAll(w, ev.fields, va);
    var k := |TypedFields(ev)|;
    contents[..k] +
    if HasOverflow(ev) then [Narrow(Cut(OverflowText(OverflowFields(ev), contents[k..], w.show), 1024))] else []
  }

  function TypesOf(params: seq<Param>): (r: seq<string>)
    ensures |r| == |params| && forall i :: 0 <= i < |r| ==> r[i] == params[i].ctype
  {
    seq(|params|, i requires 0 <= i < |params| => params[i].ctype)
  }

  /** The overflow text names every overflow field with its own value, unless one is a null text. */
  lemma FormatRuns(w: World, s: State, ev: TraceEvent, contents: seq<Content>)
    requires !s.returned && HasOverflow(ev) && |contents| == |ev.fields| && Holds(s.locals, ev.fields, contents)
    requires "overflow_buf" !in s.locals
    requires forall f :: f in OverflowFields(ev) ==> '%' !in f.name
    ensures var held := contents[MAX_TYPED_FIELDS..];
            var text := OverflowText(OverflowFields(ev), held, w.show);
            ExecAll(w, s, FormatOverflow(ev)) ==
            if AllPrintable(OverflowFields(ev), held)
            then Some(s.(locals := s.locals["overflow_buf" := Local("char[]", OVERFLOW_SIZE, Narrow(Cut(text, OVERFLOW_SIZE)))]))
            else None
  {
    hide ParamType, Printf, Evaluate, FormatOf, FormatArgs, Operands, OverflowText, Callable, Contents, Cut, AllPrintable;
    var overflow, held := OverflowFields(ev), contents[MAX_TYPED_FIELDS..];
    var stmts := FormatOverflow(ev);
    var s1 := s.(locals := s.locals["overflow_buf" := Local("char[]", OVERFLOW_SIZE, Null)]);
    var text := OverflowText(overflow, held, w.show);
    assert Holds(s1.locals, overflow, held) by {
      HoldsRest(s.locals, Local("char[]", OVERFLOW_SIZE, Null), ev, contents);
    }
    EvaluateArgs(s1.locals, overflow, held);
    OverflowPrints(overflow, held, w.show);
    assert Formatted(w, s1.locals, FormatOf(overflow), FormatArgs(overflow))
           == if AllPrintable(overflow, held) then Some(text) else None;
    assert Exec(w, s, stmts[0]) == Some(s1);
    var filled := Local("char[]", OVERFLOW_SIZE, Narrow(Cut(text, OVERFLOW_SIZE)));
    assert s1.locals["overflow_buf" := filled] == s.locals["overflow_buf" := filled];
    ExecOne(w, s1, stmts[1]);
    assert stmts[1..] == [stmts[1]];
  }

  /** Declaring the buffer does not disturb the fields' locals. */
  lemma HoldsRest(locals: map<string, Local>, buffer: Local, ev: TraceEvent, contents: seq<Content>)
    requires HasOverflow(ev) && |contents| == |ev.fields| && Holds(locals, ev.fields, contents)
    ensures Holds(locals["overflow_buf" := buffer], OverflowFields(ev), contents[MAX_TYPED_FIELDS..])
    ensures Holds(locals["overflow_buf" := buffer], TypedFields(ev), contents[..MAX_TYPED_FIELDS])
  {
    hide ParamType;
    var more := locals["overflow_buf" := buffer];
    forall i | 0 <= i < |ev.fields|
      ensures "arg_" + ev.fields[i].name in more && more["arg_" + ev.fields[i].name] == locals["arg_" + ev.fields[i].name]
    {
      LocalsApart(ev.fields[i].name, "");
    }
  }

  lemma CallRuns(w: World, s: State, ev: TraceEvent, contents: seq<Content>)
    requires !s.returned && |contents| == |TypedFields(ev)| && Holds(s.locals, TypedFields(ev), contents)
    requires "pfn_" + ev.name in w.table && w.table["pfn_" + ev.name] == TypesOf(Signature(ev))
    requires HasOverflow(ev) ==> "overflow_buf" in s.locals && s.locals["overflow_buf"].ctype == "char[]"
    ensures var args := contents + if HasOverflow(ev) then [s.locals["overflow_buf"].content] else [];
            ExecAll(w, s, [Call("pfn_" + ev.name, CallArgs(ev))])
            == Some(s.(calls := s.calls + [Invocation("pfn_" + ev.name, args)]))
  {
    hide ParamType, Formatted, ExecAll;
    var names, types := CallArgs(ev), TypesOf(Signature(ev));
    var typed := TypedFields(ev);
    forall i | 0 <= i < |names|
      ensures names[i] in s.locals && Decayed(s.locals[names[i]].ctype) == types[i]
    {
      if i < |typed| {
        NotAnArray(typed[i]);
      }
    }
    var args := contents + if HasOverflow(ev) then [s.locals["overflow_buf"].content] else [];
    assert Contents(s.locals, names) == args;
    ExecOne(w, s, Call("pfn_" + ev.name, names));
  }

  function Start(va: seq<Operand>): State {
    State(map[], va, [], false)
  }

  /** A table without the function: nothing is read and nothing is called. */
  lemma HandlerSkips(w: World, ev: TraceEvent, va: seq<Operand>)
    requires "pfn_" + ev.name !in w.table
    ensures ExecAll(w, Start(va), Handler(ev)) == Some(Start(va).(returned := true))
  {
    hide UnpackAll, FormatOverflow, CallArgs;
    var rest := UnpackAll(ev.fields) + FormatOverflow(ev) + [Call("pfn_" + ev.name, CallArgs(ev))];
    assert Handler(ev) == [ReturnIfNull("pfn_" + ev.name)] + rest;
    assert Handler(ev)[1..] == rest;
    ExecReturned(w, Start(va).(returned := true), rest);
  }

  /** No overflow field is a null text. Wide text never is: the conversion makes a null one empty. */
  predicate TextsPresent(ev: TraceEvent, va: seq<Operand>)
    requires AllPassed(ev.fields, va)
  {
    HasOverflow(ev) ==>
      forall i :: MAX_TYPED_FIELDS <= i < |ev.fields| && ev.fields[i].inType.AnsiString? ==> !va[i].content.Null?
  }

  lemma PresentIffPrintable(w: World, ev: TraceEvent, va: seq<Operand>)
    requires AllPassed(ev.fields, va) && HasOverflow(ev)
    ensures AllPrintable(OverflowFields(ev), DeliveredAll(w, ev.fields, va)[MAX_TYPED_FIELDS..]) <==> TextsPresent(ev, va)
  {
    hide VaArgType;
    var overflow, held := OverflowFields(ev), DeliveredAll(w, ev.fields, va)[MAX_TYPED_FIELDS..];
    forall i | MAX_TYPED_FIELDS <= i < |ev.fields|
      ensures Printable(overflow[i - MAX_TYPED_FIELDS], held[i - MAX_TYPED_FIELDS])
              <==> (ev.fields[i].inType.AnsiString? ==> !va[i].content.Null?)
    {
      assert PassedAs(ev.fields[i], va[i]);
      assert held[i - MAX_TYPED_FIELDS] == Delivered(w, ev.fields[i], va[i]);
    }
    if AllPrintable(overflow, held) {
      forall i | MAX_TYPED_FIELDS <= i < |ev.fields|
        ensures ev.fields[i].inType.AnsiString? ==> !va[i].content.Null?
      {
        assert Printable(overflow[i - MAX_TYPED_FIELDS], held[i - MAX_TYPED_FIELDS]);
      }
    }
    if TextsPresent(ev, va) {
      forall k | 0 <= k < |overflow|
        ensures Printable(overflow[k], held[k])
      {
        assert ev.fields[k + MAX_TYPED_FIELDS] == overflow[k];
      }
    }
  }

  /** After the unpacking, the handler makes its one call, unless it has to print a null text. */
  lemma HandlerTail(w: World, s: State, ev: TraceEvent, va: seq<Operand>)
    requires "pfn_" + ev.name in w.table && w.table["pfn_" + ev.name] == TypesOf(Signature(ev))
    requires AllPassed(ev.fields, va) && DistinctNames(ev.fields)
    requires s == State(BoundAll(w, ev.fields, va), va[|ev.fields|..], [], false)
    requires forall f :: f in OverflowFields(ev) ==> '%' !in f.name
    ensures var r := ExecAll(w, s, FormatOverflow(ev) + [Call("pfn_" + ev.name, CallArgs(ev))]);
            && (r.Some? <==> TextsPresent(ev, va))
            && (r.Some? ==> r.value.va == s.va && r.value.calls == [Invocation("pfn_" + ev.name, Arguments(w, ev, va))])
  {
    hide AllPassed, DistinctNames, BoundAll, Delivered, ParamType, CallArgs, Signature, ExecAll, OverflowText, Cut, FormatOf,
         FormatArgs, AllPrintable;
    var contents := DeliveredAll(w, ev.fields, va);
    BoundHolds(w, ev.fields, va);
    ExecConcat(w, s, FormatOverflow(ev), [Call("pfn_" + ev.name, CallArgs(ev))]);
    if HasOverflow(ev) {
      BufferFree(w, ev.fields, va);
      FormatRuns(w, s, ev, contents);
      PresentIffPrintable(w, ev, va);
      if TextsPresent(ev, va) {
        var next := ExecAll(w, s, FormatOverflow(ev)).value;
        HoldsRest(s.locals, next.locals["overflow_buf"], ev, contents);
        CallRuns(w, next, ev, contents[..MAX_TYPED_FIELDS]);
      }
    } else {
      ExecNothing(w, s);
      assert contents[..|ev.fields|] == contents;
      CallRuns(w, s, ev, contents);
    }
  }

  /**
   The handler of every event: it runs exactly when the field names differ and no overflow field
   is a null text. It then reads one variadic argument per declared field, in declared order and
   with the type it was passed with, and calls its table function once, with the typed fields and
   the overflow text.
   */
  lemma HandlerRuns(w: World, ev: TraceEvent, va: seq<Operand>)
    requires "pfn_" + ev.name in w.table && w.table["pfn_" + ev.name] == TypesOf(Signature(ev))
    requires AllPassed(ev.fields, va)
    requires forall f :: f in OverflowFields(ev) ==> '%' !in f.name
    ensures ExecAll(w, Start(va), Handler(ev)).Some? <==> DistinctNames(ev.fields) && TextsPresent(ev, va)
    ensures DistinctNames(ev.fields) && TextsPresent(ev, va) ==>
              var end := ExecAll(w, Start(va), Handler(ev)).value;
              end.va == va[|ev.fields|..] && end.calls == [Invocation("pfn_" + ev.name, Arguments(w, ev, va))]
  {
    hide PassedAs, DistinctNames, BoundAll, UnpackAll, FormatOverflow, CallArgs, Signature, ExecAll, Arguments, TextsPresent;
    var s := Start(va);
    var check, unpack := [ReturnIfNull("pfn_" + ev.name)], UnpackAll(ev.fields);
    var tail := FormatOverflow(ev) + [Call("pfn_" + ev.name, CallArgs(ev))];
    assert Handler(ev) == check + (unpack + tail);
    ExecConcat(w, s, check, unpack + tail);
    ExecOne(w, s, check[0]);
    ExecConcat(w, s, unpack, tail);
    UnpackEvery(w, s, ev.fields);
    if DistinctNames(ev.fields) {
      HandlerTail(w, s.(va := va[|ev.fields|..], locals := BoundAll(w, ev.fields, va)), ev, va);
    }
  }

  // ----- what a compiler checks -----

  predicate DistinctStrings(names: seq<string>) {
    forall i, j :: 0 <= i < j < |names| ==> names[i] != names[j]
  }

  function DeclaredBy(stmt: Stmt): seq<string> {
    match stmt
    case ReadArg(_, local, _, _) => [local]
    case Buffer(local, _) => [local]
    case Alias(_, local, _) => [local]
    case _ => []
  }

  /** The locals that statements declare, in order. */
  function Declared(stmts: seq<Stmt>): seq<string> {
    if stmts == [] then [] else DeclaredBy(stmts[0]) + Declared(stmts[1..])
  }

  lemma {:induction false} DeclaredConcat(a: seq<Stmt>, b: seq<Stmt>)
    ensures Declared(a + b) == Declared(a) + Declared(b)
  {
    hide DeclaredBy;
    if a == [] {
      assert a + b == b;
    } else {
      DeclaredConcat(a[1..], b);
      assert (a + b)[1..] == a[1..] + b;
      RegroupNames(DeclaredBy(a[0]), Declared(a[1..]), Declared(b));
    }
  }

  lemma RegroupNames(a: seq<string>, b: seq<string>, c: seq<string>)
    ensures (a + b) + c == a + (b + c)
  {
  }

  lemma DistinctJoin(a: seq<string>, b: seq<string>)
    ensures DistinctStrings(a + b) <==> DistinctStrings(a) && DistinctStrings(b) && forall x :: x in a ==> x !in b
  {
    var all := a + b;
    assert forall i :: 0 <= i < |a| ==> all[i] == a[i];
    assert forall i :: 0 <= i < |b| ==> all[|a| + i] == b[i];
    if DistinctStrings(all) {
      forall i, j | 0 <= i < j < |b|
        ensures b[i] != b[j]
      {
        assert all[|a| + i] != all[|a| + j];
      }
      forall x | x in a
        ensures x !in b
      {
        var i :| 0 <= i < |a| && a[i] == x;
        forall j | 0 <= j < |b|
          ensures b[j] != x
        {
          assert all[i] != all[|a| + j];
        }
      }
    }
    if DistinctStrings(a) && DistinctStrings(b) && forall x :: x in a ==> x !in b {
      forall i, j | 0 <= i < j < |all|
        ensures all[i] != all[j]
      {
        if i < |a| <= j {
          assert all[i] in a && all[j] == b[j - |a|];
        } else if |a| <= i {
          assert b[i - |a|] != b[j - |a|];
        }
      }
    }
  }

  /** The locals of one field. */
  predicate LocalOf(f: TraceField, x: string) {
    x == "arg_" + f.name || (f.inType.UnicodeString? && (x == "wsz_" + f.name || x == "utf8_" + f.name))
  }

  lemma DeclaredOne(f: TraceField)
    ensures DistinctStrings(Declared(Unpack(f)))
    ensures forall x :: x in Declared(Unpack(f)) <==> LocalOf(f, x)
  {
    hide VaArgType, Declared;
    LocalsApart(f.name, f.name);
    var stmts := Unpack(f);
    if f.inType.UnicodeString? {
      DeclaredFour(stmts);
    } else {
      assert stmts == [stmts[0]];
      DeclaredSingle(stmts[0]);
    }
  }

  lemma DeclaredSingle(stmt: Stmt)
    ensures Declared([stmt]) == DeclaredBy(stmt)
  {
    assert [stmt][1..] == [];
  }

  lemma DeclaredFour(stmts: seq<Stmt>)
    requires |stmts| == 4
    ensures Declared(stmts) == DeclaredBy(stmts[0]) + DeclaredBy(stmts[1]) + DeclaredBy(stmts[2]) + DeclaredBy(stmts[3])
  {
    hide Declared, DeclaredBy;
    DeclaredConcat([stmts[0]], [stmts[1]]);
    DeclaredConcat([stmts[0]] + [stmts[1]], [stmts[2]]);
    DeclaredConcat([stmts[0]] + [stmts[1]] + [stmts[2]], [stmts[3]]);
    assert [stmts[0]] + [stmts[1]] + [stmts[2]] + [stmts[3]] == stmts;
    DeclaredSingle(stmts[0]);
    DeclaredSingle(stmts[1]);
    DeclaredSingle(stmts[2]);
    DeclaredSingle(stmts[3]);
  }

  lemma {:induction false} DeclaredAll(fields: seq<TraceField>, x: string)
    ensures x in Declared(UnpackAll(fields)) <==> exists i :: 0 <= i < |fields| && LocalOf(fields[i], x)
    decreases |fields|
  {
    hide Declared, Unpack, LocalOf;
    if fields == [] {
      assert Declared([]) == [] by { DeclaredNothing(); }
    } else {
      var n := |fields| - 1;
      DeclaredAll(fields[..n], x);
      DeclaredConcat(UnpackAll(fields[..n]), Unpack(fields[n]));
      DeclaredOne(fields[n]);
      if i :| 0 <= i < n && LocalOf(fields[..n][i], x) {
        assert LocalOf(fields[i], x);
      }
      if i :| 0 <= i < n && LocalOf(fields[i], x) {
        assert LocalOf(fields[..n][i], x);
      }
    }
  }

  lemma NothingDistinct()
    ensures DistinctStrings([]) && DistinctNames([])
  {
  }

  lemma DeclaredNothing()
    ensures Declared([]) == []
  {
  }

  /** No local of the unpacking is declared twice exactly when the field names differ. */
  lemma {:induction false} UnpackDeclares(fields: seq<TraceField>)
    ensures DistinctStrings(Declared(UnpackAll(fields))) <==> DistinctNames(fields)
    decreases |fields|
  {
    hide Declared, Unpack, DistinctNames, DistinctStrings;
    if fields == [] {
      DeclaredNothing();
      assert DistinctStrings([]) && DistinctNames([]) by { NothingDistinct(); }
    } else {
      DistinctSnoc(fields);
      var n := |fields| - 1;
      var before, f := fields[..n], fields[n];
      UnpackDeclares(before);
      DeclaredConcat(UnpackAll(before), Unpack(f));
      DeclaredOne(f);
      DistinctJoin(Declared(UnpackAll(before)), Declared(Unpack(f)));
      if i :| 0 <= i < n && fields[i].name == f.name {
        assert LocalOf(before[i], "arg_" + f.name);
        DeclaredAll(before, "arg_" + f.name);
      } else {
        forall x | x in Declared(UnpackAll(before))
          ensures !LocalOf(f, x)
        {
          DeclaredAll(before, x);
          var i :| 0 <= i < n && LocalOf(before[i], x);
          LocalsApart(before[i].name, f.name);
          LocalsApart(f.name, before[i].name);
        }
      }
    }
  }

  lemma FormatDeclares(ev: TraceEvent)
    ensures Declared(FormatOverflow(ev)) == if HasOverflow(ev) then ["overflow_buf"] else []
  {
    hide FormatOf, FormatArgs;
    var format := FormatOverflow(ev);
    if HasOverflow(ev) {
      assert format[1..][1..] == [];
      assert Declared(format[1..]) == [];
    }
  }

  /** The same for the whole handler. */
  lemma HandlerDeclares(ev: TraceEvent)
    ensures DistinctStrings(Declared(Handler(ev))) <==> DistinctNames(ev.fields)
  {
    hide UnpackAll, FormatOverflow, CallArgs, DistinctNames, DistinctStrings, Declared;
    var check, call := [ReturnIfNull("pfn_" + ev.name)], [Call("pfn_" + ev.name, CallArgs(ev))];
    var unpack, format := UnpackAll(ev.fields), FormatOverflow(ev);
    DeclaredConcat(check + unpack + format, call);
    DeclaredConcat(check + unpack, format);
    DeclaredConcat(check, unpack);
    DeclaredSingle(check[0]);
    DeclaredSingle(call[0]);
    FormatDeclares(ev);
    var locals := Declared(unpack);
    assert Declared(Handler(ev)) == locals + Declared(format);
    DistinctJoin(locals, Declared(format));
    OneDistinct(Declared(format));
    BufferNotDeclared(ev.fields);
    UnpackDeclares(ev.fields);
  }

  lemma OneDistinct(names: seq<string>)
    requires |names| <= 1
    ensures DistinctStrings(names)
  {
  }

  lemma BufferNotDeclared(fields: seq<TraceField>)
    ensures "overflow_buf" !in Declared(UnpackAll(fields))
  {
    hide Declared, UnpackAll;
    DeclaredAll(fields, "overflow_buf");
    forall i | 0 <= i < |fields|
      ensures !LocalOf(fields[i], "overflow_buf")
    {
      LocalsApart(fields[i].name, fields[i].name);
    }
  }
}
