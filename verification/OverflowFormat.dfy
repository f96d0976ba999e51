/**
 The overflow text of an event (tools/etwlttng/Emitter.cs, `EmitOverflowFormat`): the generator
 writes one format string and one argument list, by one loop. The meaning is given by a small
 `printf` that takes one argument per conversion and refuses a missing argument, one whose C type
 the conversion does not accept, and a null text.
 */
module OverflowFormat {
  import opened TraceModel
  import opened Wrappers

  /** What a C object holds: a number, a text, a block of bytes, or the address of something. */
  datatype Content =
    | Number(value: int)
    | Wide(units: seq<int>)
    | Narrow(text: string)
    | Block(bytes: seq<int>)
    | Address(target: Content)
    | Null

  /** An argument of a call: its C type and what it holds. */
  datatype Operand = Operand(ctype: string, content: Content)

  // ----- printf -----

  /** The conversion that a format starts with. */
  function ConversionAt(fmt: string): (r: Option<string>)
    ensures r.Some? ==> 2 <= |r.value| <= |fmt| && r.value <= fmt
  {
    if "%u" <= fmt then Some("%u")
    else if "%d" <= fmt then Some("%d")
    else if "%g" <= fmt then Some("%g")
    else if "%s" <= fmt then Some("%s")
    else if "%lx" <= fmt then Some("%lx")
    else if "%llu" <= fmt then Some("%llu")
    else if "%lld" <= fmt then Some("%lld")
    else None
  }

  /** The arguments that a conversion may be given: small integers are promoted, a text must not be null. */
  predicate Accepts(conversion: string, arg: Operand) {
    match conversion
    case "%u" => arg.ctype == "uint8_t" || arg.ctype == "uint16_t" || arg.ctype == "uint32_t"
    case "%d" => arg.ctype == "int32_t"
    case "%g" => arg.ctype == "double"
    case "%s" => arg.ctype == "const char*" && arg.content.Narrow?
    case "%lx" => arg.ctype == "unsigned long"
    case "%llu" => arg.ctype == "unsigned long long"
    case "%lld" => arg.ctype == "long long"
    case _ => false
  }

  /**
   The text that a format produces and the arguments it leaves over; none if an argument is missing
   or not acceptable. `show` is how one conversion prints one value.
   */
  function Printf(fmt: string, args: seq<Operand>, show: (string, Content) -> string): Option<(string, seq<Operand>)>
    decreases |fmt|
  {
    if fmt == "" then Some(("", args))
    else if fmt[0] != '%' then Prefixed([fmt[0]], Printf(fmt[1..], args, show))
    else
      match ConversionAt(fmt)
      case None => None
      case Some(conversion) =>
        if args == [] || !Accepts(conversion, args[0]) then None
        else Prefixed(show(conversion, args[0].content), Printf(fmt[|conversion|..], args[1..], show))
  }

  function Prefixed(text: string, r: Option<(string, seq<Operand>)>): Option<(string, seq<Operand>)> {
    match r
    case None => None
    case Some((more, args)) => Some((text + more, args))
  }

  /** A conversion is recognised whatever follows it. */
  lemma ConversionStable(a: string, b: string)
    requires ConversionAt(a).Some?
    ensures ConversionAt(a + b) == ConversionAt(a)
  {
    var c := ConversionAt(a).value;
    assert forall i :: 0 <= i < |a| ==> (a + b)[i] == a[i];
    assert c <= a + b;
  }

  /** A format that uses up its arguments can be run on its own, before the rest. */
  lemma {:induction false} PrintfConcat(a: string, b: string, args: seq<Operand>, more: seq<Operand>,
                                        show: (string, Content) -> string)
    requires Printf(a, args, show).Some? && Printf(a, args, show).value.1 == []
    ensures Printf(a + b, args + more, show) == Prefixed(Printf(a, args, show).value.0, Printf(b, more, show))
    decreases |a|
  {
    hide ConversionAt, Accepts;
    if a == "" {
      assert a + b == b && args + more == more;
      assert forall t: string :: "" + t == t;
    } else if a[0] != '%' {
      PrintfConcat(a[1..], b, args, more, show);
      assert (a + b)[1..] == a[1..] + b;
      PrefixedTwice([a[0]], Printf(a[1..], args, show).value.0, Printf(b, more, show));
    } else {
      var c := ConversionAt(a).value;
      ConversionStable(a, b);
      PrintfConcat(a[|c|..], b, args[1..], more, show);
      assert (a + b)[|c|..] == a[|c|..] + b;
      assert (args + more)[1..] == args[1..] + more;
      PrefixedTwice(show(c, args[0].content), Printf(a[|c|..], args[1..], show).value.0, Printf(b, more, show));
    }
  }

  lemma PrefixedTwice(x: string, y: string, r: Option<(string, seq<Operand>)>)
    ensures Prefixed(x, Prefixed(y, r)) == Prefixed(x + y, r)
  {
    if r.Some? {
      assert x + (y + r.value.0) == x + y + r.value.0;
    }
  }

  /** A text without `%` prints itself. */
  lemma {:induction false} PrintfLiteral(text: string, show: (string, Content) -> string)
    requires '%' !in text
    ensures Printf(text, [], show) == Some((text, []))
  {
    if text != "" {
      PrintfLiteral(text[1..], show);
      assert [text[0]] + text[1..] == text;
    }
  }

  // ----- the format and its arguments -----

  /** `name=<conversion>`. */
  function FormatItem(f: TraceField): string {
    f.name + "=" + FormatSpec(f)
  }

  /** The items, a space between them. */
  function FormatOf(fields: seq<TraceField>): string
    decreases |fields|, 0
  {
    if fields == [] then "" else FormatItem(fields[0]) + Continued(fields[1..])
  }

  function Continued(fields: seq<TraceField>): string
    decreases |fields|, 1
  {
    if fields == [] then "" else " " + FormatOf(fields)
  }

  /** The arguments, in field order; blobs have none. */
  function FormatArgs(fields: seq<TraceField>): seq<CExpr> {
    if fields == [] then [] else ArgOf(fields[0]) + FormatArgs(fields[1..])
  }

  function ArgOf(f: TraceField): seq<CExpr> {
    match FormatArg(f)
    case None => []
    case Some(e) => [e]
  }

  lemma {:induction false} ArgsSnoc(fields: seq<TraceField>, f: TraceField)
    ensures FormatArgs(fields + [f]) == FormatArgs(fields) + ArgOf(f)
  {
    hide ArgOf;
    if fields == [] {
      assert fields + [f] == [f] && [f][1..] == [];
      assert ArgOf(f) + [] == ArgOf(f);
    } else {
      ArgsSnoc(fields[1..], f);
      assert (fields + [f])[1..] == fields[1..] + [f];
      RegroupArgs(ArgOf(fields[0]), FormatArgs(fields[1..]), ArgOf(f));
    }
  }

  lemma {:induction false} FormatSnoc(fields: seq<TraceField>, f: TraceField)
    ensures FormatOf(fields + [f]) == if fields == [] then FormatItem(f) else FormatOf(fields) + " " + FormatItem(f)
    decreases |fields|
  {
    hide FormatItem;
    if fields == [] {
      assert fields + [f] == [f] && [f][1..] == [];
      assert FormatItem(f) + "" == FormatItem(f);
    } else {
      var head, rest, item := FormatItem(fields[0]), fields[1..], FormatItem(f);
      FormatSnoc(rest, f);
      assert (fields + [f])[1..] == rest + [f];
      assert Continued(rest + [f]) == Continued(rest) + " " + item by {
        if rest != [] {
          RegroupText(" ", FormatOf(rest), item);
        }
      }
      RegroupText(head, Continued(rest), item);
    }
  }

  lemma RegroupArgs(a: seq<CExpr>, b: seq<CExpr>, c: seq<CExpr>)
    ensures (a + b) + c == a + (b + c)
  {
  }

  lemma RegroupText(a: string, b: string, c: string)
    ensures a + (b + " " + c) == (a + b) + " " + c
  {
  }

  /** `EmitOverflowFormat`: the format string and the arguments of the `snprintf`. */
  method EmitOverflowFormat(ev: TraceEvent) returns (fmt: string, args: seq<CExpr>)
    ensures fmt == FormatOf(OverflowFields(ev)) && args == FormatArgs(OverflowFields(ev))
  {
    hide FormatArg, FormatSpec, FormatOf, FormatArgs;
    var overflow := OverflowFields(ev);
    fmt, args := "", [];
    assert FormatOf(overflow[..0]) == "" && FormatArgs(overflow[..0]) == [] by { FormatNothing(); }
    for i := 0 to |overflow|
      invariant fmt == FormatOf(overflow[..i]) && args == FormatArgs(overflow[..i])
    {
      var f := overflow[i];
      if i > 0 {
        fmt := fmt + " ";
      }
      fmt := fmt + f.name + "=" + FormatSpec(f);
      var argument := FormatArg(f);
      if argument.Some? {
        args := args + [argument.value];
      }
      FormatSnoc(overflow[..i], f);
      ArgsSnoc(overflow[..i], f);
      assert overflow[..i + 1] == overflow[..i] + [f];
    }
    assert overflow[..|overflow|] == overflow;
  }

  lemma FormatNothing()
    ensures FormatOf([]) == "" && FormatArgs([]) == []
  {
  }

  // ----- what it prints -----

  /** The type of an argument expression: its cast, or that of a field's unpacked local. */
  function ArgType(f: TraceField): string {
    match FormatArg(f)
    case None => ""
    case Some(e) => if e.cast == "" then ParamType(f) else e.cast
  }

  /** The conversion in a field's format; a blob has none. */
  function Conversion(f: TraceField): string {
    if IsBlob(f) then "" else if f.inType.Pointer? then "%lx" else FormatSpec(f)
  }

  /** What should be printed for one field that holds `c`. */
  function Shown(f: TraceField, c: Content, show: (string, Content) -> string): string {
    f.name + "=" +
    match f.inType
    case UInt8 => show("%u", c)
    case UInt16 => show("%u", c)
    case UInt32 => show("%u", c)
    case UInt64 => show("%llu", c)
    case Int32 => show("%d", c)
    case Int64 => show("%lld", c)
    case Double => show("%g", c)
    case Pointer => "0x" + show("%lx", c)
    case Guid => "(blob)"
    case Binary => "(blob)"
    case UnicodeString => show("%s", c)
    case AnsiString => show("%s", c)
  }

  /** What should be printed for all of them. */
  function OverflowText(fields: seq<TraceField>, contents: seq<Content>, show: (string, Content) -> string): string
    requires |contents| == |fields|
    decreases |fields|, 0
  {
    if fields == [] then ""
    else Shown(fields[0], contents[0], show) + ContinuedText(fields[1..], contents[1..], show)
  }

  function ContinuedText(fields: seq<TraceField>, contents: seq<Content>, show: (string, Content) -> string): string
    requires |contents| == |fields|
    decreases |fields|, 1
  {
    if fields == [] then "" else " " + OverflowText(fields, contents, show)
  }

  /** What the argument expressions evaluate to when each field's local holds its content. */
  function Operands(fields: seq<TraceField>, contents: seq<Content>): seq<Operand>
    requires |contents| == |fields|
  {
    if fields == [] then [] else OperandOf(fields[0], contents[0]) + Operands(fields[1..], contents[1..])
  }

  function OperandOf(f: TraceField, c: Content): seq<Operand> {
    if IsBlob(f) then [] else [Operand(ArgType(f), c)]
  }

  predicate IsText(f: TraceField) {
    f.inType.UnicodeString? || f.inType.AnsiString?
  }

  /** A field can be printed unless it is a text and null. */
  predicate Printable(f: TraceField, c: Content) {
    IsText(f) ==> c.Narrow?
  }

  predicate AllPrintable(fields: seq<TraceField>, contents: seq<Content>)
    requires |contents| == |fields|
  {
    forall i :: 0 <= i < |fields| ==> Printable(fields[i], contents[i])
  }

  /** Arguments and conversions agree: only a blob has neither, and only a null text is refused. */
  lemma ArgumentIffConversion(f: TraceField, c: Content)
    ensures FormatArg(f).None? <==> IsBlob(f)
    ensures !IsBlob(f) ==> FormatArg(f).value.local == "arg_" + f.name
    ensures !IsBlob(f) ==> ConversionAt(Conversion(f)) == Some(Conversion(f))
    ensures !IsBlob(f) ==> (Accepts(Conversion(f), Operand(ArgType(f), c)) <==> Printable(f, c))
  {
    if !IsBlob(f) {
      ConversionKnown(f);
    }
  }

  lemma ConversionKnown(f: TraceField)
    requires !IsBlob(f)
    ensures ConversionAt(Conversion(f)) == Some(Conversion(f))
  {
    var c := Conversion(f);
    assert c == "%u" || c == "%d" || c == "%g" || c == "%s" ==> c[1] == 'u' || c[1] == 'd' || c[1] == 'g' || c[1] == 's';
    assert c == "%lx" || c == "%llu" || c == "%lld" ==> c[1] == 'l';
    assert "%llu"[2] == 'l' && "%llu"[3] == 'u' && "%lld"[2] == 'l' && "%lld"[3] == 'd' && "%lx"[2] == 'x';
    assert "%u"[1] == 'u' && "%d"[1] == 'd' && "%g"[1] == 'g' && "%s"[1] == 's';
  }

  lemma ConversionStarts(f: TraceField)
    requires !IsBlob(f)
    ensures Conversion(f) != "" && Conversion(f)[0] == '%'
  {
  }

  /** One conversion consumes one argument, and is refused exactly for a null text. */
  lemma PrintfConversion(f: TraceField, c: Content, rest: string, more: seq<Operand>, show: (string, Content) -> string)
    requires !IsBlob(f)
    ensures Printf(Conversion(f) + rest, [Operand(ArgType(f), c)] + more, show) ==
            if Printable(f, c) then Prefixed(show(Conversion(f), c), Printf(rest, more, show)) else None
  {
    hide Accepts, FormatSpec, FormatArg, ConversionAt, ArgType, Conversion, Printable;
    ArgumentIffConversion(f, c);
    ConversionStarts(f);
    var conversion, arg := Conversion(f), Operand(ArgType(f), c);
    ConversionStable(conversion, rest);
    assert (conversion + rest)[|conversion|..] == rest && ([arg] + more)[1..] == more;
  }

  /** One item prints its own field, from its own argument, or fails for a null text. */
  lemma PrintfItem(f: TraceField, c: Content, rest: string, more: seq<Operand>, show: (string, Content) -> string)
    requires '%' !in f.name
    ensures Printf(FormatItem(f) + rest, OperandOf(f, c) + more, show) ==
            if Printable(f, c) then Prefixed(Shown(f, c, show), Printf(rest, more, show)) else None
  {
    hide Printf, ArgType, Prefixed;
    var name := f.name + "=";
    assert [] + more == more;
    if IsBlob(f) {
      PrintfLiteral(name + "(blob)", show);
      PrintfConcat(name + "(blob)", rest, [], more, show);
    } else {
      var lead := name + if f.inType.Pointer? then "0x" else "";
      var ops := OperandOf(f, c) + more;
      PrintfLiteral(lead, show);
      PrintfConcat(lead, Conversion(f) + rest, [], ops, show);
      PrintfConversion(f, c, rest, more, show);
      assert [] + ops == ops;
      assert lead + (Conversion(f) + rest) == FormatItem(f) + rest;
      PrefixedTwice(lead, show(Conversion(f), c), Printf(rest, more, show));
      PrefixedNone(lead);
      assert lead + show(Conversion(f), c) == Shown(f, c, show);
    }
  }

  lemma PrefixedNone(text: string)
    ensures Prefixed(text, None) == None
  {
  }

  /**
   The whole format, given the emitted arguments: unless a text is null it prints every overflow
   field by name with its own value and uses up the arguments exactly. If one is, it is undefined.
   */
  lemma {:induction false} OverflowPrints(fields: seq<TraceField>, contents: seq<Content>, show: (string, Content) -> string)
    requires |contents| == |fields|
    requires forall f :: f in fields ==> '%' !in f.name
    ensures Printf(FormatOf(fields), Operands(fields, contents), show) ==
            if AllPrintable(fields, contents) then Some((OverflowText(fields, contents, show), [])) else None
    decreases |fields|
  {
    hide Printf, FormatItem, OperandOf, Shown, Printable;
    if fields == [] {
      PrintfLiteral("", show);
    } else {
      var rest, later := fields[1..], contents[1..];
      OverflowPrints(rest, later, show);
      ContinuedPrints(rest, later, show);
      PrintfItem(fields[0], contents[0], Continued(rest), Operands(rest, later), show);
    }
  }

  /** A space before the rest changes nothing else. */
  lemma ContinuedPrints(fields: seq<TraceField>, contents: seq<Content>, show: (string, Content) -> string)
    requires |contents| == |fields|
    requires Printf(FormatOf(fields), Operands(fields, contents), show) ==
             if AllPrintable(fields, contents) then Some((OverflowText(fields, contents, show), [])) else None
    ensures Printf(Continued(fields), Operands(fields, contents), show) ==
            if AllPrintable(fields, contents) then Some((ContinuedText(fields, contents, show), [])) else None
  {
    hide AllPrintable, FormatOf, OverflowText;
    if fields != [] {
      assert (" " + FormatOf(fields))[1..] == FormatOf(fields);
      assert Continued(fields)[0] == ' ';
    } else {
      assert FormatOf(fields) == "" by { FormatNothing(); }
      assert OverflowText(fields, contents, show) == "" by { NoText(contents, show); }
    }
  }

  lemma NoText(contents: seq<Content>, show: (string, Content) -> string)
    requires contents == []
    ensures OverflowText([], contents, show) == ""
  {
  }
}
