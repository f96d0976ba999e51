/**
 Readers of the generated header (tools/mc/HeaderEmitter.cs) that are written on their own: one of
 its constants, as C++ code sees them, and one of its comments, as a person does.
 */
module HeaderReader {
  import opened CodeUnits
  import opened HeaderEmitter
  import opened McParser
  import opened McRoundTrip
  import opened MessageTable
  import opened TranslationPhases
  import opened Wrappers

  // ----- constants -----

  const DEFINING := Ascii("#define ")
  const OPENING := Ascii(" ((")
  const CLOSING := Ascii("L)")
  const GUARD := Ascii("#pragma once")

  /** A macro for a number of a type. */
  datatype Constant = Constant(name: Str, typeName: Str, value: nat)

  predicate IsNameUnit(u: Unit) {
    65 <= u <= 90 || 97 <= u <= 122 || u == 95 || IsDigit(u)
  }

  predicate IsIdentifier(s: Str) {
    s != [] && !IsDigit(s[0]) && forall i :: 0 <= i < |s| ==> IsNameUnit(s[i])
  }

  /** `#define <identifier> ((<type>)<digits>L)` */
  function ReadDefine(line: Str): Option<Constant> {
    if !IsPrefix(DEFINING, line) then None
    else
      var rest := line[8..];
      var n := RunLength(rest, IsNameUnit);
      if !IsIdentifier(rest[..n]) || !IsPrefix(OPENING, rest[n..]) then None
      else ReadValue(rest[..n], rest[n + 3..])
  }

  /** `<type>)<digits>L)` */
  function ReadValue(name: Str, text: Str): Option<Constant> {
    match IndexOf(text, 41)
    case None => None
    case Some(i) =>
      match ReadNumber(text[i + 1..])
      case None => None
      case Some((value, rest)) => if rest == CLOSING then Some(Constant(name, text[..i], value)) else None
  }

  /** The file's constants. */
  function Constants(typedef: Str, ms: seq<Message>): (r: seq<Constant>)
    ensures |r| == |ms| && forall i :: 0 <= i < |ms| ==> r[i] == Constant(ms[i].symbolicName, typedef, ms[i].id)
  {
    seq(|ms|, i requires 0 <= i < |ms| => Constant(ms[i].symbolicName, typedef, ms[i].id))
  }

  function ReadDefines(lines: seq<Str>): Option<seq<Constant>> {
    if lines == [] then Some([])
    else match (ReadDefine(lines[0]), ReadDefines(lines[1..]))
      case (Some(constant), Some(more)) => Some([constant] + more)
      case _ => None
  }

  /** What a C++ compiler finds in a header: `#pragma once`, and constants. */
  function ReadHeader(text: Str): Option<seq<Constant>> {
    match Code(Splice(SplitLines(text)))
    case None => None
    case Some(code) => if code == [] || code[0] != GUARD then None else ReadDefines(code[1..])
  }

  lemma ReadValueIs(name: Str, typedef: Str, id: nat)
    ensures ReadValue(name, typedef + [41] + (Dec(id) + CLOSING)) == Some(Constant(name, typedef, id)) <==> 41 !in typedef
  {
    hide Dec, ReadNumber, Ascii;
    var tail := Dec(id) + CLOSING;
    var text := typedef + [41] + tail;
    if 41 !in typedef {
      IndexOfIs(typedef, 41, tail);
      assert text[..|typedef|] == typedef && text[|typedef| + 1..] == tail;
      Closing();
      ReadDec(id, CLOSING);
    } else {
      var k :| 0 <= k < |typedef| && typedef[k] == 41;
      assert text[k] == 41;
      IndexOfWithin(text, 41, k);
      assert |text[..IndexOf(text, 41).value]| < |typedef|;
    }
  }

  lemma {:induction false} IndexOfWithin(s: Str, u: Unit, k: nat)
    requires k < |s| && s[k] == u
    ensures IndexOf(s, u).Some? && IndexOf(s, u).value <= k
  {
    if s[0] != u {
      IndexOfWithin(s[1..], u, k - 1);
    }
  }

  lemma Closing()
    ensures OPENING == [SPACE, 40, 40] && CLOSING == [76, 41]
  {
  }

  /** What follows a name. */
  function Replacement(typedef: Str, id: nat): Str {
    OPENING + (typedef + [41] + (Dec(id) + CLOSING))
  }

  lemma DefineIs(typedef: Str, m: Message)
    ensures Define(typedef, m) == DEFINING + (m.symbolicName + Replacement(typedef, m.id))
  {
    hide Dec, Ascii;
    Closing();
    assert DEFINING == DEFINE;
    assert OPENING == [SPACE] + [40, 40];
  }

  lemma ReadParts(name: Str, text: Str)
    requires IsIdentifier(name)
    ensures ReadDefine(DEFINING + (name + (OPENING + text))) == ReadValue(name, text)
  {
    hide ReadValue, RunLength, Ascii;
    Lengths();
    var rest := name + (OPENING + text);
    var line := DEFINING + rest;
    assert line[8..] == rest && line[..8] == DEFINING;
    assert rest[|name|] == OPENING[0] == SPACE by { Closing(); }
    RunLengthIs(rest, IsNameUnit, |name|);
    assert rest[..|name|] == name && rest[|name|..] == OPENING + text && rest[|name| + 3..] == text;
  }

  lemma ReadValueStart(name: Str, text: Str)
    requires ReadValue(name, text).Some?
    ensures ReadValue(name, text).value.name == name && ReadValue(name, text).value.typeName <= text
  {
    hide ReadNumber, Ascii;
  }

  lemma PrefixSplits(prefix: Str, s: Str)
    requires IsPrefix(prefix, s)
    ensures s == prefix + s[|prefix|..]
  {
  }

  lemma DefineSplits(line: Str)
    requires ReadDefine(line).Some?
    ensures var rest := line[8..];
            var n := RunLength(rest, IsNameUnit);
            && n + 3 <= |rest| && IsIdentifier(rest[..n]) && ReadDefine(line) == ReadValue(rest[..n], rest[n + 3..])
            && line == DEFINING + (rest[..n] + (OPENING + rest[n + 3..]))
  {
    hide ReadValue, RunLength, IsIdentifier, Ascii;
    Lengths();
    var rest := line[8..];
    var n := RunLength(rest, IsNameUnit);
    PrefixSplits(DEFINING, line);
    PrefixSplits(OPENING, rest[n..]);
    assert rest[n..][3..] == rest[n + 3..];
    assert rest == rest[..n] + rest[n..];
  }

  /** A constant that is read has an identifier for its name, and stands at the start of its line. */
  lemma ReadStart(line: Str)
    requires ReadDefine(line).Some?
    ensures var c := ReadDefine(line).value;
            IsIdentifier(c.name) && DEFINING + c.name + OPENING + c.typeName <= line
  {
    hide ReadDefine, ReadValue, RunLength, IsIdentifier, Ascii;
    DefineSplits(line);
    var rest := line[8..];
    var n := RunLength(rest, IsNameUnit);
    var name, text := rest[..n], rest[n + 3..];
    ReadValueStart(name, text);
    FrontOf(DEFINING, name, OPENING, ReadDefine(line).value.typeName, text);
  }

  lemma Lengths()
    ensures |DEFINING| == 8 && |OPENING| == 3
  {
  }

  lemma FrontOf(a: Str, b: Str, c: Str, d: Str, text: Str)
    requires d <= text
    ensures a + b + c + d <= a + (b + (c + text))
  {
    assert text == d + text[|d|..];
    assert a + (b + (c + text)) == a + b + c + d + text[|d|..];
  }

  /** The line for a message is read as its name, its type and its id, exactly when the name and the type allow it. */
  lemma ReadDefineIs(typedef: Str, m: Message)
    ensures ReadDefine(Define(typedef, m)) == Some(Constant(m.symbolicName, typedef, m.id))
            <==> IsIdentifier(m.symbolicName) && 41 !in typedef
  {
    hide ReadDefine, ReadValue, Define, Dec, Ascii;
    DefineIs(typedef, m);
    if IsIdentifier(m.symbolicName) {
      ReadParts(m.symbolicName, typedef + [41] + (Dec(m.id) + CLOSING));
      ReadValueIs(m.symbolicName, typedef, m.id);
    } else if ReadDefine(Define(typedef, m)).Some? {
      ReadStart(Define(typedef, m));
    }
  }

  predicate Readable(typedef: Str, ms: seq<Message>) {
    forall i :: 0 <= i < |ms| ==> IsIdentifier(ms[i].symbolicName) && 41 !in typedef
  }

  lemma {:induction false} ReadDefinesIs(typedef: Str, ms: seq<Message>)
    ensures ReadDefines(Defines(typedef, ms)) == Some(Constants(typedef, ms)) <==> Readable(typedef, ms)
  {
    hide ReadDefine, Define, IsIdentifier, Constants;
    NoConstants(typedef);
    if ms != [] {
      var d, more := Define(typedef, ms[0]), Defines(typedef, ms[1..]);
      assert ([d] + more)[1..] == more;
      ReadDefineIs(typedef, ms[0]);
      ReadDefinesIs(typedef, ms[1..]);
      ConstantsCons(typedef, ms);
      ReadableCons(typedef, ms);
      var first, later := Constant(ms[0].symbolicName, typedef, ms[0].id), Constants(typedef, ms[1..]);
      if ReadDefine(d).Some? && ReadDefines(more).Some? {
        ConsEqual(ReadDefine(d).value, ReadDefines(more).value, first, later);
      }
    }
  }

  lemma NoConstants(typedef: Str)
    ensures Constants(typedef, []) == []
  {
  }

  lemma ConstantsCons(typedef: Str, ms: seq<Message>)
    requires ms != []
    ensures Constants(typedef, ms) == [Constant(ms[0].symbolicName, typedef, ms[0].id)] + Constants(typedef, ms[1..])
  {
  }

  lemma ReadableCons(typedef: Str, ms: seq<Message>)
    requires ms != []
    ensures Readable(typedef, ms) <==> IsIdentifier(ms[0].symbolicName) && 41 !in typedef && Readable(typedef, ms[1..])
  {
    hide IsIdentifier;
    assert ms == [ms[0]] + ms[1..];
  }

  lemma ConsEqual(x: Constant, xs: seq<Constant>, y: Constant, ys: seq<Constant>)
    ensures [x] + xs == [y] + ys <==> x == y && xs == ys
  {
    assert ([x] + xs)[0] == x && ([x] + xs)[1..] == xs && ([y] + ys)[0] == y && ([y] + ys)[1..] == ys;
  }

  /** Whatever the lines are, only identifiers are read as names. */
  lemma {:induction false} NamesAreIdentifiers(lines: seq<Str>, i: nat)
    requires ReadDefines(lines).Some? && i < |ReadDefines(lines).value|
    ensures IsIdentifier(ReadDefines(lines).value[i].name)
  {
    hide ReadDefine, IsIdentifier;
    ReadStart(lines[0]);
    if i > 0 {
      NamesAreIdentifiers(lines[1..], i - 1);
    }
  }

  // ----- the header of a parsed file -----

  /** What the emitter writes, for the type and the messages of a file. */
  function HeaderText(file: File, name: Str): Str {
    Terminated(HeaderLines(file, name))
  }

  lemma IdentifierIsPlain(s: Str)
    requires IsIdentifier(s)
    ensures NoQuotes(s) && NoOpener(s)
  {
  }

  /** Without a comment in the type's name, the constants are read if and only if they can be. */
  lemma PlainTypeReads(file: File, name: Str)
    requires Clean(file) && NoNewline(name)
    requires file.messages == [] || (NoQuotes(file.typedef) && NoOpener(file.typedef))
    ensures ReadHeader(HeaderText(file, name)) == Some(Constants(file.typedef, file.messages))
            <==> Readable(file.typedef, file.messages)
  {
    hide Clean, Splice, Code, Terminated, HeaderLines, Defines, ReadDefines, NoQuotes, NoOpener, IsIdentifier, Ascii;
    var ms := file.messages;
    if forall i :: 0 <= i < |ms| ==> IsIdentifier(ms[i].symbolicName) {
      forall i | 0 <= i < |ms| ensures NoQuotes(ms[i].symbolicName) && NoOpener(ms[i].symbolicName) {
        IdentifierIsPlain(ms[i].symbolicName);
      }
      CleanGivesDefines(file, name);
      ReadDefinesIs(file.typedef, ms);
      assert ([PRAGMA_ONCE] + Defines(file.typedef, ms))[1..] == Defines(file.typedef, ms);
    } else {
      var i :| 0 <= i < |ms| && !IsIdentifier(ms[i].symbolicName);
      NotRead(HeaderText(file, name), file.typedef, ms, i);
    }
  }

  /** No header reads as constants of which one has no identifier for its name. */
  lemma NotRead(text: Str, typedef: Str, ms: seq<Message>, i: nat)
    requires i < |ms| && !IsIdentifier(ms[i].symbolicName)
    ensures ReadHeader(text) != Some(Constants(typedef, ms))
  {
    hide Splice, Code, SplitLines, ReadDefines, IsIdentifier, Ascii;
    if ReadHeader(text) == Some(Constants(typedef, ms)) {
      NamesAreIdentifiers(Code(Splice(SplitLines(text))).value[1..], i);
    }
  }

  /** The first comment of a `#define` whose type opens one starts before the type ends. */
  lemma OpensBefore(typedef: Str, m: Message)
    requires !NoOpener(typedef)
    ensures var d := Define(typedef, m);
            !NoOpener(d) && d[..FirstOpener(d) + 1] <= DEFINING + m.symbolicName + OPENING + typedef
  {
    hide Define, Dec, Ascii;
    DefineIs(typedef, m);
    var d, front := Define(typedef, m), DEFINING + m.symbolicName + OPENING;
    var close := [41] + (Dec(m.id) + CLOSING);
    assert d == front + typedef + close by {
      assert DEFINING + (m.symbolicName + (OPENING + (typedef + [41] + (Dec(m.id) + CLOSING)))) == front + typedef + close;
    }
    var i :| 0 <= i < |typedef| && OpensAt(typedef, i);
    assert d[|front| + i] == typedef[i] && d[|front| + i + 1] == typedef[i + 1];
    assert OpensAt(d, |front| + i);
    assert d[..FirstOpener(d) + 1] <= front + typedef;
  }

  /** With a comment in the type's name, the first constant is not read as what it should be. */
  lemma SpoiltTypeReads(file: File, name: Str)
    requires Clean(file) && NoNewline(name) && file.messages != []
    requires NoQuotes(file.typedef) && NoQuotes(file.messages[0].symbolicName) && !NoOpener(file.typedef)
    ensures ReadHeader(HeaderText(file, name)) != Some(Constants(file.typedef, file.messages))
  {
    hide Splice, Code, Terminated, HeaderLines, MessageLines, Define, ReadDefine, NoQuotes, NoOpener, FirstOpener, IsIdentifier, Ascii;
    var typedef, ms := file.typedef, file.messages;
    var d := Define(typedef, ms[0]);
    var later := AllMessageLines(typedef, ms[1..]) + [[]];
    SpoiltHeader(file, name);
    DefineShape(typedef, ms[0]);
    OpensBefore(typedef, ms[0]);
    SpoiltLine(d, Splice([[]] + later));
    var code := Code([d] + Splice([[]] + later));
    if ReadHeader(HeaderText(file, name)) == Some(Constants(typedef, ms)) {
      assert ([PRAGMA_ONCE] + code.value)[1..] == code.value;
      ReadStart(code.value[0]);
    }
  }

  lemma SpoiltHeader(file: File, name: Str)
    requires Clean(file) && NoNewline(name) && file.messages != []
    ensures var later := AllMessageLines(file.typedef, file.messages[1..]) + [[]];
            && NoNewline(Define(file.typedef, file.messages[0])) && Splice([[]] + later) != []
            && Code(Splice(SplitLines(HeaderText(file, name))))
               == Ahead([PRAGMA_ONCE], Code([Define(file.typedef, file.messages[0])] + Splice([[]] + later)))
  {
    hide Splice, Code, Terminated, MessageLines, Define, NoNewline, Ascii;
    var typedef, ms := file.typedef, file.messages;
    var body, first := AllMessageLines(typedef, ms), MessageLines(typedef, ms[0]);
    var later := AllMessageLines(typedef, ms[1..]) + [[]];
    AllLinesClean(typedef, ms);
    CleanSplit(first, AllMessageLines(typedef, ms[1..]));
    DefineShape(typedef, ms[0]);
    WholeHeader(file, name);
    assert body + [[]] == first + later;
    assert NoNewline([]) by { NothingClean(); }
    BlockVanishes(typedef, ms[0], later);
    SpliceSome([[]] + later);
  }

  lemma NothingClean()
    ensures NoNewline([])
  {
  }

  lemma WholeHeader(file: File, name: Str)
    requires Clean(file) && NoNewline(name)
    ensures SplitLines(HeaderText(file, name)) == Preamble(name) + (AllMessageLines(file.typedef, file.messages) + [[]])
    ensures Code(Splice(SplitLines(HeaderText(file, name))))
            == Ahead([PRAGMA_ONCE], Code(Splice(AllMessageLines(file.typedef, file.messages) + [[]])))
  {
    hide Splice, Code, Terminated, AllMessageLines, Ascii;
    AllLinesClean(file.typedef, file.messages);
    ConstantsClean();
    var body := AllMessageLines(file.typedef, file.messages);
    TerminatedSplit(HeaderLines(file, name));
    assert HeaderLines(file, name) + [[]] == Preamble(name) + (body + [[]]);
    PreambleGivesPragma(name, body + [[]]);
  }

  /**
   For every source that parses: the code of its header reads as `#pragma once` and, in order, one
   constant per message with the message's name, the file's type and the message's id, if and only
   if the names are identifiers and no parenthesis closes and no comment opens in the type's name.
   */
  lemma ConstantsReadBack(source: Str, name: Str)
    requires NoNewline(name)
    ensures ParseSource(source).Ok? ==>
              var file := ParseSource(source).value;
              NoQuotes(file.typedef) ==>
                (ReadHeader(HeaderText(file, name)) == Some(Constants(file.typedef, file.messages))
                 <==> file.messages == [] || (Readable(file.typedef, file.messages) && NoOpener(file.typedef)))
  {
    hide ParseSource, Clean, ReadHeader, HeaderText, NoQuotes, NoOpener, IsIdentifier;
    ParsedIsClean(source);
    if ParseSource(source).Ok? && NoQuotes(ParseSource(source).value.typedef) {
      var file := ParseSource(source).value;
      var ms := file.messages;
      if ms == [] || NoOpener(file.typedef) {
        PlainTypeReads(file, name);
      } else if IsIdentifier(ms[0].symbolicName) {
        IdentifierIsPlain(ms[0].symbolicName);
        SpoiltTypeReads(file, name);
      } else {
        NotRead(HeaderText(file, name), file.typedef, ms, 0);
      }
    }
  }

  // ----- comments -----

  /** What a header shows of a message: its name, its text, and its line of code. */
  datatype Shown = Shown(name: Str, text: seq<Str>, code: Str)

  const GENERATED_LINE := Ascii("// Generated by mc (Linux). ") + Ascii("DO NOT EDIT.")
  const SOURCE_LINE := Ascii("// Source: ")
  const LINE := Ascii("//")
  const TEXT_LINE := Ascii("// ")
  const NAME_LINE := Ascii("// MessageId: ")
  const TEXT_HEADING := Ascii("// MessageText:")

  /** The lines that start with `// `, up to one that does not, without it. */
  function ReadText(lines: seq<Str>): (r: seq<Str>)
    ensures |r| <= |lines|
  {
    if lines == [] || !IsPrefix(TEXT_LINE, lines[0]) then [] else [lines[0][3..]] + ReadText(lines[1..])
  }

  predicate ShowsName(lines: seq<Str>) {
    && |lines| >= 5
    && lines[0] == lines[2] == lines[4] == LINE
    && IsPrefix(NAME_LINE, lines[1])
    && lines[3] == TEXT_HEADING
  }

  /** The blocks of a header, up to the empty line at its end. */
  function ReadComments(lines: seq<Str>): Option<seq<Shown>>
    decreases |lines|
  {
    if lines == [[]] then Some([])
    else if !ShowsName(lines) then None
    else
      var text := ReadText(lines[5..]);
      var rest := lines[5 + |text|..];
      if |rest| < 3 || rest[0] != LINE || rest[2] != [] then None
      else match ReadComments(rest[3..])
        case None => None
        case Some(more) => Some([Shown(lines[1][14..], text, rest[1])] + more)
  }

  lemma {:induction false} ReadQuote(text: seq<Str>, rest: seq<Str>)
    requires rest != [] && rest[0] == LINE
    ensures ReadText(Quote(text) + rest) == text
  {
    hide Ascii;
    Marks();
    var lines := Quote(text) + rest;
    if text == [] {
      assert lines == rest;
    } else {
      ReadQuote(text[1..], rest);
      assert lines[1..] == Quote(text[1..]) + rest;
      assert lines[0] == TEXT_LINE + text[0];
      assert lines[0][..3] == TEXT_LINE && lines[0][3..] == text[0];
      assert [text[0]] + text[1..] == text;
    }
  }

  lemma Marks()
    ensures LINE == COMMENT && |LINE| == 2 && TEXT_LINE == COMMENT_SPACE && |TEXT_LINE| == 3
    ensures NAME_LINE == MESSAGE_ID_TEXT && |NAME_LINE| == 14 && TEXT_HEADING == MESSAGE_TEXT
  {
  }

  function ShownOf(typedef: Str, ms: seq<Message>): (r: seq<Shown>)
    ensures |r| == |ms|
    ensures forall i :: 0 <= i < |ms| ==>
              r[i] == Shown(ms[i].symbolicName, PreferredLines(ms[i]), Define(typedef, ms[i]))
  {
    seq(|ms|, i requires 0 <= i < |ms| => Shown(ms[i].symbolicName, PreferredLines(ms[i]), Define(typedef, ms[i])))
  }

  lemma BlockReads(typedef: Str, m: Message, rest: seq<Str>)
    ensures var lines := MessageLines(typedef, m) + rest;
            var text := PreferredLines(m);
            && lines != [[]] && ShowsName(lines) && lines[1][14..] == m.symbolicName && ReadText(lines[5..]) == text
            && lines[5 + |text|..] == [COMMENT, Define(typedef, m), []] + rest
  {
    hide Ascii, Define, PreferredLines, ReadText;
    Marks();
    var text := PreferredLines(m);
    var lines := MessageLines(typedef, m) + rest;
    var tail := [COMMENT, Define(typedef, m), []] + rest;
    QuoteLength(text);
    assert lines[5..] == Quote(text) + tail;
    ReadQuote(text, tail);
    assert lines[5 + |text|..] == tail;
    assert lines[1] == NAME_LINE + m.symbolicName;
  }

  lemma {:induction false} QuoteLength(text: seq<Str>)
    ensures |Quote(text)| == |text|
  {
    if text != [] {
      QuoteLength(text[1..]);
    }
  }

  lemma ReadOneComment(lines: seq<Str>, shown: Shown, rest: seq<Str>)
    requires lines != [[]] && ShowsName(lines) && lines[1][14..] == shown.name && ReadText(lines[5..]) == shown.text
    requires lines[5 + |shown.text|..] == [LINE, shown.code, []] + rest
    ensures ReadComments(lines) == match ReadComments(rest) case None => None case Some(more) => Some([shown] + more)
  {
    hide ReadText, Ascii;
    assert ([LINE, shown.code, []] + rest)[3..] == rest;
  }

  lemma {:induction false} CommentsRead(typedef: Str, ms: seq<Message>)
    ensures ReadComments(AllMessageLines(typedef, ms) + [[]]) == Some(ShownOf(typedef, ms))
  {
    hide MessageLines, Define, PreferredLines, ReadText, ShowsName, Ascii;
    Marks();
    var lines := AllMessageLines(typedef, ms) + [[]];
    if ms == [] {
      assert lines == [[]];
    } else {
      hide ReadComments;
      var rest := AllMessageLines(typedef, ms[1..]) + [[]];
      assert lines == MessageLines(typedef, ms[0]) + rest;
      var shown := Shown(ms[0].symbolicName, PreferredLines(ms[0]), Define(typedef, ms[0]));
      BlockReads(typedef, ms[0], rest);
      ReadOneComment(lines, shown, rest);
      CommentsRead(typedef, ms[1..]);
      assert ShownOf(typedef, ms) == [shown] + ShownOf(typedef, ms[1..]);
    }
  }

  /** For every source that parses: after its five lines of preamble the header shows every message's name and text. */
  lemma CommentsReadBack(source: Str, name: Str)
    requires NoNewline(name)
    ensures ParseSource(source).Ok? ==>
              var file := ParseSource(source).value;
              var lines := SplitLines(HeaderText(file, name));
              && |lines| > 5
              && lines[..5] == [GENERATED_LINE, SOURCE_LINE + name, [], GUARD, []]
              && ReadComments(lines[5..]) == Some(ShownOf(file.typedef, file.messages))
  {
    hide ParseSource, Clean, HeaderText, Code, Splice, AllMessageLines, ReadComments, Ascii, SplitLines;
    ParsedIsClean(source);
    if ParseSource(source).Ok? {
      var file := ParseSource(source).value;
      WholeHeader(file, name);
      CommentsRead(file.typedef, file.messages);
      var lines := SplitLines(HeaderText(file, name));
      assert lines[..5] == Preamble(name) && lines[5..] == AllMessageLines(file.typedef, file.messages) + [[]];
    }
  }
}
