/**
 The C++ header of message constants (tools/mc/HeaderEmitter.cs), proved against the first
 translation phases of section 5.2 of ISO/IEC 14882:2017. Symbolic names and the type name go into
 the header as they are, so the result has an exact condition: no comment may open in them.
 */
module HeaderEmitter {
  import opened CodeUnits
  import opened McParser
  import opened McRoundTrip
  import opened MessageTable
  import opened TranslationPhases
  import opened Wrappers

  const COMMENT_SPACE := Ascii("// ")
  const GENERATED := Ascii("// Generated by mc (Linux). ") + Ascii("DO NOT EDIT.")
  const SOURCE := Ascii("// Source: ")
  const PRAGMA_ONCE := Ascii("#pragma once")
  const MESSAGE_ID_TEXT := Ascii("// MessageId: ")
  const MESSAGE_TEXT := Ascii("// MessageText:")
  const DEFINE := Ascii("#define ")

  // ----- writing -----

  function Quote(lines: seq<Str>): seq<Str> {
    if lines == [] then [] else [COMMENT_SPACE + lines[0]] + Quote(lines[1..])
  }

  function Define(typedef: Str, m: Message): Str {
    DEFINE + m.symbolicName + [SPACE] + [40, 40] + typedef + [41] + Dec(m.id) + [76, 41]
  }

  function CommentBlock(m: Message): seq<Str> {
    [COMMENT, MESSAGE_ID_TEXT + m.symbolicName, COMMENT, MESSAGE_TEXT, COMMENT] + Quote(PreferredLines(m)) + [COMMENT]
  }

  function MessageLines(typedef: Str, m: Message): seq<Str> {
    CommentBlock(m) + [Define(typedef, m), []]
  }

  function AllMessageLines(typedef: Str, ms: seq<Message>): seq<Str> {
    if ms == [] then [] else MessageLines(typedef, ms[0]) + AllMessageLines(typedef, ms[1..])
  }

  function Preamble(name: Str): seq<Str> {
    [GENERATED, SOURCE + name, [], PRAGMA_ONCE, []]
  }

  function HeaderLines(file: File, name: Str): seq<Str> {
    Preamble(name) + AllMessageLines(file.typedef, file.messages)
  }

  /** Every line with its newline. */
  function Terminated(lines: seq<Str>): Str {
    if lines == [] then [] else lines[0] + [LF] + Terminated(lines[1..])
  }

  lemma {:induction false} TerminatedConcat(a: seq<Str>, b: seq<Str>)
    ensures Terminated(a + b) == Terminated(a) + Terminated(b)
  {
    if a == [] {
      assert a + b == b;
    } else {
      TerminatedConcat(a[1..], b);
      assert (a + b)[1..] == a[1..] + b;
      ConcatAssoc(a[0] + [LF], Terminated(a[1..]), Terminated(b));
    }
  }

  method AppendLine(text: Str, line: Str, ghost before: seq<Str>) returns (r: Str)
    requires text == Terminated(before)
    ensures r == Terminated(before + [line])
  {
    r := text + line + [LF];
    TerminatedConcat(before, [line]);
    assert Terminated([line]) == line + [LF] + [];
  }

  method AppendMessage(text: Str, typedef: Str, m: Message, ghost before: seq<Str>) returns (r: Str)
    requires text == Terminated(before)
    ensures r == Terminated(before + MessageLines(typedef, m))
  {
    hide Terminated, Define, Ascii, Quote, PreferredLines;
    r := AppendLine(text, COMMENT, before);
    ghost var done := before + [COMMENT];
    r := AppendLine(r, MESSAGE_ID_TEXT + m.symbolicName, done);
    done := done + [MESSAGE_ID_TEXT + m.symbolicName];
    r := AppendLine(r, COMMENT, done);
    done := done + [COMMENT];
    r := AppendLine(r, MESSAGE_TEXT, done);
    done := done + [MESSAGE_TEXT];
    r := AppendLine(r, COMMENT, done);
    done := done + [COMMENT];
    var body := PreferredLines(m);
    r := AppendQuote(r, body, done);
    done := done + Quote(body);
    r := AppendLine(r, COMMENT, done);
    done := done + [COMMENT];
    r := AppendLine(r, Define(typedef, m), done);
    done := done + [Define(typedef, m)];
    r := AppendLine(r, [], done);
    assert done + [[]] == before + MessageLines(typedef, m);
  }

  method AppendQuote(text: Str, lines: seq<Str>, ghost before: seq<Str>) returns (r: Str)
    requires text == Terminated(before)
    ensures r == Terminated(before + Quote(lines))
  {
    hide Terminated, Ascii;
    r := text;
    assert before + Quote(lines[..0]) == before;
    for i := 0 to |lines|
      invariant r == Terminated(before + Quote(lines[..i]))
    {
      r := AppendLine(r, COMMENT_SPACE + lines[i], before + Quote(lines[..i]));
      QuoteAppend(lines[..i], lines[i]);
      assert lines[..i + 1] == lines[..i] + [lines[i]];
      assert before + Quote(lines[..i]) + [COMMENT_SPACE + lines[i]] == before + Quote(lines[..i + 1]);
    }
    assert lines[..|lines|] == lines;
  }

  lemma {:induction false} QuoteAppend(lines: seq<Str>, line: Str)
    ensures Quote(lines + [line]) == Quote(lines) + [COMMENT_SPACE + line]
  {
    if lines == [] {
      assert lines + [line] == [line] && [line][1..] == [];
    } else {
      QuoteAppend(lines[1..], line);
      assert (lines + [line])[1..] == lines[1..] + [line];
    }
  }

  lemma {:induction false} MessageLinesAppend(typedef: Str, ms: seq<Message>, m: Message)
    ensures AllMessageLines(typedef, ms + [m]) == AllMessageLines(typedef, ms) + MessageLines(typedef, m)
  {
    hide MessageLines;
    if ms == [] {
      assert ms + [m] == [m] && [m][1..] == [];
    } else {
      MessageLinesAppend(typedef, ms[1..], m);
      assert (ms + [m])[1..] == ms[1..] + [m];
    }
  }

  method AppendPreamble(name: Str) returns (text: Str)
    ensures text == Terminated(Preamble(name))
  {
    hide Terminated, Ascii;
    assert Terminated([]) == [] by { TerminatedNothing(); }
    text := AppendLine([], GENERATED, []);
    text := AppendLine(text, SOURCE + name, [] + [GENERATED]);
    text := AppendLine(text, [], [] + [GENERATED] + [SOURCE + name]);
    text := AppendLine(text, PRAGMA_ONCE, [] + [GENERATED] + [SOURCE + name] + [[]]);
    text := AppendLine(text, [], [] + [GENERATED] + [SOURCE + name] + [[]] + [PRAGMA_ONCE]);
    assert [] + [GENERATED] + [SOURCE + name] + [[]] + [PRAGMA_ONCE] + [[]] == Preamble(name);
  }

  lemma TerminatedNothing()
    ensures Terminated([]) == []
  {
  }

  method EmitHeader(file: File, name: Str) returns (text: Str)
    ensures text == Terminated(HeaderLines(file, name))
  {
    hide Terminated, MessageLines, Ascii;
    ghost var preamble := Preamble(name);
    text := AppendPreamble(name);
    assert preamble + AllMessageLines(file.typedef, file.messages[..0]) == preamble;
    for i := 0 to |file.messages|
      invariant text == Terminated(preamble + AllMessageLines(file.typedef, file.messages[..i]))
    {
      var m := file.messages[i];
      text := AppendMessage(text, file.typedef, m, preamble + AllMessageLines(file.typedef, file.messages[..i]));
      MessageLinesAppend(file.typedef, file.messages[..i], m);
      assert file.messages[..i + 1] == file.messages[..i] + [m];
      assert preamble + AllMessageLines(file.typedef, file.messages[..i]) + MessageLines(file.typedef, m)
             == preamble + AllMessageLines(file.typedef, file.messages[..i + 1]);
    }
    assert file.messages[..|file.messages|] == file.messages;
  }

  // ----- the header as a C++ compiler reads it -----

  lemma DefineShape(typedef: Str, m: Message)
    ensures var d := Define(typedef, m); !Continued(d) && d != [] && !IsWhite(d[0]) && d[0] != SLASH
    ensures NoNewline(typedef) && NoNewline(m.symbolicName) ==> NoNewline(Define(typedef, m))
    ensures NoQuotes(typedef) && NoQuotes(m.symbolicName) ==> NoQuotes(Define(typedef, m))
  {
    hide Dec;
    var d := Define(typedef, m);
    assert d[|d| - 1] == 41;
    assert d[0] == DEFINE[0] == 35;
    assert forall i :: 0 <= i < |Dec(m.id)| ==> 48 <= Dec(m.id)[i] <= 57;
    assert forall i :: 0 <= i < |DEFINE| ==> DEFINE[i] != QUOTE && DEFINE[i] != APOSTROPHE && DEFINE[i] != LF;
  }

  /** No comment opens across a seam where a slash does not end or nothing goes on that opens one. */
  lemma OpenerJoin(a: Str, b: Str)
    requires a == [] || b == [] || a[|a| - 1] != SLASH || (b[0] != SLASH && b[0] != STAR)
    ensures NoOpener(a + b) <==> NoOpener(a) && NoOpener(b)
  {
    var s := a + b;
    forall i | 0 <= i < |a|
      ensures OpensAt(a, i) <==> OpensAt(s, i)
    {
      assert i + 1 < |a| ==> s[i + 1] == a[i + 1];
      assert i + 1 == |a| && b != [] ==> s[i + 1] == b[0];
    }
    forall i | 0 <= i < |b|
      ensures OpensAt(b, i) <==> OpensAt(s, |a| + i)
    {
      assert s[|a| + i] == b[i];
      assert i + 1 < |b| ==> s[|a| + i + 1] == b[i + 1];
    }
    if NoOpener(s) {
      forall i | 0 <= i < |b|
        ensures !OpensAt(b, i)
      {
        assert !OpensAt(s, |a| + i);
      }
    }
    if NoOpener(a) && NoOpener(b) {
      forall i | 0 <= i < |s|
        ensures !OpensAt(s, i)
      {
        if i >= |a| {
          assert !OpensAt(b, i - |a|) && s[|a| + (i - |a|)] == s[i];
        }
      }
    }
  }

  /** A comment opens in a `#define` exactly when one opens in its name or its type. */
  lemma DefineOpener(typedef: Str, m: Message)
    ensures NoOpener(Define(typedef, m)) <==> NoOpener(m.symbolicName) && NoOpener(typedef)
  {
    hide Dec, NoOpener, Ascii;
    var open, close := [SPACE, 40, 40], [41] + Dec(m.id) + [76, 41];
    ConstantsPlain();
    DigitsPlain(m.id);
    OpenerJoin(DEFINE, m.symbolicName);
    OpenerJoin(DEFINE + m.symbolicName, open);
    OpenerJoin(DEFINE + m.symbolicName + open, typedef);
    OpenerJoin(DEFINE + m.symbolicName + open + typedef, close);
    assert Define(typedef, m) == DEFINE + m.symbolicName + open + typedef + close;
  }

  lemma ConstantsPlain()
    ensures NoOpener(DEFINE) && DEFINE[|DEFINE| - 1] == SPACE && NoOpener([SPACE, 40, 40])
  {
    assert forall i :: 0 <= i < |DEFINE| ==> DEFINE[i] != SLASH;
  }

  lemma DigitsPlain(n: nat)
    ensures NoOpener([41] + Dec(n) + [76, 41])
  {
    var s := [41] + Dec(n) + [76, 41];
    assert forall i :: 0 <= i < |s| ==> s[i] != SLASH;
  }

  lemma {:induction false} QuotesAreComments(lines: seq<Str>)
    ensures forall i :: 0 <= i < |Quote(lines)| ==> IsComment(Quote(lines)[i])
  {
    if lines != [] {
      QuotesAreComments(lines[1..]);
      CommentSpace(lines[0]);
    }
  }

  lemma CommentSpace(line: Str)
    ensures IsComment(COMMENT_SPACE + line) && IsComment(MESSAGE_ID_TEXT + line) && IsComment(SOURCE + line)
    ensures IsComment(COMMENT) && IsComment(MESSAGE_TEXT) && !Continued(COMMENT)
    ensures IsComment(GENERATED) && !Continued(GENERATED)
  {
    assert COMMENT_SPACE[..2] == COMMENT && MESSAGE_ID_TEXT[..2] == COMMENT && SOURCE[..2] == COMMENT;
    assert MESSAGE_TEXT[..2] == COMMENT && GENERATED[..2] == COMMENT;
    assert (COMMENT_SPACE + line)[..2] == COMMENT_SPACE[..2];
    assert (MESSAGE_ID_TEXT + line)[..2] == MESSAGE_ID_TEXT[..2];
    assert (SOURCE + line)[..2] == SOURCE[..2];
  }

  /** The comment block of a message vanishes, whatever its lines end in. */
  lemma BlockVanishes(typedef: Str, m: Message, rest: seq<Str>)
    requires CleanLines(MessageLines(typedef, m)) && CleanLines(rest)
    ensures Code(Splice(MessageLines(typedef, m) + rest)) == Code([Define(typedef, m)] + Splice([[]] + rest))
  {
    hide Splice, Code, Define, Ascii, IsComment, Continued, PreferredLines;
    CommentSpace(m.symbolicName);
    QuotesAreComments(PreferredLines(m));
    DefineShape(typedef, m);
    var block := CommentBlock(m);
    var tail := [Define(typedef, m)] + ([[]] + rest);
    assert MessageLines(typedef, m) + rest == block + tail;
    assert block[|block| - 1] == COMMENT;
    assert forall i :: 0 <= i < |block| ==> block[i] == MessageLines(typedef, m)[i];
    assert MessageLines(typedef, m)[|block|] == Define(typedef, m);
    CommentsVanish(block, tail);
    SpliceLine(Define(typedef, m), [[]] + rest);
  }

  /** One message leaves its `#define` if no comment opens in it, and something else if one does. */
  lemma MessageGivesDefine(typedef: Str, m: Message, rest: seq<Str>)
    requires CleanLines(MessageLines(typedef, m)) && CleanLines(rest) && rest != []
    requires NoQuotes(typedef) && NoQuotes(m.symbolicName)
    ensures var r := Code(Splice(MessageLines(typedef, m) + rest));
            if NoOpener(m.symbolicName) && NoOpener(typedef) then r == Ahead([Define(typedef, m)], Code(Splice(rest)))
            else r.None? || r.value == [] || r.value[0] != Define(typedef, m)
  {
    hide Splice, Code, Define, CommentBlock, NoOpener, NoQuotes, Ascii;
    var d := Define(typedef, m);
    BlockVanishes(typedef, m, rest);
    DefineShape(typedef, m);
    DefineOpener(typedef, m);
    assert MessageLines(typedef, m)[|CommentBlock(m)|] == d;
    SpliceLine([], rest);
    var next := Splice(rest);
    assert next != [] by { SpliceSome(rest); }
    if NoOpener(d) {
      CodeLine(d, [[]] + next);
      NotBlank(d);
      EmptyLine(next);
    } else {
      SpoiltLine(d, [[]] + next);
    }
  }

  lemma SpliceSome(lines: seq<Str>)
    requires lines != []
    ensures Splice(lines) != []
  {
  }

  function Defines(typedef: Str, ms: seq<Message>): seq<Str> {
    if ms == [] then [] else [Define(typedef, ms[0])] + Defines(typedef, ms[1..])
  }

  predicate Unquoted(typedef: Str, ms: seq<Message>) {
    forall i :: 0 <= i < |ms| ==> NoQuotes(typedef) && NoQuotes(ms[i].symbolicName)
  }

  /** No comment opens in a symbolic name, nor, if there is any message, in the type's name. */
  predicate Unopened(typedef: Str, ms: seq<Message>) {
    forall i :: 0 <= i < |ms| ==> NoOpener(typedef) && NoOpener(ms[i].symbolicName)
  }

  lemma {:induction false} MessagesGiveDefines(typedef: Str, ms: seq<Message>, rest: seq<Str>)
    requires CleanLines(AllMessageLines(typedef, ms)) && CleanLines(rest) && rest != [] && Unquoted(typedef, ms)
    ensures var r := Code(Splice(AllMessageLines(typedef, ms) + rest));
            if Unopened(typedef, ms) then r == Ahead(Defines(typedef, ms), Code(Splice(rest)))
            else r.None? || !(Defines(typedef, ms) <= r.value)
  {
    hide Splice, Code, Define, MessageLines, NoOpener, NoQuotes;
    if ms == [] {
      assert AllMessageLines(typedef, ms) + rest == rest;
      assert Code(Splice(rest)).Some? ==> [] + Code(Splice(rest)).value == Code(Splice(rest)).value;
    } else {
      var first, later := MessageLines(typedef, ms[0]), AllMessageLines(typedef, ms[1..]);
      assert AllMessageLines(typedef, ms) == first + later;
      CleanSplit(first, later);
      MessagesGiveDefines(typedef, ms[1..], rest);
      MessageGivesDefine(typedef, ms[0], later + rest);
      assert first + later + rest == first + (later + rest);
      UnopenedSplit(typedef, ms);
      DefinesAhead(typedef, ms, Code(Splice(later + rest)), Code(Splice(rest)));
    }
  }

  lemma CleanSplit(a: seq<Str>, b: seq<Str>)
    requires CleanLines(a + b)
    ensures CleanLines(a) && CleanLines(b)
  {
    assert forall i :: 0 <= i < |a| ==> (a + b)[i] == a[i];
    assert forall i :: 0 <= i < |b| ==> (a + b)[|a| + i] == b[i];
  }

  lemma UnopenedSplit(typedef: Str, ms: seq<Message>)
    requires ms != []
    ensures Unopened(typedef, ms) <==>
            NoOpener(ms[0].symbolicName) && NoOpener(typedef) && Unopened(typedef, ms[1..])
  {
    hide NoOpener;
    if Unopened(typedef, ms[1..]) && NoOpener(ms[0].symbolicName) && NoOpener(typedef) {
      forall i | 0 <= i < |ms|
        ensures NoOpener(typedef) && NoOpener(ms[i].symbolicName)
      {
        assert i > 0 ==> ms[i] == ms[1..][i - 1];
      }
    }
  }

  /** One more `#define` in front, for both outcomes of the rest. */
  lemma DefinesAhead(typedef: Str, ms: seq<Message>, later: Option<seq<Str>>, rest: Option<seq<Str>>)
    requires ms != []
    ensures later == Ahead(Defines(typedef, ms[1..]), rest) ==>
              Ahead([Define(typedef, ms[0])], later) == Ahead(Defines(typedef, ms), rest)
    ensures later.Some? && Defines(typedef, ms) <= [Define(typedef, ms[0])] + later.value ==>
              Defines(typedef, ms[1..]) <= later.value
  {
    hide Define;
    var d, more := Define(typedef, ms[0]), Defines(typedef, ms[1..]);
    AheadTwice([d], more, rest);
    if later.Some? && [d] + more <= [d] + later.value {
      PrefixCancel(d, more, later.value);
    }
  }

  lemma AheadTwice(a: seq<Str>, b: seq<Str>, r: Option<seq<Str>>)
    ensures Ahead(a, Ahead(b, r)) == Ahead(a + b, r)
  {
    if r.Some? {
      assert a + (b + r.value) == a + b + r.value;
    }
  }

  lemma PrefixCancel(d: Str, a: seq<Str>, b: seq<Str>)
    requires [d] + a <= [d] + b
    ensures a <= b
  {
    assert a == ([d] + a)[1..] && b == ([d] + b)[1..];
  }

  /** The source's file name may end in a backslash: the line it swallows is empty. */
  lemma PreambleGivesPragma(name: Str, rest: seq<Str>)
    requires NoNewline(name) && CleanLines(rest) && rest != []
    ensures Code(Splice(Preamble(name) + rest)) == Ahead([PRAGMA_ONCE], Code(Splice(rest)))
  {
    hide Ascii, IsComment, Code, Splice, NoOpener, NoQuotes;
    CommentSpace(name);
    ConstantsClean();
    PragmaIsCode();
    var source := SOURCE + name;
    var tail := [PRAGMA_ONCE] + ([[]] + rest);
    assert Preamble(name) + rest == [GENERATED] + ([source] + ([[]] + tail));
    CommentsVanish([GENERATED], [source] + ([[]] + tail));
    SourceLineVanishes(source, tail);
    var next := Splice(rest);
    assert next != [] by { SpliceSome(rest); }
    SpliceLine(PRAGMA_ONCE, [[]] + rest);
    SpliceLine([], rest);
    CodeLine(PRAGMA_ONCE, [[]] + next);
    NotBlank(PRAGMA_ONCE);
    EmptyLine(next);
  }

  lemma SourceLineVanishes(source: Str, tail: seq<Str>)
    requires IsComment(source) && NoNewline(source) && CleanLines(tail) && tail != []
    ensures Code(Splice([source] + ([[]] + tail))) == Code(Splice(tail))
  {
    hide Ascii, IsComment, Code;
    var all := [source] + ([[]] + tail);
    assert all[1..] == [[]] + tail && ([[]] + tail)[1..] == tail;
    assert Splice([[]] + tail) == [[]] + Splice(tail);
    if Continued(source) {
      MergedComment(source, []);
      assert Splice(all) == [source[..|source| - 1] + []] + Splice(tail);
      CommentLine(source[..|source| - 1] + [], Splice(tail));
    } else {
      assert Splice(all) == [source] + ([[]] + Splice(tail));
      CommentLine(source, [[]] + Splice(tail));
      EmptyLine(Splice(tail));
    }
  }

  lemma PragmaIsCode()
    ensures !Continued(PRAGMA_ONCE) && PRAGMA_ONCE != [] && !IsWhite(PRAGMA_ONCE[0])
    ensures NoOpener(PRAGMA_ONCE) && NoQuotes(PRAGMA_ONCE)
  {
    assert PRAGMA_ONCE[0] == 35 && PRAGMA_ONCE[11] == 101;
    assert forall i :: 0 <= i < |PRAGMA_ONCE| ==> PRAGMA_ONCE[i] != SLASH && PRAGMA_ONCE[i] != QUOTE && PRAGMA_ONCE[i] != APOSTROPHE;
  }

  // ----- files that the parser produces -----

  predicate CleanBodies(bodies: seq<Body>) {
    forall i :: 0 <= i < |bodies| ==> CleanLines(bodies[i].lines)
  }

  predicate CleanMessages(ms: seq<Message>) {
    forall i :: 0 <= i < |ms| ==> NoNewline(ms[i].symbolicName) && CleanBodies(ms[i].bodies)
  }

  predicate Clean(file: File) {
    NoNewline(file.typedef) && CleanMessages(file.messages)
  }

  lemma TrimClean(s: Str)
    requires NoNewline(s)
    ensures NoNewline(Trim(s))
  {
  }

  lemma KeyValueClean(line: Str, key: Str)
    requires NoNewline(line) && KeyValue(line, key).Some?
    ensures NoNewline(Trim(KeyValue(line, key).value))
  {
    TrimClean(KeyValue(line, key).value);
  }

  lemma {:induction false} TextClean(rest: seq<Str>)
    requires CleanLines(rest)
    ensures CleanLines(Text(rest)) && CleanLines(AfterText(rest))
  {
    if rest != [] {
      TextClean(rest[1..]);
    }
  }

  lemma {:induction false} SetBodyClean(bodies: seq<Body>, language: Str, lines: seq<Str>)
    requires CleanBodies(bodies) && CleanLines(lines)
    ensures CleanBodies(SetBody(bodies, language, lines))
  {
    if bodies != [] {
      SetBodyClean(bodies[1..], language, lines);
    }
  }

  predicate CleanBlock(block: Block) {
    (block.symbolicName.Some? ==> NoNewline(block.symbolicName.value)) && CleanBodies(block.bodies)
  }

  lemma BlockLineClean(line: Str, block: Block)
    requires NoNewline(line) && CleanBlock(block)
    ensures CleanBlock(Apply(block, BlockLineOf(line)))
  {
    hide KeyValue, Trim, Ignorable;
    if KeyValue(line, SYMBOLIC_NAME).Some? {
      KeyValueClean(line, SYMBOLIC_NAME);
    }
  }

  lemma {:induction false} BlockClean(rest: seq<Str>, block: Block)
    requires CleanLines(rest) && CleanBlock(block)
    ensures CleanBlock(ReadBlock(rest, block).0) && CleanLines(ReadBlock(rest, block).1)
    decreases |rest|
  {
    hide BlockLineOf, Apply, NoNewline, Text, AfterText, Trim, SetBody;
    if rest != [] {
      var line := BlockLineOf(rest[0]);
      TextClean(rest[1..]);
      if line.LanguageLine? {
        SetBodyClean(block.bodies, Trim(line.value), Text(rest[1..]));
        BlockClean(AfterText(rest[1..]), ApplyText(block, line.value, Text(rest[1..])));
      } else if !line.EndOfBlock? {
        BlockLineClean(rest[0], block);
        BlockClean(rest[1..], Apply(block, line));
      }
    }
  }

  lemma TypedefClean(line: Str)
    requires NoNewline(line) && FileLineOf(line).TypedefLine?
    ensures NoNewline(Trim(FileLineOf(line).value))
  {
    hide KeyValue, Trim, Ignorable;
    KeyValueClean(line, MESSAGE_ID_TYPEDEF);
  }

  lemma {:induction false} RestClean(rest: seq<Str>, at: nat, lastId: nat, inHeader: bool, file: File)
    requires CleanLines(rest) && Clean(file)
    ensures ParseRest(rest, at, lastId, inHeader, file).Ok? ==> Clean(ParseRest(rest, at, lastId, inHeader, file).value)
    decreases |rest|
  {
    hide FileLineOf, ReadBlock, ParseLanguage, ParseMessageId, NoNewline, CleanBodies, Trim, Truncate;
    if rest != [] {
      match FileLineOf(rest[0]) {
        case Skip =>
          RestClean(rest[1..], at + 1, lastId, inHeader, file);
        case TypedefLine(value) =>
          TypedefClean(rest[0]);
          RestClean(rest[1..], at + 1, lastId, inHeader, file.(typedef := Trim(value)));
        case LanguageNamesLine(value) =>
          var language := ParseLanguage(value, at + 1);
          if language.Ok? {
            RestClean(rest[1..], at + 1, lastId, inHeader, file.(languages := file.languages + [language.value]));
          }
        case IgnoredDirective =>
          RestClean(rest[1..], at + 1, lastId, inHeader, file);
        case MessageIdLine(value) =>
          var id := ParseMessageId(value, lastId);
          var (block, tail) := ReadBlock(rest[1..], EMPTY_BLOCK);
          EmptyBlockClean();
          BlockClean(rest[1..], EMPTY_BLOCK);
          if id.Some? && block.symbolicName.Some? {
            var message := MakeMessage(id.value, block, at + 1).value;
            RestClean(tail, at + |rest| - |tail|, id.value, false, file.(messages := file.messages + [message]));
          }
        case Unexpected =>
      }
    }
  }

  lemma EmptyBlockClean()
    ensures CleanBlock(EMPTY_BLOCK)
  {
  }

  lemma ParsedIsClean(source: Str)
    ensures ParseSource(source).Ok? ==> Clean(ParseSource(source).value)
  {
    hide ParseRest, SplitLines, TrimEndCr;
    var lines := SplitLines(source);
    forall i | 0 <= i < |lines| ensures NoNewline(TrimLines(lines)[i]) {
      TrimEndCrDrops(lines[i]);
    }
    assert Clean(EMPTY_FILE);
    RestClean(TrimLines(lines), 0, 0, true, EMPTY_FILE);
  }

  // ----- the whole header -----

  lemma {:induction false} TerminatedSplit(lines: seq<Str>)
    requires CleanLines(lines)
    ensures SplitLines(Terminated(lines)) == lines + [[]]
  {
    if lines != [] {
      TerminatedSplit(lines[1..]);
      SplitPiece(lines[0], Terminated(lines[1..]));
      assert lines[0] + [LF] + Terminated(lines[1..]) == Terminated(lines);
    }
  }

  lemma {:induction false} QuoteClean(lines: seq<Str>)
    requires CleanLines(lines)
    ensures CleanLines(Quote(lines))
  {
    if lines != [] {
      QuoteClean(lines[1..]);
      ConstantsClean();
    }
  }

  lemma ConstantsClean()
    ensures NoNewline(COMMENT) && NoNewline(COMMENT_SPACE) && NoNewline(GENERATED) && NoNewline(SOURCE)
    ensures NoNewline(PRAGMA_ONCE) && NoNewline(MESSAGE_ID_TEXT) && NoNewline(MESSAGE_TEXT) && NoNewline(DEFINE)
  {
  }

  lemma {:induction false} PreferredClean(m: Message)
    requires CleanBodies(m.bodies)
    ensures CleanLines(PreferredLines(m))
  {
    GetBodyClean(m.bodies, ENGLISH);
  }

  lemma {:induction false} GetBodyClean(bodies: seq<Body>, language: Str)
    requires CleanBodies(bodies)
    ensures GetBody(bodies, language).Some? ==> CleanLines(GetBody(bodies, language).value)
  {
    if bodies != [] {
      GetBodyClean(bodies[1..], language);
    }
  }

  lemma MessageLinesClean(typedef: Str, m: Message)
    requires NoNewline(typedef) && NoNewline(m.symbolicName) && CleanBodies(m.bodies)
    ensures CleanLines(MessageLines(typedef, m))
  {
    hide Ascii, PreferredLines, Quote, Dec;
    ConstantsClean();
    PreferredClean(m);
    QuoteClean(PreferredLines(m));
  }

  lemma {:induction false} AllLinesClean(typedef: Str, ms: seq<Message>)
    requires NoNewline(typedef) && CleanMessages(ms)
    ensures CleanLines(AllMessageLines(typedef, ms))
  {
    hide MessageLines, NoNewline;
    if ms != [] {
      MessageLinesClean(typedef, ms[0]);
      AllLinesClean(typedef, ms[1..]);
    }
  }

  /** The header of any file whose parts have no newline and no quotes. */
  lemma CleanGivesDefines(file: File, name: Str)
    requires Clean(file) && NoNewline(name) && Unquoted(file.typedef, file.messages)
    ensures Code(Splice(SplitLines(Terminated(HeaderLines(file, name))))) == Some([PRAGMA_ONCE] + Defines(file.typedef, file.messages))
            <==> Unopened(file.typedef, file.messages)
  {
    hide Splice, Code, Ascii, Terminated, AllMessageLines, Defines, Unopened, Unquoted;
    AllLinesClean(file.typedef, file.messages);
    ConstantsClean();
    var body, defines := AllMessageLines(file.typedef, file.messages), Defines(file.typedef, file.messages);
    TerminatedSplit(HeaderLines(file, name));
    assert HeaderLines(file, name) + [[]] == Preamble(name) + (body + [[]]);
    PreambleGivesPragma(name, body + [[]]);
    MessagesGiveDefines(file.typedef, file.messages, [[]]);
    NoCode();
    assert defines + [] == defines;
    var r := Code(Splice(body + [[]]));
    if r.Some? && [PRAGMA_ONCE] + r.value == [PRAGMA_ONCE] + defines {
      assert r.value == ([PRAGMA_ONCE] + r.value)[1..] == ([PRAGMA_ONCE] + defines)[1..] == defines;
    }
  }

  /**
   Whatever the texts of the messages end in, after line splicing and comment removal the header of
   a parsed file is `#pragma once` and one `#define` per message, in order, if and only if no
   comment opens in a symbolic name or, when there are messages, in the type's name.
   */
  lemma OneDefinePerMessage(source: Str, name: Str)
    requires NoNewline(name)
    ensures ParseSource(source).Ok? && Unquoted(ParseSource(source).value.typedef, ParseSource(source).value.messages) ==>
              var file := ParseSource(source).value;
              Code(Splice(SplitLines(Terminated(HeaderLines(file, name))))) == Some([PRAGMA_ONCE] + Defines(file.typedef, file.messages))
              <==> Unopened(file.typedef, file.messages)
  {
    hide ParseSource, Splice, Code, Terminated, HeaderLines, Defines, Clean, Unquoted, Unopened;
    ParsedIsClean(source);
    if ParseSource(source).Ok? && Unquoted(ParseSource(source).value.typedef, ParseSource(source).value.messages) {
      CleanGivesDefines(ParseSource(source).value, name);
    }
  }

  lemma NoCode()
    ensures Code(Splice([[]])) == Some([])
  {
    assert Splice([[]]) == [[]];
    assert Strip([]) == Some([]) && SplitLines([]) == [[]] && Blank([]);
    assert NonBlank([[]]) == [] + NonBlank([]);
  }

  // ----- where it fails -----

  function Named(name: Str): Entry {
    Entry([], None, name, None, None, [])
  }

  const COMMENTED_NAME := Ascii("A/*")
  const SPOILT := Canonical([], [Named(COMMENTED_NAME), Named(Ascii("B"))], [])

  /** A well-formed file, with a name that opens a comment, whose header is not one `#define` per message. */
  lemma CommentInNameSpoils(name: Str)
    requires NoNewline(name)
    ensures ParseSource(Render(SPOILT)) == Ok(FileOf(SPOILT))
    ensures var file := FileOf(SPOILT);
            Code(Splice(SplitLines(Terminated(HeaderLines(file, name))))) != Some([PRAGMA_ONCE] + Defines(file.typedef, file.messages))
  {
    hide ParseSource, Render, Splice, Code, Terminated, HeaderLines, Defines, Clean, NextAt;
    assert Good(SPOILT) by { SpoiltIsGood(); }
    ParseInvertsRender(SPOILT);
    var file := FileOf(SPOILT);
    ParsedIsClean(Render(SPOILT));
    SpoiltParts();
    CleanGivesDefines(file, name);
  }

  lemma SpoiltIsGood()
    ensures Good(SPOILT)
  {
    assert COMMENTED_NAME == [65, 47, 42] && Ascii("B") == [66];
  }

  lemma SpoiltParts()
    ensures var file := FileOf(SPOILT); Unquoted(file.typedef, file.messages) && !Unopened(file.typedef, file.messages)
  {
    hide NextAt, Collect, IdOf;
    assert COMMENTED_NAME == [65, 47, 42] && Ascii("B") == [66] && Ascii("ULONG") == [85, 76, 79, 78, 71];
    var file := FileOf(SPOILT);
    var es := SPOILT.entries;
    assert es[1..] == [es[1]];
    var at := |SPOILT.header| + |GapBefore(es, SPOILT.end)|;
    var later := MessagesOf(es[1..], SPOILT.end, IdOf(es[0], 0), NextAt(es[0], es[1..], SPOILT.end, at));
    assert file.messages == [MessageOf(es[0], 0, at)] + later;
    assert later[0].symbolicName == es[1].symbolicName;
    assert file.messages[0].symbolicName == COMMENTED_NAME && file.messages[1].symbolicName == Ascii("B");
    assert OpensAt(file.messages[0].symbolicName, 1);
    assert file.typedef == Ascii("ULONG");
  }
}
