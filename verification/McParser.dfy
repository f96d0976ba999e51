/**
 The message-text parser of the message compiler (tools/mc/McParser.cs, tools/mc/Model.cs).

 The functions give the meaning of a list of lines from which trailing carriage returns have
 been removed; the methods are the parser's loops over raw lines, proved to compute it.
 */
module McParser {
  import opened CodeUnits
  import opened Wrappers

  // ----- model -----

  datatype Language = Language(name: Str, langId: nat, fileBase: Str)

  datatype Body = Body(language: Str, lines: seq<Str>)

  /** `bodies` is a dictionary in insertion order. */
  datatype Message = Message(
    id: nat,
    symbolicName: Str,
    severity: Option<Str>,
    facility: Option<Str>,
    bodies: seq<Body>,
    sourceLine: nat)

  datatype File = File(typedef: Str, languages: seq<Language>, messages: seq<Message>)

  datatype ErrorKind =
    | TypedefAfterMessage
    | LanguagesAfterMessage
    | DirectiveAfterMessage
    | MalformedLanguage(spec: Str)
    | MalformedLanguageId(text: Str)
    | MalformedMessageId(text: Str)
    | NoSymbolicName(id: nat)
    | UnexpectedLine(text: Str)

  datatype Error = Error(line: nat, kind: ErrorKind)

  datatype Result<+T> = Ok(value: T) | Err(error: Error)

  const MESSAGE_ID_TYPEDEF := Ascii("MessageIdTypedef")
  const LANGUAGE_NAMES := Ascii("LanguageNames")
  const OUTPUT_BASE := Ascii("OutputBase")
  const SEVERITY_NAMES := Ascii("SeverityNames")
  const FACILITY_NAMES := Ascii("FacilityNames")
  const MESSAGE_ID := Ascii("MessageId")
  const SYMBOLIC_NAME := Ascii("SymbolicName")
  const SEVERITY := Ascii("Severity")
  const FACILITY := Ascii("Facility")
  const LANGUAGE := Ascii("Language")

  const EMPTY_FILE := File(Ascii("ULONG"), [], [])

  // ----- lines -----

  predicate IsBlank(u: Unit) {
    u == SPACE || u == TAB
  }

  /** A blank line or a `;` comment. */
  predicate Ignorable(line: Str) {
    var trimmed := TrimStart(line);
    trimmed == [] || trimmed[0] == SEMICOLON
  }

  /** `line` is `key`, `blanks` blanks or tabs, `=`, then `value`. */
  predicate IsKeyLine(line: Str, key: Str, blanks: nat, value: Str) {
    && |key| + blanks < |line|
    && IsPrefix(key, line)
    && (forall i :: |key| <= i < |key| + blanks ==> IsBlank(line[i]))
    && line[|key| + blanks] == EQUALS
    && value == line[|key| + blanks + 1..]
  }

  /** The value a line gives to a key, if it is a line for that key. */
  function KeyValue(line: Str, key: Str): (r: Option<Str>)
    ensures r.Some? ==> exists blanks: nat :: IsKeyLine(line, key, blanks, r.value)
  {
    if !IsPrefix(key, line) then None
    else
      var blanks := RunLength(line[|key|..], IsBlank);
      var idx := |key| + blanks;
      if idx >= |line| || line[idx] != EQUALS then None
      else
        assert IsKeyLine(line, key, blanks, line[idx + 1..]);
        Some(line[idx + 1..])
  }

  /** Keys are words: no blank and no `=` inside. */
  predicate IsWord(key: Str) {
    key != [] && forall i :: 0 <= i < |key| ==> !IsBlank(key[i]) && key[i] != EQUALS
  }

  lemma KeyValueIff(line: Str, key: Str, blanks: nat, value: Str)
    requires IsKeyLine(line, key, blanks, value)
    ensures KeyValue(line, key) == Some(value)
  {
    RunLengthIs(line[|key|..], IsBlank, blanks);
  }

  /** A key ends at the first blank or `=` of its line. */
  lemma KeyLength(line: Str, key: Str, other: Str)
    requires IsWord(key) && IsWord(other)
    requires KeyValue(line, key).Some? && KeyValue(line, other).Some?
    ensures |key| <= |other|
  {
    hide KeyValue;
    assert IsPrefix(key, line);
    var blanks: nat :| IsKeyLine(line, other, blanks, KeyValue(line, other).value);
    assert IsBlank(line[|other|]) || line[|other|] == EQUALS;
    assert forall i :: 0 <= i < |key| ==> line[..|key|][i] == key[i];
  }

  /** No line belongs to two keys, even when one key is a prefix of the other. */
  lemma KeysExclusive(line: Str, key: Str, other: Str)
    requires IsWord(key) && IsWord(other)
    requires KeyValue(line, key).Some? && KeyValue(line, other).Some?
    ensures key == other
  {
    KeyLength(line, key, other);
    KeyLength(line, other, key);
  }

  method TryMatchKey(line: Str, key: Str) returns (matched: bool, value: Str)
    ensures matched <==> exists blanks: nat, v :: IsKeyLine(line, key, blanks, v)
    ensures matched ==> exists blanks: nat :: IsKeyLine(line, key, blanks, value)
    ensures (if matched then Some(value) else None) == KeyValue(line, key)
  {
    forall blanks: nat, v | IsKeyLine(line, key, blanks, v) ensures KeyValue(line, key).Some? {
      KeyValueIff(line, key, blanks, v);
    }
    if |line| < |key| + 1 || line[..|key|] != key {
      if IsPrefix(key, line) {
        assert line[|key|..] == [];
      }
      return false, [];
    }
    var idx := |key|;
    while idx < |line| && (line[idx] == SPACE || line[idx] == TAB)
      invariant |key| <= idx <= |line|
      invariant forall i :: |key| <= i < idx ==> IsBlank(line[i])
    {
      idx := idx + 1;
    }
    RunLengthIs(line[|key|..], IsBlank, idx - |key|);
    if idx >= |line| || line[idx] != EQUALS {
      return false, [];
    }
    assert IsKeyLine(line, key, idx - |key|, line[idx + 1..]);
    return true, line[idx + 1..];
  }

  // ----- values -----

  /** An omitted id is the previous one plus one, in 32-bit arithmetic. */
  function NextId(lastId: nat): nat {
    (lastId + 1) % 0x1_0000_0000
  }

  function ParseMessageId(text: Str, lastId: nat): Option<nat> {
    var t := Trim(text);
    if t == [] then Some(NextId(lastId)) else TryParseUInt(t)
  }

  function IndexOf(s: Str, u: Unit): (r: Option<nat>)
    ensures r.Some? ==> r.value < |s| && s[r.value] == u && u !in s[..r.value]
    ensures r.None? ==> u !in s
  {
    if s == [] then None
    else if s[0] == u then Some(0)
    else match IndexOf(s[1..], u)
      case None => None
      case Some(i) => Some(i + 1)
  }

  /** Without the parentheses around it, if there are any. */
  function Unwrapped(t: Str): Str {
    if |t| >= 2 && t[0] == 40 && t[|t| - 1] == 41 then t[1..|t| - 1] else t
  }

  /** `(name=id:base)`, with the parentheses and the `:base` optional. */
  function ParseLanguage(spec: Str, line: nat): Result<Language> {
    var s := Unwrapped(Trim(spec));
    match IndexOf(s, EQUALS)
    case None => Err(Error(line, MalformedLanguage(spec)))
    case Some(eq) => ParseIdAndBase(Trim(s[..eq]), Trim(s[eq + 1..]), line)
  }

  /** `id:base`, with the base optional. */
  function ParseIdAndBase(name: Str, rest: Str, line: nat): Result<Language> {
    var colon := IndexOf(rest, COLON);
    var idPart := if colon.None? then rest else rest[..colon.value];
    var fileBase := if colon.None? then name else Trim(rest[colon.value + 1..]);
    match TryParseUInt(Trim(idPart))
    case None => Err(Error(line, MalformedLanguageId(idPart)))
    case Some(id) => Ok(Language(name, id, fileBase))
  }

  function Truncate(s: Str): Str {
    if |s| <= 80 then s else s[..80] + [ELLIPSIS]
  }

  // ----- dictionary of bodies -----

  /** `bodies[language] = lines`: an existing key keeps its place. */
  function SetBody(bodies: seq<Body>, language: Str, lines: seq<Str>): (r: seq<Body>)
    ensures forall b :: b in r ==> b in bodies || b == Body(language, lines)
  {
    if bodies == [] then [Body(language, lines)]
    else if bodies[0].language == language then [Body(language, lines)] + bodies[1..]
    else [bodies[0]] + SetBody(bodies[1..], language, lines)
  }

  function GetBody(bodies: seq<Body>, language: Str): Option<seq<Str>> {
    if bodies == [] then None
    else if bodies[0].language == language then Some(bodies[0].lines)
    else GetBody(bodies[1..], language)
  }

  // ----- blocks and files -----

  /** What a message block has collected so far. */
  datatype Block = Block(
    symbolicName: Option<Str>,
    severity: Option<Str>,
    facility: Option<Str>,
    bodies: seq<Body>)

  const EMPTY_BLOCK := Block(None, None, None, [])

  /** Body lines up to a lone `.` or the end. */
  function Text(rest: seq<Str>): seq<Str> {
    if rest == [] || rest[0] == [DOT] then [] else [rest[0]] + Text(rest[1..])
  }

  /** The lines after a body and the `.` that ends it. */
  function AfterText(rest: seq<Str>): (tail: seq<Str>)
    ensures |tail| <= |rest|
  {
    if rest == [] then [] else if rest[0] == [DOT] then rest[1..] else AfterText(rest[1..])
  }

  /** What a line means inside a message block, tested in the parser's order. */
  datatype BlockLine =
    | Nothing
    | SymbolicNameLine(value: Str)
    | SeverityLine(value: Str)
    | FacilityLine(value: Str)
    | LanguageLine(value: Str)
    | EndOfBlock

  function BlockLineOf(line: Str): BlockLine {
    if Ignorable(line) then Nothing
    else if KeyValue(line, SYMBOLIC_NAME).Some? then SymbolicNameLine(KeyValue(line, SYMBOLIC_NAME).value)
    else if KeyValue(line, SEVERITY).Some? then SeverityLine(KeyValue(line, SEVERITY).value)
    else if KeyValue(line, FACILITY).Some? then FacilityLine(KeyValue(line, FACILITY).value)
    else if KeyValue(line, LANGUAGE).Some? then LanguageLine(KeyValue(line, LANGUAGE).value)
    else EndOfBlock
  }

  /** What a one-line entry adds to a block. */
  function Apply(block: Block, line: BlockLine): Block {
    match line
    case SymbolicNameLine(value) => block.(symbolicName := Some(Trim(value)))
    case SeverityLine(value) => block.(severity := Some(Trim(value)))
    case FacilityLine(value) => block.(facility := Some(Trim(value)))
    case _ => block
  }

  function ApplyText(block: Block, language: Str, text: seq<Str>): Block {
    block.(bodies := SetBody(block.bodies, Trim(language), text))
  }

  /** A message block after its `MessageId` line, and the lines after it. */
  function ReadBlock(rest: seq<Str>, block: Block): (r: (Block, seq<Str>))
    ensures |r.1| <= |rest|
    decreases |rest|
  {
    if rest == [] then (block, [])
    else
      var line := BlockLineOf(rest[0]);
      if line.EndOfBlock? then (block, rest)
      else if line.LanguageLine? then
        ReadBlock(AfterText(rest[1..]), ApplyText(block, line.value, Text(rest[1..])))
      else ReadBlock(rest[1..], Apply(block, line))
  }

  function MakeMessage(id: nat, block: Block, line: nat): Result<Message> {
    if block.symbolicName.None? then Err(Error(line, NoSymbolicName(id)))
    else Ok(Message(id, block.symbolicName.value, block.severity, block.facility, block.bodies, line))
  }

  /** What a line means between message blocks, tested in the parser's order. */
  datatype FileLine =
    | Skip
    | TypedefLine(value: Str)
    | LanguageNamesLine(value: Str)
    | IgnoredDirective
    | MessageIdLine(value: Str)
    | Unexpected

  function FileLineOf(line: Str): FileLine {
    if Ignorable(line) then Skip
    else if KeyValue(line, MESSAGE_ID_TYPEDEF).Some? then TypedefLine(KeyValue(line, MESSAGE_ID_TYPEDEF).value)
    else if KeyValue(line, LANGUAGE_NAMES).Some? then LanguageNamesLine(KeyValue(line, LANGUAGE_NAMES).value)
    else if KeyValue(line, OUTPUT_BASE).Some? || KeyValue(line, SEVERITY_NAMES).Some?
            || KeyValue(line, FACILITY_NAMES).Some? then IgnoredDirective
    else if KeyValue(line, MESSAGE_ID).Some? then MessageIdLine(KeyValue(line, MESSAGE_ID).value)
    else Unexpected
  }

  /** The rest of a file from line number `at` (counted from 0) on. */
  function ParseRest(rest: seq<Str>, at: nat, lastId: nat, inHeader: bool, file: File): Result<File>
    decreases |rest|
  {
    if rest == [] then Ok(file)
    else
      match FileLineOf(rest[0])
      case Skip => ParseRest(rest[1..], at + 1, lastId, inHeader, file)
      case TypedefLine(value) =>
        if !inHeader then Err(Error(at + 1, TypedefAfterMessage))
        else ParseRest(rest[1..], at + 1, lastId, inHeader, file.(typedef := Trim(value)))
      case LanguageNamesLine(value) =>
        if !inHeader then Err(Error(at + 1, LanguagesAfterMessage))
        else (match ParseLanguage(value, at + 1)
              case Err(e) => Err(e)
              case Ok(language) =>
                ParseRest(rest[1..], at + 1, lastId, inHeader, file.(languages := file.languages + [language])))
      case IgnoredDirective =>
        if !inHeader then Err(Error(at + 1, DirectiveAfterMessage))
        else ParseRest(rest[1..], at + 1, lastId, inHeader, file)
      case MessageIdLine(value) =>
        (match ParseMessageId(value, lastId)
         case None => Err(Error(at + 1, MalformedMessageId(value)))
         case Some(id) =>
           var (block, tail) := ReadBlock(rest[1..], EMPTY_BLOCK);
           match MakeMessage(id, block, at + 1)
           case Err(e) => Err(e)
           case Ok(message) =>
             ParseRest(tail, at + |rest| - |tail|, id, false, file.(messages := file.messages + [message])))
      case Unexpected => Err(Error(at + 1, UnexpectedLine(Truncate(rest[0]))))
  }

  function TrimLines(lines: seq<Str>): (r: seq<Str>)
    ensures |r| == |lines| && forall i :: 0 <= i < |r| ==> r[i] == TrimEndCr(lines[i])
  {
    seq(|lines|, i requires 0 <= i < |lines| => TrimEndCr(lines[i]))
  }

  function ParseLines(lines: seq<Str>): Result<File> {
    ParseRest(lines, 0, 0, true, EMPTY_FILE)
  }

  function ParseSource(source: Str): Result<File> {
    ParseLines(TrimLines(SplitLines(source)))
  }

  // ----- the parser's loops -----

  /** One line of a body. */
  lemma TextStep(lines: seq<Str>, i: nat)
    requires i < |lines|
    ensures if lines[i] == [DOT] then Text(lines[i..]) == [] && AfterText(lines[i..]) == lines[i + 1..]
            else Text(lines[i..]) == [lines[i]] + Text(lines[i + 1..]) && AfterText(lines[i..]) == AfterText(lines[i + 1..])
  {
    assert lines[i..][1..] == lines[i + 1..];
  }

  lemma TextEnd()
    ensures Text([]) == [] && AfterText([]) == []
  {
  }

  method ParseText(lines: seq<Str>, start: nat) returns (text: seq<Str>, i: nat)
    requires start <= |lines|
    ensures start <= i <= |lines|
    ensures text == Text(TrimLines(lines)[start..])
    ensures TrimLines(lines)[i..] == AfterText(TrimLines(lines)[start..])
  {
    hide Text, AfterText;
    ghost var trimmed := TrimLines(lines);
    text, i := [], start;
    assert text + Text(trimmed[start..]) == Text(trimmed[start..]);
    while i < |lines|
      invariant start <= i <= |lines|
      invariant text + Text(trimmed[i..]) == Text(trimmed[start..])
      invariant AfterText(trimmed[i..]) == AfterText(trimmed[start..])
    {
      var bodyLine := TrimEndCr(lines[i]);
      TextStep(trimmed, i);
      i := i + 1;
      if bodyLine == [DOT] {
        assert text + [] == text;
        return;
      }
      assert text + ([bodyLine] + Text(trimmed[i..])) == text + [bodyLine] + Text(trimmed[i..]);
      text := text + [bodyLine];
    }
    TextEnd();
    assert trimmed[i..] == [] && text + [] == text;
  }

  method ClassifyBlockLine(line: Str) returns (kind: BlockLine)
    ensures kind == BlockLineOf(line)
  {
    var trimmed := TrimStart(line);
    if trimmed == [] || trimmed[0] == SEMICOLON {
      return Nothing;
    }
    var matched, value := TryMatchKey(line, SYMBOLIC_NAME);
    if matched {
      return SymbolicNameLine(value);
    }
    matched, value := TryMatchKey(line, SEVERITY);
    if matched {
      return SeverityLine(value);
    }
    matched, value := TryMatchKey(line, FACILITY);
    if matched {
      return FacilityLine(value);
    }
    matched, value := TryMatchKey(line, LANGUAGE);
    if matched {
      return LanguageLine(value);
    }
    return EndOfBlock;
  }

  method ParseMessageBody(id: nat, lines: seq<Str>, start: nat) returns (r: Result<Message>, i: nat)
    requires start < |lines|
    ensures start < i <= |lines|
    ensures var (block, tail) := ReadBlock(TrimLines(lines)[start + 1..], EMPTY_BLOCK);
            r == MakeMessage(id, block, start + 1) && tail == TrimLines(lines)[i..]
  {
    hide BlockLineOf, Apply, ApplyText, Text, AfterText, TrimEndCr, TrimLines;
    ghost var trimmed := TrimLines(lines);
    i := start + 1;
    var block := EMPTY_BLOCK;
    while i < |lines|
      invariant start < i <= |lines|
      invariant ReadBlock(trimmed[start + 1..], EMPTY_BLOCK) == ReadBlock(trimmed[i..], block)
      decreases |lines| - i
    {
      var line := TrimEndCr(lines[i]);
      assert trimmed[i..][0] == line && trimmed[i..][1..] == trimmed[i + 1..];
      var kind := ClassifyBlockLine(line);
      if kind.EndOfBlock? {
        break;
      } else if kind.LanguageLine? {
        var text;
        text, i := ParseText(lines, i + 1);
        block := ApplyText(block, kind.value, text);
      } else {
        block := Apply(block, kind);
        i := i + 1;
      }
    }
    assert i == |lines| ==> trimmed[i..] == [];
    assert ReadBlock(trimmed[i..], block) == (block, trimmed[i..]);
    r := MakeMessage(id, block, start + 1);
  }

  method ClassifyFileLine(line: Str) returns (kind: FileLine)
    ensures kind == FileLineOf(line)
  {
    var trimmed := TrimStart(line);
    if trimmed == [] || trimmed[0] == SEMICOLON {
      return Skip;
    }
    var matched, value := TryMatchKey(line, MESSAGE_ID_TYPEDEF);
    if matched {
      return TypedefLine(value);
    }
    matched, value := TryMatchKey(line, LANGUAGE_NAMES);
    if matched {
      return LanguageNamesLine(value);
    }
    matched, value := TryMatchKey(line, OUTPUT_BASE);
    if !matched {
      matched, value := TryMatchKey(line, SEVERITY_NAMES);
    }
    if !matched {
      matched, value := TryMatchKey(line, FACILITY_NAMES);
    }
    if matched {
      return IgnoredDirective;
    }
    matched, value := TryMatchKey(line, MESSAGE_ID);
    if matched {
      return MessageIdLine(value);
    }
    return Unexpected;
  }

  method Parse(source: Str) returns (r: Result<File>)
    ensures r == ParseSource(source)
  {
    hide FileLineOf, ParseLanguage, ParseMessageId, ReadBlock, MakeMessage, TrimEndCr, TrimLines, Truncate, Trim;
    var lines := SplitLines(source);
    ghost var trimmed := TrimLines(lines);
    var file := EMPTY_FILE;
    var i: nat, lastId: nat, inHeader := 0, 0, true;
    assert trimmed[0..] == trimmed;
    while i < |lines|
      invariant i <= |lines|
      invariant ParseRest(trimmed[i..], i, lastId, inHeader, file) == ParseSource(source)
      decreases |lines| - i
    {
      var line := TrimEndCr(lines[i]);
      assert trimmed[i..][0] == line && trimmed[i..][1..] == trimmed[i + 1..];
      var kind := ClassifyFileLine(line);
      match kind {
        case Skip =>
          i := i + 1;
        case TypedefLine(value) =>
          if !inHeader {
            return Err(Error(i + 1, TypedefAfterMessage));
          }
          file := file.(typedef := Trim(value));
          i := i + 1;
        case LanguageNamesLine(value) =>
          if !inHeader {
            return Err(Error(i + 1, LanguagesAfterMessage));
          }
          var language := ParseLanguage(value, i + 1);
          if language.Err? {
            return Err(language.error);
          }
          file := file.(languages := file.languages + [language.value]);
          i := i + 1;
        case IgnoredDirective =>
          if !inHeader {
            return Err(Error(i + 1, DirectiveAfterMessage));
          }
          i := i + 1;
        case MessageIdLine(value) =>
          inHeader := false;
          var id := ParseMessageId(value, lastId);
          if id.None? {
            return Err(Error(i + 1, MalformedMessageId(value)));
          }
          lastId := id.value;
          var message;
          message, i := ParseMessageBody(lastId, lines, i);
          if message.Err? {
            return Err(message.error);
          }
          file := file.(messages := file.messages + [message.value]);
        case Unexpected =>
          return Err(Error(i + 1, UnexpectedLine(Truncate(line))));
      }
    }
    return Ok(file);
  }
}
