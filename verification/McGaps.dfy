/**
 Blank lines and comments in a message file (tools/mc/McParser.cs): outside a message body such a
 line changes nothing but the line numbers after it, whatever the file holds.
 */
module McGaps {
  import opened CodeUnits
  import opened McParser
  import opened McRoundTrip
  import opened Wrappers

  // ----- where a line stands -----

  datatype Place = Outside | InBlock | InBody

  function NextPlace(place: Place, line: Str): Place {
    if place.InBody? then (if line == [DOT] then InBlock else InBody)
    else if place.InBlock? && BlockLineOf(line).LanguageLine? then InBody
    else if place.InBlock? && !BlockLineOf(line).EndOfBlock? then InBlock
    else if FileLineOf(line).MessageIdLine? then InBlock
    else Outside
  }

  /** Where the line after `lines` stands. */
  function PlaceAfter(place: Place, lines: seq<Str>): Place
    decreases |lines|
  {
    if lines == [] then place else PlaceAfter(NextPlace(place, lines[0]), lines[1..])
  }

  /** Line `i` stands in the text of a message, where blank lines and comments count as text. */
  predicate InText(lines: seq<Str>, i: nat)
    requires i <= |lines|
  {
    PlaceAfter(Outside, lines[..i]).InBody?
  }

  function Insert(lines: seq<Str>, i: nat, line: Str): seq<Str>
    requires i <= |lines|
  {
    lines[..i] + [line] + lines[i..]
  }

  // ----- line numbers after an insertion -----

  /** The number, counted from 1, of a line once another one is inserted after the first `i` lines. */
  function Moved(line: nat, i: nat): nat {
    if line > i then line + 1 else line
  }

  function MovedMessages(messages: seq<Message>, i: nat): seq<Message> {
    seq(|messages|, k requires 0 <= k < |messages| => messages[k].(sourceLine := Moved(messages[k].sourceLine, i)))
  }

  function MovedFile(file: File, i: nat): File {
    file.(messages := MovedMessages(file.messages, i))
  }

  function MovedResult(r: Result<File>, i: nat): Result<File> {
    match r
    case Ok(file) => Ok(MovedFile(file, i))
    case Err(Error(line, kind)) => Err(Error(Moved(line, i), kind))
  }

  lemma MovedAppend(file: File, message: Message, i: nat)
    ensures MovedFile(file.(messages := file.messages + [message]), i) ==
            MovedFile(file, i).(messages :=
              MovedFile(file, i).messages + [message.(sourceLine := Moved(message.sourceLine, i))])
  {
    assert MovedMessages(file.messages + [message], i) ==
           MovedMessages(file.messages, i) + [message.(sourceLine := Moved(message.sourceLine, i))];
  }

  // ----- the proof -----

  lemma InsertFirst(lines: seq<Str>, line: Str)
    ensures Insert(lines, 0, line) != [] && Insert(lines, 0, line)[0] == line && Insert(lines, 0, line)[1..] == lines
  {
  }

  lemma InsertCons(lines: seq<Str>, i: nat, line: Str)
    requires 0 < i <= |lines|
    ensures |Insert(lines, i, line)| == |lines| + 1
    ensures Insert(lines, i, line)[0] == lines[0] && Insert(lines, i, line)[1..] == Insert(lines[1..], i - 1, line)
  {
    assert Insert(lines, i, line)[1..] == Insert(lines[1..], i - 1, line);
  }

  lemma PlaceCons(place: Place, lines: seq<Str>, i: nat)
    requires 0 < i <= |lines|
    ensures PlaceAfter(place, lines[..i]) == PlaceAfter(NextPlace(place, lines[0]), lines[1..][..i - 1])
  {
    hide NextPlace;
    assert lines[..i][0] == lines[0] && lines[..i][1..] == lines[1..][..i - 1];
  }

  /** Everything from line `i` on has moved. */
  lemma {:induction false} ParseMoved(rest: seq<Str>, at: nat, lastId: nat, inHeader: bool, file: File, i: nat)
    requires i <= at
    ensures ParseRest(rest, at + 1, lastId, inHeader, MovedFile(file, i)) ==
            MovedResult(ParseRest(rest, at, lastId, inHeader, file), i)
    decreases |rest|
  {
    hide FileLineOf, ReadBlock, ParseMessageId, Trim, Truncate, MovedMessages, TryParseUInt, IndexOf, Unwrapped;
    if rest != [] {
      match FileLineOf(rest[0])
      case Skip =>
        ParseMoved(rest[1..], at + 1, lastId, inHeader, file, i);
      case TypedefLine(value) =>
        ParseMoved(rest[1..], at + 1, lastId, inHeader, file.(typedef := Trim(value)), i);
      case LanguageNamesLine(value) =>
        var language := ParseLanguage(value, at + 1);
        if language.Ok? {
          ParseMoved(rest[1..], at + 1, lastId, inHeader, file.(languages := file.languages + [language.value]), i);
        }
      case IgnoredDirective =>
        ParseMoved(rest[1..], at + 1, lastId, inHeader, file, i);
      case MessageIdLine(value) =>
        MessageMoved(rest, at, lastId, inHeader, file, i);
      case Unexpected =>
    }
  }

  /** A whole message: parsing goes on after its block. */
  lemma ParseMessage(rest: seq<Str>, at: nat, lastId: nat, inHeader: bool, file: File, id: nat, block: Block, tail: seq<Str>)
    requires rest != [] && FileLineOf(rest[0]).MessageIdLine?
    requires ParseMessageId(FileLineOf(rest[0]).value, lastId) == Some(id)
    requires ReadBlock(rest[1..], EMPTY_BLOCK) == (block, tail) && block.symbolicName.Some?
    ensures ParseRest(rest, at, lastId, inHeader, file) ==
            ParseRest(tail, at + |rest| - |tail|, id, false, file.(messages := file.messages + [
              Message(id, block.symbolicName.value, block.severity, block.facility, block.bodies, at + 1)]))
  {
    hide FileLineOf, ReadBlock, ParseMessageId;
  }

  /** A message without an id or a name ends the parsing. */
  lemma ParseNoMessage(rest: seq<Str>, at: nat, lastId: nat, inHeader: bool, file: File, block: Block, tail: seq<Str>)
    requires rest != [] && FileLineOf(rest[0]).MessageIdLine?
    requires ReadBlock(rest[1..], EMPTY_BLOCK) == (block, tail)
    ensures var value := FileLineOf(rest[0]).value;
            var id := ParseMessageId(value, lastId);
            && (id.None? ==>
                  ParseRest(rest, at, lastId, inHeader, file) == Err(Error(at + 1, MalformedMessageId(value))))
            && (id.Some? && block.symbolicName.None? ==>
                  ParseRest(rest, at, lastId, inHeader, file) == Err(Error(at + 1, NoSymbolicName(id.value))))
  {
    hide FileLineOf, ReadBlock, ParseMessageId;
  }

  lemma {:induction false} MessageMoved(rest: seq<Str>, at: nat, lastId: nat, inHeader: bool, file: File, i: nat)
    requires i <= at && rest != [] && FileLineOf(rest[0]).MessageIdLine?
    ensures ParseRest(rest, at + 1, lastId, inHeader, MovedFile(file, i)) ==
            MovedResult(ParseRest(rest, at, lastId, inHeader, file), i)
    decreases |rest|, 0
  {
    hide FileLineOf, ReadBlock, ParseMessageId, MovedFile, ParseRest;
    var id := ParseMessageId(FileLineOf(rest[0]).value, lastId);
    var (block, tail) := ReadBlock(rest[1..], EMPTY_BLOCK);
    if id.Some? && block.symbolicName.Some? {
      var message := Message(id.value, block.symbolicName.value, block.severity, block.facility, block.bodies, at + 1);
      ParseMessage(rest, at, lastId, inHeader, file, id.value, block, tail);
      ParseMessage(rest, at + 1, lastId, inHeader, MovedFile(file, i), id.value, block, tail);
      MovedAppend(file, message, i);
      ParseMoved(tail, at + |rest| - |tail|, id.value, false, file.(messages := file.messages + [message]), i);
    } else {
      ParseNoMessage(rest, at, lastId, inHeader, file, block, tail);
      ParseNoMessage(rest, at + 1, lastId, inHeader, MovedFile(file, i), block, tail);
    }
  }

  /** A body that ends before the inserted line is read as before. */
  lemma {:induction false} TextInsert(rest: seq<Str>, j: nat, gap: Str)
    requires j <= |rest| && !PlaceAfter(InBody, rest[..j]).InBody?
    ensures Text(Insert(rest, j, gap)) == Text(rest)
    ensures var after := AfterText(rest);
            var k := |rest| - j;
            && k <= |after|
            && AfterText(Insert(rest, j, gap)) == Insert(after, |after| - k, gap)
            && PlaceAfter(InBlock, after[..|after| - k]) == PlaceAfter(InBody, rest[..j])
    decreases |rest|
  {
    hide BlockLineOf, FileLineOf, Insert;
    if j > 0 {
      InsertCons(rest, j, gap);
      PlaceCons(InBody, rest, j);
      if rest[0] != [DOT] {
        TextInsert(rest[1..], j - 1, gap);
      }
    }
  }

  /** `longer` is what a block reads once a line is inserted before the last `k` lines: the block swallows it or ends before it. */
  predicate Follows(k: nat, place: Place, read: (Block, seq<Str>), longer: (Block, seq<Str>), gap: Str) {
    var tail := read.1;
    if |tail| <= k then longer == read
    else longer == (read.0, Insert(tail, |tail| - k, gap)) && PlaceAfter(Outside, tail[..|tail| - k]) == place
  }

  lemma FollowsSwallowed(k: nat, place: Place, read: (Block, seq<Str>), gap: Str)
    requires |read.1| <= k
    ensures Follows(k, place, read, read, gap)
  {
  }

  /** One line of a block. */
  lemma ReadStep(rest: seq<Str>, block: Block)
    requires rest != []
    ensures var line := BlockLineOf(rest[0]);
            ReadBlock(rest, block) ==
              if line.EndOfBlock? then (block, rest)
              else if line.LanguageLine? then ReadBlock(AfterText(rest[1..]), ApplyText(block, line.value, Text(rest[1..])))
              else if line.Nothing? then ReadBlock(rest[1..], block)
              else ReadBlock(rest[1..], Apply(block, line))
  {
    hide BlockLineOf, ApplyText, Text, AfterText;
  }

  lemma EndInsert(rest: seq<Str>, block: Block, j: nat, gap: Str)
    requires 0 < j <= |rest| && BlockLineOf(rest[0]).EndOfBlock?
    ensures Follows(|rest| - j, PlaceAfter(InBlock, rest[..j]),
                    ReadBlock(rest, block), ReadBlock(Insert(rest, j, gap), block), gap)
  {
    hide BlockLineOf, FileLineOf, ReadBlock, Insert, PlaceAfter;
    InsertCons(rest, j, gap);
    ReadStep(rest, block);
    ReadStep(Insert(rest, j, gap), block);
    PlaceCons(InBlock, rest, j);
    PlaceCons(Outside, rest, j);
  }

  lemma {:induction false} BlockInsert(rest: seq<Str>, block: Block, j: nat, gap: Str)
    requires j <= |rest| && BlockLineOf(gap).Nothing? && !PlaceAfter(InBlock, rest[..j]).InBody?
    ensures Follows(|rest| - j, PlaceAfter(InBlock, rest[..j]),
                    ReadBlock(rest, block), ReadBlock(Insert(rest, j, gap), block), gap)
    decreases |rest|
  {
    hide BlockLineOf, FileLineOf, Apply, ApplyText, Text, AfterText, Insert, PlaceAfter, Follows, ReadBlock;
    if j == 0 {
      InsertFirst(rest, gap);
      ReadStep(Insert(rest, j, gap), block);
      FollowsSwallowed(|rest|, PlaceAfter(InBlock, rest[..j]), ReadBlock(rest, block), gap);
    } else if BlockLineOf(rest[0]).EndOfBlock? {
      EndInsert(rest, block, j, gap);
    } else {
      var line := BlockLineOf(rest[0]);
      InsertCons(rest, j, gap);
      PlaceCons(InBlock, rest, j);
      ReadStep(rest, block);
      ReadStep(Insert(rest, j, gap), block);
      if line.LanguageLine? {
        TextInsert(rest[1..], j - 1, gap);
        var after := AfterText(rest[1..]);
        BlockInsert(after, ApplyText(block, line.value, Text(rest[1..])), |after| - (|rest| - j), gap);
      } else {
        BlockInsert(rest[1..], if line.Nothing? then block else Apply(block, line), j - 1, gap);
      }
    }
  }

  lemma FirstInsert(rest: seq<Str>, at: nat, lastId: nat, inHeader: bool, file: File, gap: Str)
    requires Ignorable(gap)
    ensures ParseRest(Insert(rest, 0, gap), at, lastId, inHeader, MovedFile(file, at)) ==
            MovedResult(ParseRest(rest, at, lastId, inHeader, file), at)
  {
    hide Insert, Ignorable, ReadBlock, ParseMessageId, ParseLanguage, KeyValue, MovedFile, MovedResult;
    InsertFirst(rest, gap);
    ParseMoved(rest, at, lastId, inHeader, file, at);
  }

  lemma {:induction false} ParseInsert(rest: seq<Str>, at: nat, lastId: nat, inHeader: bool, file: File, j: nat, gap: Str)
    requires j <= |rest| && Ignorable(gap) && !PlaceAfter(Outside, rest[..j]).InBody?
    ensures ParseRest(Insert(rest, j, gap), at, lastId, inHeader, MovedFile(file, at + j)) ==
            MovedResult(ParseRest(rest, at, lastId, inHeader, file), at + j)
    decreases |rest|, 1
  {
    hide ReadBlock, ParseMessageId, Trim, Truncate, MovedMessages, TryParseUInt, IndexOf, Unwrapped, FileLineOf, BlockLineOf,
      Ignorable, Insert, PlaceAfter;
    if j == 0 {
      FirstInsert(rest, at, lastId, inHeader, file, gap);
    } else {
      InsertCons(rest, j, gap);
      PlaceCons(Outside, rest, j);
      match FileLineOf(rest[0])
      case Skip =>
        ParseInsert(rest[1..], at + 1, lastId, inHeader, file, j - 1, gap);
      case TypedefLine(value) =>
        ParseInsert(rest[1..], at + 1, lastId, inHeader, file.(typedef := Trim(value)), j - 1, gap);
      case LanguageNamesLine(value) =>
        var language := ParseLanguage(value, at + 1);
        if language.Ok? {
          ParseInsert(rest[1..], at + 1, lastId, inHeader, file.(languages := file.languages + [language.value]), j - 1, gap);
        }
      case IgnoredDirective =>
        ParseInsert(rest[1..], at + 1, lastId, inHeader, file, j - 1, gap);
      case MessageIdLine(value) =>
        MessageInsert(rest, at, lastId, inHeader, file, j, gap);
      case Unexpected =>
    }
  }

  lemma {:induction false} MessageInsert(rest: seq<Str>, at: nat, lastId: nat, inHeader: bool, file: File, j: nat, gap: Str)
    requires 0 < j <= |rest| && Ignorable(gap) && !PlaceAfter(Outside, rest[..j]).InBody?
    requires FileLineOf(rest[0]).MessageIdLine?
    ensures ParseRest(Insert(rest, j, gap), at, lastId, inHeader, MovedFile(file, at + j)) ==
            MovedResult(ParseRest(rest, at, lastId, inHeader, file), at + j)
    decreases |rest|, 0
  {
    hide FileLineOf, BlockLineOf, ReadBlock, ParseMessageId, MovedFile, Ignorable, ParseRest, Insert, PlaceAfter, Follows;
    MessageRead(rest, j, gap);
    var longer := Insert(rest, j, gap);
    var id := ParseMessageId(FileLineOf(rest[0]).value, lastId);
    var read, longerRead := ReadBlock(rest[1..], EMPTY_BLOCK), ReadBlock(longer[1..], EMPTY_BLOCK);
    var block, tail := read.0, read.1;
    if id.Some? && block.symbolicName.Some? {
      var message := Message(id.value, block.symbolicName.value, block.severity, block.facility, block.bodies, at + 1);
      var more := file.(messages := file.messages + [message]);
      MovedAppend(file, message, at + j);
      ParseMessage(rest, at, lastId, inHeader, file, id.value, block, tail);
      ParseMessage(longer, at, lastId, inHeader, MovedFile(file, at + j), id.value, block, longerRead.1);
      TailInsert(read, longerRead, at + |rest| - |tail|, id.value, more, |rest| - j, PlaceAfter(Outside, rest[..j]), gap);
      assert message.(sourceLine := Moved(message.sourceLine, at + j)) == message;
    } else {
      ParseNoMessage(rest, at, lastId, inHeader, file, block, tail);
      ParseNoMessage(longer, at, lastId, inHeader, MovedFile(file, at + j), block, longerRead.1);
    }
  }

  lemma GapInBlock(gap: Str)
    requires Ignorable(gap)
    ensures BlockLineOf(gap).Nothing?
  {
    hide Ignorable, KeyValue;
  }

  lemma MessageRead(rest: seq<Str>, j: nat, gap: Str)
    requires 0 < j <= |rest| && Ignorable(gap) && !PlaceAfter(Outside, rest[..j]).InBody?
    requires FileLineOf(rest[0]).MessageIdLine?
    ensures var longer := Insert(rest, j, gap);
            && |longer| == |rest| + 1 && longer[0] == rest[0]
            && var read, longerRead := ReadBlock(rest[1..], EMPTY_BLOCK), ReadBlock(longer[1..], EMPTY_BLOCK);
            && Follows(|rest| - j, PlaceAfter(Outside, rest[..j]), read, longerRead, gap)
            && longerRead.0 == read.0 && |longerRead.1| <= |read.1| + 1
  {
    hide FileLineOf, BlockLineOf, ReadBlock, Ignorable, Insert, PlaceAfter, Follows;
    GapInBlock(gap);
    InsertCons(rest, j, gap);
    PlaceCons(Outside, rest, j);
    BlockInsert(rest[1..], EMPTY_BLOCK, j - 1, gap);
    FollowsBlock(|rest| - j, PlaceAfter(Outside, rest[..j]),
                 ReadBlock(rest[1..], EMPTY_BLOCK), ReadBlock(Insert(rest, j, gap)[1..], EMPTY_BLOCK), gap);
  }

  lemma FollowsBlock(k: nat, place: Place, read: (Block, seq<Str>), longer: (Block, seq<Str>), gap: Str)
    requires Follows(k, place, read, longer, gap)
    ensures longer.0 == read.0 && |longer.1| <= |read.1| + 1
  {
  }

  /** After a block that follows an insertion, the inserted line is gone or still to come. */
  lemma {:induction false} TailInsert(read: (Block, seq<Str>), longer: (Block, seq<Str>), at: nat, lastId: nat, file: File,
                                      k: nat, place: Place, gap: Str)
    requires Follows(k, place, read, longer, gap) && |longer.1| <= |read.1| + 1
    requires Ignorable(gap) && !place.InBody? && k <= at + |read.1|
    ensures ParseRest(longer.1, at + |read.1| + 1 - |longer.1|, lastId, false, MovedFile(file, at + |read.1| - k)) ==
            MovedResult(ParseRest(read.1, at, lastId, false, file), at + |read.1| - k)
    decreases |read.1|, 2
  {
    hide Ignorable, ParseRest, PlaceAfter, MovedFile;
    var tail := read.1;
    if |tail| <= k {
      ParseMoved(tail, at, lastId, false, file, at + |tail| - k);
    } else {
      assert |longer.1| == |tail| + 1;
      ParseInsert(tail, at, lastId, false, file, |tail| - k, gap);
    }
  }

  // ----- the result -----

  lemma EmptyMoved(i: nat)
    ensures MovedFile(EMPTY_FILE, i) == EMPTY_FILE
  {
    hide Ascii;
    assert MovedMessages([], i) == [];
  }

  /**
   For every list of lines, well-formed or not: a blank line or a comment that is not in the text of
   a message leaves the file, or the error, as it was, with the later line numbers moved by one.
   */
  lemma GapChangesNothing(lines: seq<Str>, i: nat, gap: Str)
    requires i <= |lines| && IsGapLine(gap) && !InText(lines, i)
    ensures ParseLines(Insert(lines, i, gap)) == MovedResult(ParseLines(lines), i)
  {
    hide ParseRest, IsGapLine, Ignorable, PlaceAfter, Insert, MovedFile, MovedResult;
    GapIffIgnorable(gap);
    EmptyMoved(i);
    ParseInsert(lines, 0, 0, true, EMPTY_FILE, i, gap);
  }

  /** Without its carriage returns a gap line is one still. */
  lemma TrimmedGap(gap: Str)
    requires IsGapLine(gap)
    ensures IsGapLine(TrimEndCr(gap))
  {
    hide TrimEndCr;
    TrimEndCrDrops(gap);
    var trimmed := TrimEndCr(gap);
    var k: nat :| GapUpTo(gap, k);
    var kept := if k <= |trimmed| then k else |trimmed|;
    assert kept < |trimmed| ==> trimmed[kept] == gap[kept];
    assert k < |gap| ==> gap[k] == SEMICOLON && SEMICOLON != CR;
    assert GapUpTo(trimmed, kept);
  }

  lemma InsertTrimmed(lines: seq<Str>, i: nat, gap: Str)
    requires i <= |lines|
    ensures TrimLines(Insert(lines, i, gap)) == Insert(TrimLines(lines), i, TrimEndCr(gap))
  {
    hide TrimEndCr;
    var longer := Insert(lines, i, gap);
    assert forall k :: 0 <= k < |longer| ==> longer[k] == if k < i then lines[k] else if k == i then gap else lines[k - 1];
  }

  lemma InsertClean(lines: seq<Str>, i: nat, gap: Str)
    requires i <= |lines| && NoNewline(gap) && forall k :: 0 <= k < |lines| ==> NoNewline(lines[k])
    ensures forall k :: 0 <= k < |Insert(lines, i, gap)| ==> NoNewline(Insert(lines, i, gap)[k])
  {
    hide NoNewline;
  }

  /** The same of a source text, whatever its line ends are. */
  lemma GapChangesNoSource(source: Str, i: nat, gap: Str)
    requires i <= |SplitLines(source)| && IsGapLine(gap) && NoNewline(gap)
    requires !InText(TrimLines(SplitLines(source)), i)
    ensures ParseSource(JoinLines(Insert(SplitLines(source), i, gap))) == MovedResult(ParseSource(source), i)
  {
    hide ParseLines, IsGapLine, TrimEndCr, TrimLines, InText, Insert, NoNewline;
    var lines := SplitLines(source);
    InsertClean(lines, i, gap);
    InsertTrimmed(lines, i, gap);
    assert |Insert(lines, i, gap)| > 0 by { InsertSome(lines, i, gap); }
    SplitJoin(Insert(lines, i, gap));
    TrimmedGap(gap);
    GapChangesNothing(TrimLines(lines), i, TrimEndCr(gap));
  }

  lemma InsertSome(lines: seq<Str>, i: nat, gap: Str)
    requires i <= |lines|
    ensures |Insert(lines, i, gap)| > 0
  {
  }
}
