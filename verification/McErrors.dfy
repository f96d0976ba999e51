/**
 What the message compiler's parser rejects (tools/mc/McParser.cs), and where: a canonical file is
 parsed to its end, and the first thing after it that does not belong there is reported with its
 own line number and its own kind of error.
 */
module McErrors {
  import opened CodeUnits
  import opened McParser
  import opened McRoundTrip
  import opened Wrappers

  /** The number of the line after a canonical file, counted from 1. */
  function LineAfter(c: Canonical): nat {
    |RenderLines(c)| + 1
  }

  /** The keys of the header end a message block. */
  lemma HeaderKeysEndBlock(key: Str, value: Str)
    requires key in {MESSAGE_ID_TYPEDEF, LANGUAGE_NAMES, OUTPUT_BASE, SEVERITY_NAMES, FACILITY_NAMES}
    ensures BlockLineOf(KeyLine(key, value)).EndOfBlock?
  {
    hide KeyValue, KeyLine, Ignorable, IsKey;
    KeysAreKeys();
    forall other | other in {SYMBOLIC_NAME, SEVERITY, FACILITY, LANGUAGE}
      ensures KeyValue(KeyLine(key, value), other) == None
    {
      HeaderKeysDiffer(key, other);
      KeyLineMeans(key, value, other);
    }
    KeyLineMeans(key, value, key);
  }

  /** The keys of the header have other lengths than those of a block. */
  lemma HeaderKeysDiffer(key: Str, other: Str)
    requires key in {MESSAGE_ID_TYPEDEF, LANGUAGE_NAMES, OUTPUT_BASE, SEVERITY_NAMES, FACILITY_NAMES}
    requires other in {SYMBOLIC_NAME, SEVERITY, FACILITY, LANGUAGE}
    ensures key != other
  {
    assert |MESSAGE_ID_TYPEDEF| == 16 && |LANGUAGE_NAMES| == 13 && |OUTPUT_BASE| == 10 && |SEVERITY_NAMES| == 13;
    assert |FACILITY_NAMES| == 13 && |SYMBOLIC_NAME| == 12 && |SEVERITY| == 8 && |FACILITY| == 8 && |LANGUAGE| == 8;
  }

  /** A directive of the header after a message is an error of its own kind. */
  lemma DirectiveAfterMessages(c: Canonical, key: Str, value: Str, rest: seq<Str>)
    requires Good(c) && c.entries != []
    requires key in {MESSAGE_ID_TYPEDEF, LANGUAGE_NAMES, OUTPUT_BASE, SEVERITY_NAMES, FACILITY_NAMES}
    ensures ParseLines(RenderBefore(c, [KeyLine(key, value)] + rest)) ==
            Err(Error(LineAfter(c), if key == MESSAGE_ID_TYPEDEF then TypedefAfterMessage
                                    else if key == LANGUAGE_NAMES then LanguagesAfterMessage
                                    else DirectiveAfterMessage))
  {
    hide Good, RenderBefore, KeyLine, FileLineOf, BlockLineOf, FileOf, LastIdOf, ParseLanguage, ReadBlock;
    HeaderKeysEndBlock(key, value);
    ParseBefore(c, [KeyLine(key, value)] + rest);
    FileLines(value);
    FileKeysDiffer();
  }

  /** A line that is no gap and has none of the keys, up to its eightieth character. */
  lemma UnexpectedLineAfter(c: Canonical, line: Str, rest: seq<Str>)
    requires Good(c) && !IsGapLine(line)
    requires forall key, blanks: nat, value :: key in ALL_KEYS ==> !IsKeyLine(line, key, blanks, value)
    ensures ParseLines(RenderBefore(c, [line] + rest)) ==
            Err(Error(LineAfter(c), UnexpectedLine(if |line| <= 80 then line else line[..80] + [0x2026])))
  {
    hide Good, RenderBefore, BlockLineOf, FileLineOf, IsGapLine, FileOf, LastIdOf, ParseLanguage, ReadBlock, IsKeyLine;
    GapIffIgnorable(line);
    NoKey(line);
    ParseBefore(c, [line] + rest);
  }

  lemma NoKey(line: Str)
    requires !Ignorable(line)
    requires forall key, blanks: nat, value :: key in ALL_KEYS ==> !IsKeyLine(line, key, blanks, value)
    ensures BlockLineOf(line).EndOfBlock? && FileLineOf(line).Unexpected?
  {
    hide KeyValue, Ignorable, IsKeyLine;
    assert forall key :: key in ALL_KEYS ==> KeyValue(line, key) == None;
    assert ALL_KEYS[0] in ALL_KEYS && ALL_KEYS[1] in ALL_KEYS && ALL_KEYS[2] in ALL_KEYS && ALL_KEYS[3] in ALL_KEYS;
    assert ALL_KEYS[4] in ALL_KEYS && ALL_KEYS[5] in ALL_KEYS && ALL_KEYS[6] in ALL_KEYS && ALL_KEYS[7] in ALL_KEYS;
    assert ALL_KEYS[8] in ALL_KEYS && ALL_KEYS[9] in ALL_KEYS;
  }

  const ALL_KEYS := [
    MESSAGE_ID_TYPEDEF, LANGUAGE_NAMES, OUTPUT_BASE, SEVERITY_NAMES, FACILITY_NAMES, MESSAGE_ID,
    SYMBOLIC_NAME, SEVERITY, FACILITY, LANGUAGE]

  /** A message id that is neither empty nor a number. */
  lemma MalformedIdAfter(c: Canonical, value: Str, rest: seq<Str>)
    requires Good(c) && Trim(value) != [] && TryParseUInt(Trim(value)) == None
    ensures ParseLines(RenderBefore(c, [KeyLine(MESSAGE_ID, value)] + rest)) ==
            Err(Error(LineAfter(c), MalformedMessageId(value)))
  {
    hide Good, RenderBefore, KeyLine, FileLineOf, BlockLineOf, FileOf, LastIdOf, ParseLanguage, ReadBlock, Trim, TryParseUInt;
    BlockLines(value);
    FileLines(value);
    ParseBefore(c, [KeyLine(MESSAGE_ID, value)] + rest);
  }

  /** A message without a symbolic name: the error names its id and the line of its `MessageId`. */
  lemma NamelessAfter(c: Canonical, id: Option<Number>, gap: seq<Str>, post: seq<Str>)
    requires Good(c) && GoodGap(gap) && EndsBlock(post)
    requires id.Some? ==> IsNumeral(id.value.text, id.value.value)
    ensures var value := if id.None? then [] else id.value.text;
            var expected := if id.None? then (LastIdOf(c.entries, 0) + 1) % 0x1_0000_0000 else id.value.value;
            ParseLines(RenderBefore(c, [KeyLine(MESSAGE_ID, value)] + (gap + post))) ==
            Err(Error(LineAfter(c), NoSymbolicName(expected)))
  {
    hide Good, RenderBefore, KeyLine, FileLineOf, BlockLineOf, FileOf, LastIdOf, ParseLanguage, Trim, TryParseUInt, IsNumeral, GoodGap, Ignorable;
    var value := if id.None? then [] else id.value.text;
    var all := [KeyLine(MESSAGE_ID, value)] + (gap + post);
    BlockLines(value);
    FileLines(value);
    ParseBefore(c, all);
    if id.Some? {
      NumeralText(value, id.value.value);
      NumeralParses(value, id.value.value);
    }
    TrimmedStays(value);
    GapsAreIgnorable(gap);
    ReadGap(gap, post, EMPTY_BLOCK);
    StopsAtOnce(post);
    assert all[1..] == gap + post;
  }

  lemma StopsAtOnce(post: seq<Str>)
    requires EndsBlock(post)
    ensures ReadBlock(post, EMPTY_BLOCK) == (EMPTY_BLOCK, post)
  {
  }

  /** A language of the header without `=`, or with an id that is no number. */
  lemma MalformedLanguageAfter(c: Canonical, spec: Str, rest: seq<Str>)
    requires Good(c) && c.entries == [] && EQUALS !in Unwrapped(Trim(spec))
    ensures ParseLines(RenderBefore(c, [KeyLine(LANGUAGE_NAMES, spec)] + rest)) ==
            Err(Error(LineAfter(c), MalformedLanguage(spec)))
  {
    hide Good, RenderBefore, KeyLine, FileLineOf, BlockLineOf, FileOf, LastIdOf, ReadBlock, Trim, Unwrapped, IndexOf;
    HeaderKeysEndBlock(LANGUAGE_NAMES, spec);
    ParseBefore(c, [KeyLine(LANGUAGE_NAMES, spec)] + rest);
    FileLines(spec);
    IndexOfNone(Unwrapped(Trim(spec)), EQUALS);
  }

  lemma MalformedLanguageIdAfter(c: Canonical, name: Str, id: Str, rest: seq<Str>)
    requires Good(c) && c.entries == [] && GoodValue(name) && EQUALS !in name && (name == [] || name[0] != 40)
    requires id != [] && GoodValue(id) && COLON !in id && TryParseUInt(id) == None
    ensures ParseLines(RenderBefore(c, [KeyLine(LANGUAGE_NAMES, name + [EQUALS] + id)] + rest)) ==
            Err(Error(LineAfter(c), MalformedLanguageId(id)))
  {
    hide Good, RenderBefore, KeyLine, FileLineOf, BlockLineOf, FileOf, LastIdOf, ReadBlock, TryParseUInt, IndexOf, Trim;
    var spec := name + [EQUALS] + id;
    HeaderKeysEndBlock(LANGUAGE_NAMES, spec);
    ParseBefore(c, [KeyLine(LANGUAGE_NAMES, spec)] + rest);
    FileLines(spec);
    assert spec[0] == if name == [] then EQUALS else name[0];
    assert spec[|spec| - 1] == id[|id| - 1];
    TrimmedStays(spec);
    TrimmedStays(name);
    TrimmedStays(id);
    IndexOfIs(name, EQUALS, id);
    IndexOfNone(id, COLON);
    assert spec[..|name|] == name && spec[|name| + 1..] == id;
  }
}
