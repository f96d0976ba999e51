/**
 The message parser inverts a canonical rendering of message files, and carriage returns
 before line ends never change what it reads (tools/mc/McParser.cs).
 */
module McRoundTrip {
  import opened CodeUnits
  import opened McParser
  import opened Wrappers

  // ----- carriage returns -----

  function Crs(n: nat): Str {
    seq(n, i => CR)
  }

  /** The lines with `counts[i]` carriage returns added to the end of line `i`. */
  function AddCrs(lines: seq<Str>, counts: seq<nat>): seq<Str>
    requires |counts| == |lines|
  {
    seq(|lines|, i requires 0 <= i < |lines| => lines[i] + Crs(counts[i]))
  }

  lemma {:induction false} TrimEndCrIgnores(s: Str, n: nat)
    ensures TrimEndCr(s + Crs(n)) == TrimEndCr(s)
  {
    if n == 0 {
      assert s + Crs(0) == s;
    } else {
      TrimEndCrIgnores(s, n - 1);
      var long := s + Crs(n);
      assert long[..|long| - 1] == s + Crs(n - 1);
    }
  }

  /** For every source, well-formed or not: CRLF and LF line ends give the same file or the same error. */
  lemma CarriageReturnsIgnored(source: Str, counts: seq<nat>)
    requires |counts| == |SplitLines(source)|
    ensures ParseSource(JoinLines(AddCrs(SplitLines(source), counts))) == ParseSource(source)
  {
    var lines := SplitLines(source);
    var more := AddCrs(lines, counts);
    SplitJoin(more);
    forall i | 0 <= i < |lines| ensures TrimLines(more)[i] == TrimLines(lines)[i] {
      TrimEndCrIgnores(lines[i], counts[i]);
    }
    assert TrimLines(more) == TrimLines(lines);
  }

  // ----- canonical files -----

  /** How a language is written: in parentheses or not, with its id as a numeral, and with a file base or not. */
  datatype LanguageStyle = LanguageStyle(parentheses: bool, numeral: Str, withBase: bool)

  datatype HeaderItem =
    | TypedefItem(value: Str)
    | LanguageItem(style: LanguageStyle, language: Language)
    | DirectiveItem(key: Str, value: Str)
    | GapItem(line: Str)

  /** A number and how it is written. */
  datatype Number = Number(value: nat, text: Str)

  /** A message entry: ignorable lines before it, its explicit id if it has one, and its fields. */
  datatype Entry = Entry(
    gap: seq<Str>,
    id: Option<Number>,
    symbolicName: Str,
    severity: Option<Str>,
    facility: Option<Str>,
    bodies: seq<Body>)

  datatype Canonical = Canonical(header: seq<HeaderItem>, entries: seq<Entry>, end: seq<Str>)

  function KeyLine(key: Str, value: Str): Str {
    key + [EQUALS] + value
  }

  function RenderHeaderItem(item: HeaderItem): Str {
    match item
    case TypedefItem(value) => KeyLine(MESSAGE_ID_TYPEDEF, value)
    case LanguageItem(style, language) => KeyLine(LANGUAGE_NAMES, RenderLanguage(style, language))
    case DirectiveItem(key, value) => KeyLine(key, value)
    case GapItem(line) => line
  }

  function IdAndBase(style: LanguageStyle, l: Language): Str {
    if style.withBase then style.numeral + [COLON] + l.fileBase else style.numeral
  }

  /** `name=id:base`. */
  function LanguageCore(style: LanguageStyle, l: Language): Str {
    l.name + [EQUALS] + IdAndBase(style, l)
  }

  function RenderLanguage(style: LanguageStyle, l: Language): Str {
    if style.parentheses then [40] + LanguageCore(style, l) + [41] else LanguageCore(style, l)
  }

  function RenderHeader(items: seq<HeaderItem>): (r: seq<Str>)
    ensures |r| == |items| && forall i :: 0 <= i < |r| ==> r[i] == RenderHeaderItem(items[i])
  {
    seq(|items|, i requires 0 <= i < |items| => RenderHeaderItem(items[i]))
  }

  function RenderBodies(bodies: seq<Body>): seq<Str> {
    if bodies == [] then []
    else [KeyLine(LANGUAGE, bodies[0].language)] + (bodies[0].lines + ([[DOT]] + RenderBodies(bodies[1..])))
  }

  function RenderOption(key: Str, value: Option<Str>): seq<Str> {
    if value.None? then [] else [KeyLine(key, value.value)]
  }

  function RenderFields(e: Entry): seq<Str> {
    [KeyLine(SYMBOLIC_NAME, e.symbolicName)]
    + (RenderOption(SEVERITY, e.severity) + (RenderOption(FACILITY, e.facility) + RenderBodies(e.bodies)))
  }

  function IdLine(e: Entry): Str {
    KeyLine(MESSAGE_ID, if e.id.None? then [] else e.id.value.text)
  }

  /** The entries, the ignorable lines after them and what follows, without the gap before the first entry. */
  function RenderAfterGap(entries: seq<Entry>, end: seq<Str>, post: seq<Str>): seq<Str>
    decreases |entries|, 0
  {
    if entries == [] then post
    else [IdLine(entries[0])] + (RenderFields(entries[0]) + RenderEntries(entries[1..], end, post))
  }

  function RenderEntries(entries: seq<Entry>, end: seq<Str>, post: seq<Str>): seq<Str>
    decreases |entries|, 1
  {
    GapBefore(entries, end) + RenderAfterGap(entries, end, post)
  }

  /** The lines of a canonical file, with something after it. */
  function RenderBefore(c: Canonical, post: seq<Str>): seq<Str> {
    RenderHeader(c.header) + RenderEntries(c.entries, c.end, post)
  }

  function RenderLines(c: Canonical): seq<Str> {
    RenderBefore(c, [])
  }

  function Render(c: Canonical): Str {
    JoinLines(RenderLines(c))
  }

  // ----- well-formedness -----

  predicate GoodValue(v: Str) {
    NoNewline(v) && Trimmed(v)
  }

  predicate GoodLine(line: Str) {
    NoNewline(line) && (line == [] || line[|line| - 1] != CR)
  }

  /** White space up to some place, and there the end of the line or a `;`. */
  predicate GapUpTo(line: Str, k: nat) {
    k <= |line| && (forall j :: 0 <= j < k ==> IsWhite(line[j])) && (k == |line| || line[k] == SEMICOLON)
  }

  ghost predicate IsGapLine(line: Str) {
    exists k: nat :: GapUpTo(line, k)
  }

  ghost predicate GoodGap(lines: seq<Str>) {
    forall i :: 0 <= i < |lines| ==> GoodLine(lines[i]) && IsGapLine(lines[i])
  }

  /** A numeral for a 32-bit number: decimal, or hexadecimal after `0x` or `0X`. */
  predicate IsNumeral(text: Str, n: nat) {
    && n < 0x1_0000_0000
    && ((text != [] && (forall i :: 0 <= i < |text| ==> IsDigit(text[i])) && Value(10, text) == n)
        || (|text| > 2 && text[0] == 48 && (text[1] == 120 || text[1] == 88)
            && (forall i :: 2 <= i < |text| ==> IsHexDigit(text[i])) && Value(16, text[2..]) == n))
  }

  /** A name without `=`, a numeral for the id, and the name itself where no file base is written. */
  predicate GoodLanguage(style: LanguageStyle, l: Language) {
    && GoodValue(l.name) && EQUALS !in l.name && GoodValue(l.fileBase)
    && IsNumeral(style.numeral, l.langId)
    && (!style.withBase ==> l.fileBase == l.name)
    && (!style.parentheses ==> l.name == [] || l.name[0] != 40)
  }

  predicate GoodBody(body: Body) {
    GoodValue(body.language) && forall i :: 0 <= i < |body.lines| ==> GoodLine(body.lines[i]) && body.lines[i] != [DOT]
  }

  ghost predicate GoodEntry(e: Entry) {
    && GoodGap(e.gap)
    && (e.id.Some? ==> IsNumeral(e.id.value.text, e.id.value.value))
    && GoodValue(e.symbolicName)
    && (e.severity.Some? ==> GoodValue(e.severity.value))
    && (e.facility.Some? ==> GoodValue(e.facility.value))
    && forall i :: 0 <= i < |e.bodies| ==> GoodBody(e.bodies[i])
  }

  ghost predicate GoodEntries(entries: seq<Entry>) {
    forall i :: 0 <= i < |entries| ==> GoodEntry(entries[i])
  }

  ghost predicate GoodHeaderItem(item: HeaderItem) {
    match item
    case TypedefItem(value) => GoodValue(value)
    case LanguageItem(style, language) => GoodLanguage(style, language)
    case DirectiveItem(key, value) => GoodValue(value) && (key == OUTPUT_BASE || key == SEVERITY_NAMES || key == FACILITY_NAMES)
    case GapItem(line) => GoodLine(line) && IsGapLine(line)
  }

  ghost predicate Good(c: Canonical) {
    && (forall i :: 0 <= i < |c.header| ==> GoodHeaderItem(c.header[i]))
    && GoodEntries(c.entries) && GoodGap(c.end)
  }

  // ----- what a canonical file means -----

  function Collect(bodies: seq<Body>, more: seq<Body>): seq<Body>
    decreases |more|
  {
    if more == [] then bodies else Collect(SetBody(bodies, more[0].language, more[0].lines), more[1..])
  }

  function IdOf(e: Entry, lastId: nat): nat {
    if e.id.Some? then e.id.value.value else NextId(lastId)
  }

  /** The message of an entry that has its `MessageId` on line `at` (counted from 0). */
  function MessageOf(e: Entry, lastId: nat, at: nat): Message {
    Message(IdOf(e, lastId), e.symbolicName, e.severity, e.facility, Collect([], e.bodies), at + 1)
  }

  /** The ignorable lines before the first of the entries, or at the end of the file. */
  function GapBefore(entries: seq<Entry>, end: seq<Str>): seq<Str> {
    if entries == [] then end else entries[0].gap
  }

  /** The line of the `MessageId` after that of `e`. */
  function NextAt(e: Entry, more: seq<Entry>, end: seq<Str>, at: nat): nat {
    at + 1 + |RenderFields(e)| + |GapBefore(more, end)|
  }

  function MessagesOf(entries: seq<Entry>, end: seq<Str>, lastId: nat, at: nat): (r: seq<Message>)
    ensures |r| == |entries|
  {
    if entries == [] then []
    else
      [MessageOf(entries[0], lastId, at)]
      + MessagesOf(entries[1..], end, IdOf(entries[0], lastId), NextAt(entries[0], entries[1..], end, at))
  }

  function ApplyItem(item: HeaderItem, file: File): File {
    match item
    case TypedefItem(value) => file.(typedef := value)
    case LanguageItem(_, language) => file.(languages := file.languages + [language])
    case DirectiveItem(_, _) => file
    case GapItem(_) => file
  }

  function ApplyHeader(items: seq<HeaderItem>, file: File): (r: File)
    ensures r.messages == file.messages
  {
    if items == [] then file else ApplyHeader(items[1..], ApplyItem(items[0], file))
  }

  function FileOf(c: Canonical): File {
    ApplyHeader(c.header, EMPTY_FILE).(
      messages := MessagesOf(c.entries, c.end, 0, |c.header| + |GapBefore(c.entries, c.end)|))
  }

  // ----- keys -----

  predicate IsKey(key: Str) {
    IsWord(key) && !IsWhite(key[0]) && key[0] != SEMICOLON && NoNewline(key)
  }

  lemma LettersAreKey(s: string)
    requires s != "" && forall i :: 0 <= i < |s| ==> 65 <= s[i] as int <= 122
    ensures IsKey(Ascii(s))
  {
  }

  lemma KeysAreKeys()
    ensures IsKey(MESSAGE_ID_TYPEDEF) && IsKey(LANGUAGE_NAMES) && IsKey(OUTPUT_BASE)
    ensures IsKey(SEVERITY_NAMES) && IsKey(FACILITY_NAMES) && IsKey(MESSAGE_ID)
    ensures IsKey(SYMBOLIC_NAME) && IsKey(SEVERITY) && IsKey(FACILITY) && IsKey(LANGUAGE)
  {
    hide IsKey;
    LettersAreKey("MessageIdTypedef");
    LettersAreKey("LanguageNames");
    LettersAreKey("OutputBase");
    LettersAreKey("SeverityNames");
    LettersAreKey("FacilityNames");
    LettersAreKey("MessageId");
    LettersAreKey("SymbolicName");
    LettersAreKey("Severity");
    LettersAreKey("Facility");
    LettersAreKey("Language");
  }

  /** A rendered key line belongs to its own key only, and is not ignorable. */
  lemma KeyLineMeans(key: Str, value: Str, other: Str)
    requires IsKey(key) && IsKey(other)
    ensures KeyValue(KeyLine(key, value), other) == if other == key then Some(value) else None
    ensures !Ignorable(KeyLine(key, value))
  {
    var line := KeyLine(key, value);
    assert line[..|key|] == key;
    assert IsKeyLine(line, key, 0, value);
    KeyValueIff(line, key, 0, value);
    if KeyValue(line, other).Some? {
      KeysExclusive(line, key, other);
    }
  }

  lemma KeyLineGood(key: Str, value: Str)
    requires IsKey(key) && GoodValue(value)
    ensures GoodLine(KeyLine(key, value))
  {
    var line := KeyLine(key, value);
    if value != [] {
      assert line[|line| - 1] == value[|value| - 1];
    }
  }

  lemma {:induction false} TrimmedStays(s: Str)
    requires Trimmed(s)
    ensures Trim(s) == s
  {
  }

  lemma BlockLines(value: Str)
    ensures BlockLineOf(KeyLine(SYMBOLIC_NAME, value)) == SymbolicNameLine(value)
    ensures BlockLineOf(KeyLine(SEVERITY, value)) == SeverityLine(value)
    ensures BlockLineOf(KeyLine(FACILITY, value)) == FacilityLine(value)
    ensures BlockLineOf(KeyLine(LANGUAGE, value)) == LanguageLine(value)
    ensures BlockLineOf(KeyLine(MESSAGE_ID, value)) == EndOfBlock
  {
    hide KeyValue, KeyLine, Ignorable;
    KeysAreKeys();
    BlockKeysDiffer();
    forall key | key in {SYMBOLIC_NAME, SEVERITY, FACILITY, LANGUAGE, MESSAGE_ID}
      ensures !Ignorable(KeyLine(key, value))
      ensures forall other | other in {SYMBOLIC_NAME, SEVERITY, FACILITY, LANGUAGE} ::
        KeyValue(KeyLine(key, value), other) == if other == key then Some(value) else None
    {
      KeyLineMeans(key, value, key);
      forall other | other in {SYMBOLIC_NAME, SEVERITY, FACILITY, LANGUAGE} {
        KeyLineMeans(key, value, other);
      }
    }
  }

  lemma BlockKeysDiffer()
    ensures SYMBOLIC_NAME != SEVERITY && SYMBOLIC_NAME != FACILITY && SYMBOLIC_NAME != LANGUAGE
    ensures SEVERITY != FACILITY && SEVERITY != LANGUAGE && FACILITY != LANGUAGE
    ensures MESSAGE_ID != SYMBOLIC_NAME && MESSAGE_ID != SEVERITY && MESSAGE_ID != FACILITY && MESSAGE_ID != LANGUAGE
  {
    assert SEVERITY[0] == 83 && FACILITY[0] == 70 && LANGUAGE[0] == 76;
  }

  lemma FileLines(value: Str)
    ensures FileLineOf(KeyLine(MESSAGE_ID_TYPEDEF, value)) == TypedefLine(value)
    ensures FileLineOf(KeyLine(LANGUAGE_NAMES, value)) == LanguageNamesLine(value)
    ensures FileLineOf(KeyLine(OUTPUT_BASE, value)) == IgnoredDirective
    ensures FileLineOf(KeyLine(SEVERITY_NAMES, value)) == IgnoredDirective
    ensures FileLineOf(KeyLine(FACILITY_NAMES, value)) == IgnoredDirective
    ensures FileLineOf(KeyLine(MESSAGE_ID, value)) == MessageIdLine(value)
  {
    hide KeyValue, KeyLine, Ignorable;
    KeysAreKeys();
    FileKeysDiffer();
    var keys := {MESSAGE_ID_TYPEDEF, LANGUAGE_NAMES, OUTPUT_BASE, SEVERITY_NAMES, FACILITY_NAMES, MESSAGE_ID};
    forall key | key in keys
      ensures !Ignorable(KeyLine(key, value))
      ensures forall other | other in keys ::
        KeyValue(KeyLine(key, value), other) == if other == key then Some(value) else None
    {
      KeyLineMeans(key, value, key);
      forall other | other in keys {
        KeyLineMeans(key, value, other);
      }
    }
  }

  lemma FileKeysDiffer()
    ensures MESSAGE_ID_TYPEDEF != LANGUAGE_NAMES && LANGUAGE_NAMES != SEVERITY_NAMES && LANGUAGE_NAMES != FACILITY_NAMES
    ensures MESSAGE_ID_TYPEDEF != OUTPUT_BASE && MESSAGE_ID_TYPEDEF != SEVERITY_NAMES && MESSAGE_ID_TYPEDEF != FACILITY_NAMES
    ensures LANGUAGE_NAMES != OUTPUT_BASE && OUTPUT_BASE != MESSAGE_ID && MESSAGE_ID_TYPEDEF != MESSAGE_ID
    ensures LANGUAGE_NAMES != MESSAGE_ID && SEVERITY_NAMES != MESSAGE_ID && FACILITY_NAMES != MESSAGE_ID
  {
    assert LANGUAGE_NAMES[0] == 76 && SEVERITY_NAMES[0] == 83 && FACILITY_NAMES[0] == 70;
  }

  // ----- gaps, numerals and languages -----

  /** The lines that the parser skips are exactly those that are white up to the end or a `;`. */
  lemma {:induction false} GapIffIgnorable(line: Str)
    ensures Ignorable(line) <==> IsGapLine(line)
  {
    var rest := TrimStart(line);
    var n := |line| - |rest|;
    TrimStartDrops(line);
    assert rest != [] ==> rest[0] == line[n];
    if Ignorable(line) {
      assert GapUpTo(line, n);
    }
    if k: nat :| GapUpTo(line, k) {
      assert !IsWhite(SEMICOLON);
      assert n < |line| ==> !IsWhite(line[n]);
    }
  }

  lemma {:induction false} TrimStartDrops(s: Str)
    ensures forall j :: 0 <= j < |s| - |TrimStart(s)| ==> IsWhite(s[j])
  {
    if s != [] && IsWhite(s[0]) {
      TrimStartDrops(s[1..]);
      assert forall j :: 1 <= j < |s| ==> s[j] == s[1..][j - 1];
    }
  }

  lemma GapsAreIgnorable(gap: seq<Str>)
    requires GoodGap(gap)
    ensures forall i :: 0 <= i < |gap| ==> Ignorable(gap[i])
  {
    hide Ignorable, IsGapLine;
    forall i | 0 <= i < |gap|
      ensures Ignorable(gap[i])
    {
      GapIffIgnorable(gap[i]);
    }
  }

  /** What a numeral consists of. */
  lemma NumeralText(text: Str, n: nat)
    requires IsNumeral(text, n)
    ensures text != [] && GoodValue(text) && EQUALS !in text && COLON !in text
  {
    hide Value;
    assert forall i :: 0 <= i < |text| ==> IsDigit(text[i]) || IsHexDigit(text[i]) || text[i] == 120 || text[i] == 88;
  }

  lemma NumeralParses(text: Str, n: nat)
    requires IsNumeral(text, n)
    ensures TryParseUInt(text) == Some(n)
  {
    hide Value, TryParseUInt;
    if forall i :: 0 <= i < |text| ==> IsDigit(text[i]) {
      ParseDecimal(text);
    } else {
      ParseHexadecimal(text);
    }
  }

  lemma {:induction false} IndexOfIs(before: Str, u: Unit, after: Str)
    requires u !in before
    ensures IndexOf(before + [u] + after, u) == Some(|before|)
  {
    var s := before + [u] + after;
    if before != [] {
      IndexOfIs(before[1..], u, after);
      assert s[1..] == before[1..] + [u] + after;
    }
  }

  lemma {:induction false} IndexOfNone(s: Str, u: Unit)
    requires u !in s
    ensures IndexOf(s, u) == None
  {
    if s != [] {
      IndexOfNone(s[1..], u);
    }
  }

  lemma IdAndBaseTrimmed(style: LanguageStyle, l: Language)
    requires GoodLanguage(style, l)
    ensures IdAndBase(style, l) != [] && GoodValue(IdAndBase(style, l))
  {
    hide IsNumeral;
    NumeralText(style.numeral, l.langId);
    var rest := IdAndBase(style, l);
    assert rest[0] == style.numeral[0];
    assert rest[|rest| - 1] == if !style.withBase then style.numeral[|style.numeral| - 1]
                               else if l.fileBase == [] then COLON else l.fileBase[|l.fileBase| - 1];
  }

  lemma IdAndBaseReads(style: LanguageStyle, l: Language, line: nat)
    requires GoodLanguage(style, l)
    ensures ParseIdAndBase(l.name, IdAndBase(style, l), line) == Ok(l)
  {
    hide IsNumeral, IndexOf, Trim, TryParseUInt, Trimmed;
    NumeralText(style.numeral, l.langId);
    TrimmedStays(style.numeral);
    TrimmedStays(l.fileBase);
    NumeralParses(style.numeral, l.langId);
    var rest := IdAndBase(style, l);
    if style.withBase {
      IndexOfIs(style.numeral, COLON, l.fileBase);
      assert rest[..|style.numeral|] == style.numeral && rest[|style.numeral| + 1..] == l.fileBase;
    } else {
      IndexOfNone(rest, COLON);
    }
  }

  lemma SpecTrimmed(style: LanguageStyle, l: Language)
    requires GoodLanguage(style, l)
    ensures GoodValue(RenderLanguage(style, l))
  {
    hide IsNumeral, IdAndBase;
    IdAndBaseTrimmed(style, l);
    var s, rest := RenderLanguage(style, l), IdAndBase(style, l);
    assert s[0] == if style.parentheses then 40 else if l.name == [] then EQUALS else l.name[0];
    assert s[|s| - 1] == if style.parentheses then 41 else rest[|rest| - 1];
  }

  lemma SpecUnwrapped(style: LanguageStyle, l: Language)
    requires GoodLanguage(style, l)
    ensures Unwrapped(RenderLanguage(style, l)) == LanguageCore(style, l)
  {
    hide IsNumeral, IdAndBase;
    var t := RenderLanguage(style, l);
    if style.parentheses {
      assert t[1..|t| - 1] == LanguageCore(style, l);
    } else {
      assert t[0] == if l.name == [] then EQUALS else l.name[0];
    }
  }

  /** Name, id and file base of a language are read as they are written, with or without parentheses. */
  lemma LanguageReads(style: LanguageStyle, l: Language, line: nat)
    requires GoodLanguage(style, l)
    ensures ParseLanguage(RenderLanguage(style, l), line) == Ok(l)
  {
    hide IsNumeral, IndexOf, Trim, ParseIdAndBase, IdAndBase, RenderLanguage, Unwrapped, Trimmed;
    var core, rest := LanguageCore(style, l), IdAndBase(style, l);
    SpecTrimmed(style, l);
    TrimmedStays(RenderLanguage(style, l));
    SpecUnwrapped(style, l);
    IndexOfIs(l.name, EQUALS, rest);
    assert core[..|l.name|] == l.name && core[|l.name| + 1..] == rest;
    TrimmedStays(l.name);
    IdAndBaseTrimmed(style, l);
    TrimmedStays(rest);
    IdAndBaseReads(style, l, line);
  }

  /** The keys and the default type as they are spelt. */
  lemma KeysAreSpelt()
    ensures MESSAGE_ID_TYPEDEF == Ascii("MessageIdTypedef") && LANGUAGE_NAMES == Ascii("LanguageNames")
    ensures OUTPUT_BASE == Ascii("OutputBase") && SEVERITY_NAMES == Ascii("SeverityNames")
    ensures FACILITY_NAMES == Ascii("FacilityNames") && EMPTY_FILE.typedef == Ascii("ULONG")
  {
  }

  lemma BlockKeysAreSpelt()
    ensures MESSAGE_ID == Ascii("MessageId")
    ensures SYMBOLIC_NAME == Ascii("SymbolicName") && SEVERITY == Ascii("Severity") && FACILITY == Ascii("Facility")
    ensures LANGUAGE == Ascii("Language")
  {
  }

  // ----- reading back a block -----

  lemma {:induction false} TextReadBack(text: seq<Str>, post: seq<Str>)
    requires forall i :: 0 <= i < |text| ==> text[i] != [DOT]
    ensures Text(text + ([[DOT]] + post)) == text
    ensures AfterText(text + ([[DOT]] + post)) == post
    decreases |text|
  {
    var all := text + ([[DOT]] + post);
    if text == [] {
      assert all == [[DOT]] + post && all[1..] == post;
    } else {
      TextReadBack(text[1..], post);
      assert all[1..] == text[1..] + ([[DOT]] + post);
    }
  }

  /** A line that is no body and no end of block, in front of the rest. */
  lemma ReadLine(line: Str, post: seq<Str>, block: Block)
    requires !BlockLineOf(line).EndOfBlock? && !BlockLineOf(line).LanguageLine?
    ensures ReadBlock([line] + post, block) == ReadBlock(post, Apply(block, BlockLineOf(line)))
  {
    hide BlockLineOf, Apply;
    assert ([line] + post)[1..] == post;
  }

  lemma {:induction false} ReadGap(gap: seq<Str>, post: seq<Str>, block: Block)
    requires forall i :: 0 <= i < |gap| ==> Ignorable(gap[i])
    ensures ReadBlock(gap + post, block) == ReadBlock(post, block)
  {
    if gap == [] {
      assert gap + post == post;
    } else {
      hide Ignorable;
      ReadGap(gap[1..], post, block);
      ReadLine(gap[0], gap[1..] + post, block);
      assert gap + post == [gap[0]] + (gap[1..] + post);
    }
  }

  lemma ReadBody(body: Body, post: seq<Str>, block: Block)
    requires GoodBody(body)
    ensures ReadBlock([KeyLine(LANGUAGE, body.language)] + (body.lines + ([[DOT]] + post)), block)
            == ReadBlock(post, block.(bodies := SetBody(block.bodies, body.language, body.lines)))
  {
    hide BlockLineOf, KeyLine, SetBody;
    BlockLines(body.language);
    TrimmedStays(body.language);
    var tail := body.lines + ([[DOT]] + post);
    assert ([KeyLine(LANGUAGE, body.language)] + tail)[1..] == tail;
    TextReadBack(body.lines, post);
  }

  lemma {:induction false} ReadBodies(bodies: seq<Body>, post: seq<Str>, block: Block)
    requires forall i :: 0 <= i < |bodies| ==> GoodBody(bodies[i])
    ensures ReadBlock(RenderBodies(bodies) + post, block)
            == ReadBlock(post, block.(bodies := Collect(block.bodies, bodies)))
  {
    hide ReadBlock, KeyLine, SetBody, GoodBody;
    if bodies == [] {
      assert RenderBodies(bodies) + post == post;
    } else {
      var b, rest := bodies[0], RenderBodies(bodies[1..]);
      var next := block.(bodies := SetBody(block.bodies, b.language, b.lines));
      ReadBody(b, rest + post, block);
      ReadBodies(bodies[1..], post, next);
      assert RenderBodies(bodies) + post == [KeyLine(LANGUAGE, b.language)] + (b.lines + ([[DOT]] + (rest + post)));
    }
  }

  lemma ReadOption(key: Str, value: Option<Str>, post: seq<Str>, block: Block)
    requires key == SEVERITY || key == FACILITY
    requires value.Some? ==> GoodValue(value.value)
    ensures ReadBlock(RenderOption(key, value) + post, block)
            == ReadBlock(post, if value.None? then block
                               else if key == SEVERITY then block.(severity := value) else block.(facility := value))
  {
    hide ReadBlock, BlockLineOf, KeyLine;
    if value.None? {
      assert RenderOption(key, value) + post == post;
    } else {
      BlockLines(value.value);
      TrimmedStays(value.value);
      BlockKeysDiffer();
      ReadLine(KeyLine(key, value.value), post, block);
    }
  }

  function BlockOf(e: Entry): Block {
    Block(Some(e.symbolicName), e.severity, e.facility, Collect([], e.bodies))
  }

  lemma ReadFields(e: Entry, post: seq<Str>)
    requires GoodEntry(e)
    ensures ReadBlock(RenderFields(e) + post, EMPTY_BLOCK) == ReadBlock(post, BlockOf(e))
  {
    hide ReadBlock, BlockLineOf, KeyLine, RenderOption, RenderBodies, Collect, GoodBody, GoodGap, Trim, NoNewline;
    var name := KeyLine(SYMBOLIC_NAME, e.symbolicName);
    var bodies := RenderBodies(e.bodies) + post;
    var facility := RenderOption(FACILITY, e.facility) + bodies;
    var severity := RenderOption(SEVERITY, e.severity) + facility;
    BlockKeysDiffer();
    BlockLines(e.symbolicName);
    TrimmedStays(e.symbolicName);
    assert RenderFields(e) + post == [name] + severity;
    ReadLine(name, severity, EMPTY_BLOCK);
    var b1 := EMPTY_BLOCK.(symbolicName := Some(e.symbolicName));
    ReadOption(SEVERITY, e.severity, facility, b1);
    ReadOption(FACILITY, e.facility, bodies, b1.(severity := e.severity));
    ReadBodies(e.bodies, post, b1.(severity := e.severity, facility := e.facility));
  }

  /** What may follow a canonical file: nothing, or a line that is no part of a block. */
  predicate EndsBlock(post: seq<Str>) {
    post == [] || BlockLineOf(post[0]).EndOfBlock?
  }

  /** A block ends before the next entry, having passed over the gap. */
  lemma ReadStops(entries: seq<Entry>, end: seq<Str>, post: seq<Str>, block: Block)
    requires GoodEntries(entries) && GoodGap(end) && EndsBlock(post)
    ensures ReadBlock(RenderEntries(entries, end, post), block) == (block, RenderAfterGap(entries, end, post))
  {
    hide BlockLineOf, KeyLine, GoodEntry, RenderFields, IsGapLine, Ignorable;
    var gap := GapBefore(entries, end);
    assert GoodGap(gap) by {
      if entries != [] {
        GapOfEntry(entries[0]);
      }
    }
    GapsAreIgnorable(gap);
    ReadGap(gap, RenderAfterGap(entries, end, post), block);
    if entries != [] {
      BlockLines(if entries[0].id.None? then [] else entries[0].id.value.text);
    }
  }

  lemma GapOfEntry(e: Entry)
    requires GoodEntry(e)
    ensures GoodGap(e.gap)
  {
  }

  // ----- reading back a file -----

  lemma IdReadBack(e: Entry, lastId: nat)
    requires GoodEntry(e)
    ensures ParseMessageId(if e.id.None? then [] else e.id.value.text, lastId) == Some(IdOf(e, lastId))
  {
    hide GoodGap, GoodBody, IsNumeral, TryParseUInt;
    if e.id.Some? {
      NumeralText(e.id.value.text, e.id.value.value);
      TrimmedStays(e.id.value.text);
      NumeralParses(e.id.value.text, e.id.value.value);
    }
  }

  lemma RenderCons(e: Entry, more: seq<Entry>, end: seq<Str>, post: seq<Str>)
    ensures RenderAfterGap([e] + more, end, post) == [IdLine(e)] + (RenderFields(e) + RenderEntries(more, end, post))
    ensures |RenderEntries(more, end, post)| == |GapBefore(more, end)| + |RenderAfterGap(more, end, post)|
  {
    hide RenderFields, KeyLine;
    assert ([e] + more)[1..] == more;
  }

  lemma ParseIdLine(line: Str, post: seq<Str>, at: nat, lastId: nat, inHeader: bool, file: File,
                    value: Str, id: nat, block: Block, tail: seq<Str>)
    requires FileLineOf(line) == MessageIdLine(value)
    requires ParseMessageId(value, lastId) == Some(id)
    requires ReadBlock(post, EMPTY_BLOCK) == (block, tail) && block.symbolicName.Some?
    ensures ParseRest([line] + post, at, lastId, inHeader, file)
            == ParseRest(tail, at + 1 + |post| - |tail|, id, false,
                         file.(messages := file.messages + [MakeMessage(id, block, at + 1).value]))
  {
    hide FileLineOf, ParseMessageId, ReadBlock, ParseLanguage, Truncate, Trim;
    assert ([line] + post)[1..] == post && ([line] + post)[0] == line;
  }

  /** One message block: its `MessageId` line and fields give one message, and parsing goes on after the next gap. */
  lemma ParseEntry(e: Entry, more: seq<Entry>, end: seq<Str>, post: seq<Str>, at: nat, lastId: nat, inHeader: bool, file: File)
    requires GoodEntry(e) && GoodEntries(more) && GoodGap(end) && EndsBlock(post)
    ensures ParseRest(RenderAfterGap([e] + more, end, post), at, lastId, inHeader, file)
            == ParseRest(RenderAfterGap(more, end, post), NextAt(e, more, end, at), IdOf(e, lastId), false,
                         file.(messages := file.messages + [MessageOf(e, lastId, at)]))
  {
    hide ParseRest, FileLineOf, KeyLine, ReadBlock, RenderFields, GoodEntry, Collect, ParseMessageId, EndsBlock;
    hide RenderAfterGap, RenderEntries, GoodGap, GoodEntries;
    var idText := if e.id.None? then [] else e.id.value.text;
    var tail := RenderFields(e) + RenderEntries(more, end, post);
    RenderCons(e, more, end, post);
    FileLines(idText);
    IdReadBack(e, lastId);
    ReadFields(e, RenderEntries(more, end, post));
    ReadStops(more, end, post, BlockOf(e));
    ParseIdLine(IdLine(e), tail, at, lastId, inHeader, file, idText, IdOf(e, lastId), BlockOf(e), RenderAfterGap(more, end, post));
  }

  /** The id of the last entry, or the one before. */
  function LastIdOf(entries: seq<Entry>, lastId: nat): nat {
    if entries == [] then lastId else LastIdOf(entries[1..], IdOf(entries[0], lastId))
  }

  /** Parsing goes through the entries and on to what follows them. */
  lemma {:induction false} ParseEntries(entries: seq<Entry>, end: seq<Str>, post: seq<Str>, at: nat, lastId: nat, inHeader: bool, file: File)
    requires GoodEntries(entries) && GoodGap(end) && EndsBlock(post)
    ensures ParseRest(RenderAfterGap(entries, end, post), at, lastId, inHeader, file)
            == ParseRest(post, at + |RenderAfterGap(entries, end, [])|, LastIdOf(entries, lastId), inHeader && entries == [],
                         file.(messages := file.messages + MessagesOf(entries, end, lastId, at)))
    decreases |entries|
  {
    hide GoodEntry, MessageOf, NextAt, IdOf, ParseRest, EndsBlock, RenderFields, KeyLine;
    if entries == [] {
      assert file.messages + [] == file.messages;
    } else {
      var e, more := entries[0], entries[1..];
      var message := MessageOf(e, lastId, at);
      var next := file.(messages := file.messages + [message]);
      assert entries == [e] + more;
      ParseEntry(e, more, end, post, at, lastId, inHeader, file);
      ParseEntries(more, end, post, NextAt(e, more, end, at), IdOf(e, lastId), false, next);
      var messages := MessagesOf(more, end, IdOf(e, lastId), NextAt(e, more, end, at));
      assert next.messages + messages == file.messages + ([message] + messages);
      AtGoesOn(e, more, end, at);
    }
  }

  lemma AtGoesOn(e: Entry, more: seq<Entry>, end: seq<Str>, at: nat)
    ensures NextAt(e, more, end, at) + |RenderAfterGap(more, end, [])| == at + |RenderAfterGap([e] + more, end, [])|
  {
    hide RenderFields, RenderAfterGap;
    RenderCons(e, more, end, []);
  }

  // ----- the header -----

  /** What a line of the header does to the file. */
  predicate HeaderLine(line: Str, at: nat, file: File, next: File) {
    match FileLineOf(line)
    case Skip => next == file
    case TypedefLine(value) => next == file.(typedef := Trim(value))
    case LanguageNamesLine(value) =>
      ParseLanguage(value, at + 1).Ok? && next == file.(languages := file.languages + [ParseLanguage(value, at + 1).value])
    case IgnoredDirective => next == file
    case _ => false
  }

  lemma ParseHeaderLine(line: Str, post: seq<Str>, at: nat, file: File, next: File)
    requires HeaderLine(line, at, file, next)
    ensures ParseRest([line] + post, at, 0, true, file) == ParseRest(post, at + 1, 0, true, next)
  {
    hide FileLineOf, ParseLanguage, Trim, ReadBlock, ParseMessageId, MakeMessage, Truncate;
    assert ([line] + post)[1..] == post && ([line] + post)[0] == line;
  }

  lemma ParseIgnorable(line: Str, post: seq<Str>, at: nat, lastId: nat, inHeader: bool, file: File)
    requires FileLineOf(line).Skip?
    ensures ParseRest([line] + post, at, lastId, inHeader, file) == ParseRest(post, at + 1, lastId, inHeader, file)
  {
    hide FileLineOf, ParseLanguage, Trim, ReadBlock, ParseMessageId, MakeMessage, Truncate;
    assert ([line] + post)[1..] == post && ([line] + post)[0] == line;
  }

  lemma {:induction false} SkipGap(gap: seq<Str>, post: seq<Str>, at: nat, lastId: nat, inHeader: bool, file: File)
    requires forall i :: 0 <= i < |gap| ==> Ignorable(gap[i])
    ensures ParseRest(gap + post, at, lastId, inHeader, file) == ParseRest(post, at + |gap|, lastId, inHeader, file)
    decreases |gap|
  {
    hide Ignorable, ParseRest, KeyValue;
    if gap == [] {
      assert gap + post == post;
    } else {
      ParseIgnorable(gap[0], gap[1..] + post, at, lastId, inHeader, file);
      SkipGap(gap[1..], post, at + 1, lastId, inHeader, file);
      assert gap + post == [gap[0]] + (gap[1..] + post);
    }
  }

  lemma ItemLine(item: HeaderItem, at: nat, file: File)
    requires GoodHeaderItem(item)
    ensures HeaderLine(RenderHeaderItem(item), at, file, ApplyItem(item, file))
  {
    hide KeyLine, ParseLanguage, KeyValue, Ignorable, RenderLanguage, GoodLanguage, IsGapLine;
    match item {
      case TypedefItem(value) =>
        hide FileLineOf;
        FileLines(value);
        TrimmedStays(value);
      case LanguageItem(style, language) =>
        hide FileLineOf;
        FileLines(RenderLanguage(style, language));
        LanguageReads(style, language, at + 1);
      case DirectiveItem(key, value) =>
        hide FileLineOf;
        FileLines(value);
      case GapItem(line) =>
        GapIffIgnorable(line);
    }
  }

  lemma ParseItem(item: HeaderItem, post: seq<Str>, at: nat, file: File)
    requires GoodHeaderItem(item)
    ensures ParseRest([RenderHeaderItem(item)] + post, at, 0, true, file) == ParseRest(post, at + 1, 0, true, ApplyItem(item, file))
  {
    hide ParseRest, HeaderLine, GoodHeaderItem;
    ItemLine(item, at, file);
    ParseHeaderLine(RenderHeaderItem(item), post, at, file, ApplyItem(item, file));
  }

  lemma {:induction false} ParseHeader(items: seq<HeaderItem>, post: seq<Str>, at: nat, file: File)
    requires forall i :: 0 <= i < |items| ==> GoodHeaderItem(items[i])
    ensures ParseRest(RenderHeader(items) + post, at, 0, true, file)
            == ParseRest(post, at + |items|, 0, true, ApplyHeader(items, file))
    decreases |items|
  {
    hide ParseRest, GoodHeaderItem, RenderHeaderItem, ApplyItem;
    if items == [] {
      assert RenderHeader(items) + post == post;
    } else {
      var rest := RenderHeader(items[1..]) + post;
      ParseItem(items[0], rest, at, file);
      ParseHeader(items[1..], post, at + 1, ApplyItem(items[0], file));
      assert RenderHeader(items) + post == [RenderHeaderItem(items[0])] + rest;
    }
  }

  // ----- rendered lines survive splitting -----

  predicate GoodLines(lines: seq<Str>) {
    forall i :: 0 <= i < |lines| ==> GoodLine(lines[i])
  }

  lemma GoodLinesConcat(a: seq<Str>, b: seq<Str>)
    requires GoodLines(a) && GoodLines(b)
    ensures GoodLines(a + b)
  {
  }

  lemma GoodKeyLines(key: Str, value: Str)
    requires IsKey(key) && GoodValue(value)
    ensures GoodLines([KeyLine(key, value)])
  {
    KeyLineGood(key, value);
  }

  lemma {:induction false} BodiesGood(bodies: seq<Body>)
    requires forall i :: 0 <= i < |bodies| ==> GoodBody(bodies[i])
    ensures GoodLines(RenderBodies(bodies))
  {
    if bodies != [] {
      hide GoodLine, KeyLine;
      KeysAreKeys();
      assert GoodLine([DOT]) by { DotIsGood(); }
      GoodKeyLines(LANGUAGE, bodies[0].language);
      BodiesGood(bodies[1..]);
    }
  }

  lemma DotIsGood()
    ensures GoodLine([DOT])
  {
  }

  lemma FieldsGood(e: Entry)
    requires GoodEntry(e)
    ensures GoodLines(RenderFields(e)) && GoodLines([IdLine(e)])
  {
    hide GoodLine, KeyLine, RenderBodies, GoodBody, IsNumeral, GoodGap;
    KeysAreKeys();
    BodiesGood(e.bodies);
    GoodKeyLines(SYMBOLIC_NAME, e.symbolicName);
    if e.severity.Some? {
      GoodKeyLines(SEVERITY, e.severity.value);
    }
    if e.facility.Some? {
      GoodKeyLines(FACILITY, e.facility.value);
    }
    if e.id.Some? {
      NumeralText(e.id.value.text, e.id.value.value);
    }
    GoodKeyLines(MESSAGE_ID, if e.id.None? then [] else e.id.value.text);
  }

  lemma {:induction false} EntriesGood(entries: seq<Entry>, end: seq<Str>)
    requires GoodEntries(entries) && GoodGap(end)
    ensures GoodLines(RenderEntries(entries, end, [])) && GoodLines(RenderAfterGap(entries, end, []))
    decreases |entries|
  {
    if entries != [] {
      hide GoodLine, RenderFields, IsGapLine, KeyLine;
      FieldsGood(entries[0]);
      GapOfEntry(entries[0]);
      EntriesGood(entries[1..], end);
    }
  }

  lemma HeaderGood(items: seq<HeaderItem>)
    requires forall i :: 0 <= i < |items| ==> GoodHeaderItem(items[i])
    ensures GoodLines(RenderHeader(items))
  {
    hide GoodLine, KeyLine, RenderLanguage, GoodLanguage, IsGapLine;
    KeysAreKeys();
    forall i | 0 <= i < |items| ensures GoodLine(RenderHeaderItem(items[i])) {
      assert GoodHeaderItem(items[i]);
      match items[i] {
        case TypedefItem(value) => KeyLineGood(MESSAGE_ID_TYPEDEF, value);
        case LanguageItem(style, language) =>
          SpecTrimmed(style, language);
          KeyLineGood(LANGUAGE_NAMES, RenderLanguage(style, language));
        case DirectiveItem(key, value) => KeyLineGood(key, value);
        case GapItem(line) =>
      }
    }
  }

  /**
   Parsing inverts rendering: the file that is read back has the header's settings and exactly
   the entries' messages, in order, with ids counted on where they are omitted.
   */
  lemma ParseInvertsRender(c: Canonical)
    requires Good(c)
    ensures ParseSource(Render(c)) == Ok(FileOf(c))
  {
    hide GoodEntry, GoodHeaderItem, RenderAfterGap, ParseRest;
    var lines := RenderLines(c);
    if lines == [] {
      EmptySource(c);
    } else {
      HeaderGood(c.header);
      EntriesGood(c.entries, c.end);
      GoodLinesConcat(RenderHeader(c.header), RenderEntries(c.entries, c.end, []));
      SplitJoin(lines);
      assert TrimLines(lines) == lines;
      ReadLines(c);
    }
  }

  lemma ReadLines(c: Canonical)
    requires Good(c)
    ensures ParseLines(RenderLines(c)) == Ok(FileOf(c))
  {
    hide Good, RenderBefore;
    ParseBefore(c, []);
    ParseNothing(|RenderLines(c)|, LastIdOf(c.entries, 0), c.entries == [], FileOf(c));
  }

  lemma ParseNothing(at: nat, lastId: nat, inHeader: bool, file: File)
    ensures ParseRest([], at, lastId, inHeader, file) == Ok(file)
  {
  }

  /** Parsing goes through a canonical file and on to what follows it. */
  lemma ParseBefore(c: Canonical, post: seq<Str>)
    requires Good(c) && EndsBlock(post)
    ensures ParseLines(RenderBefore(c, post))
            == ParseRest(post, |RenderLines(c)|, LastIdOf(c.entries, 0), c.entries == [], FileOf(c))
  {
    hide GoodEntry, GoodHeaderItem, RenderAfterGap, ParseRest, Ignorable, IsGapLine, EndsBlock;
    var gap := GapBefore(c.entries, c.end);
    assert GoodGap(gap) by {
      if c.entries != [] {
        GapOfEntry(c.entries[0]);
      }
    }
    GapsAreIgnorable(gap);
    var file := ApplyHeader(c.header, EMPTY_FILE);
    var at := |c.header| + |gap|;
    ParseHeader(c.header, RenderEntries(c.entries, c.end, post), 0, EMPTY_FILE);
    SkipGap(gap, RenderAfterGap(c.entries, c.end, post), |c.header|, 0, true, file);
    ParseEntries(c.entries, c.end, post, at, 0, true, file);
    assert file.messages + MessagesOf(c.entries, c.end, 0, at) == MessagesOf(c.entries, c.end, 0, at);
    assert |RenderLines(c)| == at + |RenderAfterGap(c.entries, c.end, [])|;
  }

  /** A canonical file without a line is read as one empty line. */
  lemma EmptySource(c: Canonical)
    requires RenderLines(c) == []
    ensures ParseSource(Render(c)) == Ok(FileOf(c))
  {
    assert Render(c) == [] && SplitLines([]) == [[]];
    assert TrimLines([[]]) == [[]];
    assert c.header == [] by {
      assert |RenderHeader(c.header)| == |c.header|;
    }
    assert c.entries != [] ==> |RenderAfterGap(c.entries, c.end, [])| > 0;
    assert ParseRest([[]], 0, 0, true, EMPTY_FILE) == ParseRest([], 1, 0, true, EMPTY_FILE);
  }
}
