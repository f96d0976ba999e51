/**
 The message table: how the message compiler writes it (tools/mc/TableEmitter.cs), how a C++
 compiler reads it, and how `FormatMessageW` searches it
 (dev/ese/src/os/posix/winapi_message.cxx).
 */
module MessageTable {
  import opened CodeUnits
  import opened McParser
  import opened Sorting
  import opened WideLiteral
  import opened Wrappers

  const ENGLISH := Ascii("English")

  const TABLE_OPEN := Ascii("extern const EseMsgTableEntry ") + Ascii("g_rgEseMsgTable[] =\n{\n")
  const ROW_OPEN := Ascii("    { ")
  const ROW_MIDDLE := Ascii("UL, L\"")
  const ROW_CLOSE := Ascii(" },\n")
  const TABLE_CLOSE := Ascii("};\n\nextern const size_t g_cEseMsgTable = ")
  const COUNT_CLOSE := Ascii(";\n")

  // ----- writing -----

  predicate ById(a: Message, b: Message) {
    a.id <= b.id
  }

  /** The English lines if there are any, else those of the first language, else none. */
  function PreferredLines(m: Message): seq<Str> {
    match GetBody(m.bodies, ENGLISH)
    case Some(lines) => lines
    case None => if m.bodies != [] then m.bodies[0].lines else []
  }

  /** `i` is the first body in a language. */
  predicate FirstIn(bodies: seq<Body>, language: Str, i: nat) {
    i < |bodies| && bodies[i].language == language && forall j :: 0 <= j < i ==> bodies[j].language != language
  }

  lemma {:induction false} GetBodyIs(bodies: seq<Body>, language: Str)
    ensures GetBody(bodies, language).None? ==> forall i :: 0 <= i < |bodies| ==> bodies[i].language != language
    ensures GetBody(bodies, language).Some? ==>
              exists i: nat :: FirstIn(bodies, language, i) && GetBody(bodies, language).value == bodies[i].lines
  {
    if bodies != [] {
      if bodies[0].language == language {
        assert FirstIn(bodies, language, 0);
      } else {
        GetBodyIs(bodies[1..], language);
        if GetBody(bodies, language).Some? {
          var i: nat :| FirstIn(bodies[1..], language, i) && GetBody(bodies, language).value == bodies[1..][i].lines;
          assert FirstIn(bodies, language, i + 1);
        }
      }
    }
  }

  /** The English text is preferred; without one the text that was declared first is. */
  lemma PreferredIs(m: Message)
    ensures forall i: nat :: FirstIn(m.bodies, Ascii("English"), i) ==> PreferredLines(m) == m.bodies[i].lines
    ensures (forall i :: 0 <= i < |m.bodies| ==> m.bodies[i].language != Ascii("English")) ==>
              PreferredLines(m) == if m.bodies == [] then [] else m.bodies[0].lines
  {
    GetBodyIs(m.bodies, Ascii("English"));
  }

  function PreferredBody(m: Message): Str {
    JoinLines(PreferredLines(m))
  }

  function Row(m: Message): Str {
    ROW_OPEN + (Dec(m.id) + (ROW_MIDDLE + (Escape(PreferredBody(m)) + [QUOTE] + ROW_CLOSE)))
  }

  function Rows(ms: seq<Message>): Str {
    if ms == [] then [] else Row(ms[0]) + Rows(ms[1..])
  }

  /** The table and its size, for the messages of a file in any order. */
  function TableText(ms: seq<Message>): Str {
    TABLE_OPEN + (Rows(Sort(ms, ById)) + (TABLE_CLOSE + (Dec(|ms|) + COUNT_CLOSE)))
  }

  lemma {:induction false} RowsAppend(ms: seq<Message>, m: Message)
    ensures Rows(ms + [m]) == Rows(ms) + Row(m)
  {
    hide Row;
    if ms == [] {
      assert ms + [m] == [m] && [m][1..] == [];
    } else {
      RowsAppend(ms[1..], m);
      assert (ms + [m])[1..] == ms[1..] + [m];
    }
  }

  method AppendRow(text: Str, m: Message) returns (r: Str)
    ensures r == text + Row(m)
  {
    hide Escape, PreferredBody, Dec, Literal, Decode, Hazard;
    var escaped := EscapeWideLiteral(PreferredBody(m));
    r := text + ROW_OPEN;
    r := r + Dec(m.id);
    r := r + ROW_MIDDLE;
    r := r + escaped;
    r := r + ([QUOTE] + ROW_CLOSE);
    RowPieces(m, text);
  }

  method AppendRows(text: Str, sorted: seq<Message>) returns (r: Str)
    ensures r == text + Rows(sorted)
  {
    hide Row;
    r := text;
    for i := 0 to |sorted|
      invariant r == text + Rows(sorted[..i])
    {
      r := AppendRow(r, sorted[i]);
      RowsAppend(sorted[..i], sorted[i]);
      assert sorted[..i + 1] == sorted[..i] + [sorted[i]];
    }
    assert sorted[..|sorted|] == sorted;
  }

  method EmitTable(messages: seq<Message>) returns (text: Str)
    ensures text == TableText(messages)
  {
    hide Rows, Sort, Dec, Ascii;
    var sorted := Sort(messages, ById);
    text := AppendRows(TABLE_OPEN, sorted);
    text := text + TABLE_CLOSE;
    text := text + Dec(|sorted|);
    text := text + COUNT_CLOSE;
    Regroup(TABLE_OPEN, Rows(sorted), TABLE_CLOSE, Dec(|sorted|), COUNT_CLOSE);
  }

  lemma Regroup(a: Str, b: Str, c: Str, d: Str, e: Str)
    ensures a + b + c + d + e == a + (b + (c + (d + e)))
  {
  }

  lemma RowPieces(m: Message, before: Str)
    ensures before + ROW_OPEN + Dec(m.id) + ROW_MIDDLE + Escape(PreferredBody(m)) + ([QUOTE] + ROW_CLOSE) == before + Row(m)
  {
    hide Escape, PreferredBody, Dec;
  }

  // ----- reading -----

  datatype TableEntry = TableEntry(id: nat, text: Str)

  datatype Table = Table(entries: seq<TableEntry>, count: nat)

  const ARRAY_START := Ascii("extern const EseMsgTableEntry ") + Ascii("g_rgEseMsgTable[] =\n{\n")
  const SIZE_START := Ascii("};\n\nextern const size_t g_cEseMsgTable = ")

  function Expect(text: Str, token: Str): (r: Option<Str>)
    ensures r.Some? ==> |r.value| == |text| - |token|
  {
    if IsPrefix(token, text) then Some(text[|token|..]) else None
  }

  /** An unsigned decimal constant, and what follows it. */
  function ReadNumber(text: Str): (r: Option<(nat, Str)>)
    ensures r.Some? ==> |r.value.1| < |text|
  {
    var n := RunLength(text, IsDigit);
    if n == 0 then None else Some((Value(10, text[..n]), text[n..]))
  }

  /** The value of a wide string literal whose opening quote has been read, and what follows it. */
  function ReadLiteral(rule: HexRule, text: Str): (r: Option<(Str, Str)>)
    ensures r.Some? ==> |r.value.1| < |text|
  {
    match Literal(text)
    case None => None
    case Some((body, rest)) =>
      match Decode(rule, body)
      case None => None
      case Some(value) => Some((value, rest))
  }

  /** A row after its opening: number, literal, closing. */
  function ReadRow(rule: HexRule, text: Str): (r: Option<(TableEntry, Str)>)
    ensures r.Some? ==> |r.value.1| < |text|
  {
    match ReadNumber(text)
    case None => None
    case Some((id, afterId)) =>
      match Expect(afterId, Ascii("UL, L\""))
      case None => None
      case Some(literal) =>
        match ReadLiteral(rule, literal)
        case None => None
        case Some((value, afterText)) =>
          match Expect(afterText, Ascii(" },\n"))
          case None => None
          case Some(rest) => Some((TableEntry(id, value), rest))
  }

  function ReadRows(rule: HexRule, text: Str): (r: Option<(seq<TableEntry>, Str)>)
    decreases |text|
  {
    match Expect(text, Ascii("    { "))
    case None => Some(([], text))
    case Some(row) =>
      match ReadRow(rule, row)
      case None => None
      case Some((entry, rest)) =>
        match ReadRows(rule, rest)
        case None => None
        case Some((entries, tail)) => Some(([entry] + entries, tail))
  }

  /** The whole table. An array of unknown size needs at least one element. */
  function ReadTable(rule: HexRule, text: Str): Option<Table> {
    match Expect(text, ARRAY_START)
    case None => None
    case Some(rows) =>
      match ReadRows(rule, rows)
      case None => None
      case Some((entries, rest)) =>
        match Expect(rest, SIZE_START)
        case None => None
        case Some(size) =>
          match ReadNumber(size)
          case None => None
          case Some((count, tail)) =>
            if tail == Ascii(";\n") && entries != [] then Some(Table(entries, count)) else None
  }

  // ----- reading what was written -----

  lemma ExpectToken(token: Str, rest: Str)
    ensures Expect(token + rest, token) == Some(rest)
  {
  }

  lemma ReadDec(n: nat, rest: Str)
    requires rest != [] && !IsDigit(rest[0])
    ensures ReadNumber(Dec(n) + rest) == Some((n, rest))
  {
    hide Dec, Value;
    var text := Dec(n) + rest;
    RunLengthIs(text, IsDigit, |Dec(n)|);
    assert text[..|Dec(n)|] == Dec(n) && text[|Dec(n)|..] == rest;
    DecValue(n);
  }

  /** What the C++ compiler makes of a message's row: its text as the literal denotes it, if it does. */
  function EntryOf(rule: HexRule, m: Message): Option<TableEntry> {
    match Decode(rule, Escape(PreferredBody(m)))
    case None => None
    case Some(value) => Some(TableEntry(m.id, value))
  }

  lemma ReadWrittenRow(rule: HexRule, m: Message, rest: Str)
    ensures Expect(Row(m) + rest, ROW_OPEN).Some?
    ensures ReadRow(rule, Expect(Row(m) + rest, ROW_OPEN).value)
            == if EntryOf(rule, m).None? then None else Some((EntryOf(rule, m).value, rest))
  {
    hide Literal, Decode, Escape, PreferredBody, Dec, ReadNumber, Expect;
    var escaped := Escape(PreferredBody(m));
    var close := ROW_CLOSE + rest;
    var literal := escaped + [QUOTE] + close;
    var middle := ROW_MIDDLE + literal;
    var number := Dec(m.id) + middle;
    assert Row(m) + rest == ROW_OPEN + number by {
      assert escaped + [QUOTE] + ROW_CLOSE + rest == literal;
    }
    ExpectToken(ROW_OPEN, number);
    assert middle[0] == 85;
    ReadDec(m.id, middle);
    ExpectToken(ROW_MIDDLE, literal);
    LiteralOfEscape(PreferredBody(m), close);
    ExpectToken(ROW_CLOSE, rest);
  }

  /** The rows of a table as the C++ compiler reads them. */
  function EntriesOf(rule: HexRule, ms: seq<Message>): Option<seq<TableEntry>> {
    if ms == [] then Some([])
    else match (EntryOf(rule, ms[0]), EntriesOf(rule, ms[1..]))
      case (Some(entry), Some(entries)) => Some([entry] + entries)
      case _ => None
  }

  lemma {:induction false} ReadWrittenRows(rule: HexRule, ms: seq<Message>, rest: Str)
    requires Expect(rest, ROW_OPEN).None?
    ensures ReadRows(rule, Rows(ms) + rest)
            == if EntriesOf(rule, ms).None? then None else Some((EntriesOf(rule, ms).value, rest))
  {
    hide ReadRow, Row, EntryOf, Expect;
    if ms == [] {
      assert Rows(ms) + rest == rest;
    } else {
      var tail := Rows(ms[1..]) + rest;
      assert Rows(ms) + rest == Row(ms[0]) + tail;
      ReadWrittenRow(rule, ms[0], tail);
      ReadWrittenRows(rule, ms[1..], rest);
    }
  }

  lemma ReadWrittenTable(rule: HexRule, ms: seq<Message>)
    ensures var entries := EntriesOf(rule, Sort(ms, ById));
            ReadTable(rule, TableText(ms)) == if ms == [] || entries.None? then None else Some(Table(entries.value, |ms|))
  {
    EntriesEach(rule, Sort(ms, ById));
    hide Rows, ReadRows, EntriesOf, Sort, Dec, ReadNumber;
    var count := Dec(|ms|) + COUNT_CLOSE;
    var close := TABLE_CLOSE + count;
    var rows := Rows(Sort(ms, ById)) + close;
    ExpectToken(TABLE_OPEN, rows);
    assert close[0] == 125 && ROW_OPEN[0] == 32;
    assert Expect(close, ROW_OPEN).None? by {
      assert close[..|ROW_OPEN|][0] != ROW_OPEN[0];
    }
    ReadWrittenRows(rule, Sort(ms, ById), close);
    ExpectToken(TABLE_CLOSE, count);
    assert COUNT_CLOSE[0] == 59;
    ReadDec(|ms|, COUNT_CLOSE);
  }

  // ----- what the table holds -----

  /** A text whose literal denotes the text itself. */
  predicate Readable(rule: HexRule, text: Str) {
    rule.FourDigits? || !Hazard(text)
  }

  function Intended(ms: seq<Message>): (r: seq<TableEntry>)
    ensures |r| == |ms| && forall i :: 0 <= i < |r| ==> r[i] == TableEntry(ms[i].id, PreferredBody(ms[i]))
  {
    seq(|ms|, i requires 0 <= i < |ms| => TableEntry(ms[i].id, PreferredBody(ms[i])))
  }

  lemma EntryIntended(rule: HexRule, m: Message)
    ensures EntryOf(rule, m) == Some(TableEntry(m.id, PreferredBody(m))) <==> Readable(rule, PreferredBody(m))
  {
    hide Decode, Escape, Hazard, PreferredBody;
    RoundTripFourDigits(PreferredBody(m));
    RoundTripIso(PreferredBody(m));
  }

  /** The rows are read if and only if each of them is, and then one by one. */
  lemma {:induction false} EntriesEach(rule: HexRule, ms: seq<Message>)
    ensures EntriesOf(rule, ms).Some? <==> forall i :: 0 <= i < |ms| ==> EntryOf(rule, ms[i]).Some?
    ensures EntriesOf(rule, ms).Some? ==>
              var entries := EntriesOf(rule, ms).value;
              |entries| == |ms| && forall i :: 0 <= i < |ms| ==> EntryOf(rule, ms[i]) == Some(entries[i])
  {
    hide EntryOf;
    if ms != [] {
      EntriesEach(rule, ms[1..]);
      assert ms == [ms[0]] + ms[1..];
    }
  }

  lemma EntriesIntended(rule: HexRule, ms: seq<Message>)
    ensures EntriesOf(rule, ms) == Some(Intended(ms)) <==> forall i :: 0 <= i < |ms| ==> Readable(rule, PreferredBody(ms[i]))
  {
    hide EntryOf, EntriesOf, Readable, PreferredBody;
    EntriesEach(rule, ms);
    var intended := Intended(ms);
    forall i | 0 <= i < |ms|
      ensures EntryOf(rule, ms[i]) == Some(intended[i]) <==> Readable(rule, PreferredBody(ms[i]))
    {
      EntryIntended(rule, ms[i]);
    }
    if forall i :: 0 <= i < |ms| ==> Readable(rule, PreferredBody(ms[i])) {
      assert EntriesOf(rule, ms).value == intended;
    }
  }

  /**
   The C++ compiler reads the intended table, sorted by id and with the right size, if and only
   if there is a message and every message's text is readable: always under the four-digit rule, and under the ISO rule
   exactly when no hex escape is followed by a hexadecimal digit.
   */
  lemma TableIsIntended(rule: HexRule, ms: seq<Message>)
    ensures ReadTable(rule, TableText(ms)) == Some(Table(Intended(Sort(ms, ById)), |ms|))
            <==> ms != [] && forall m :: m in ms ==> Readable(rule, PreferredBody(m))
  {
    hide ReadTable, TableText, EntriesOf, Sort, Readable, PreferredBody, Intended;
    var sorted := Sort(ms, ById);
    ReadWrittenTable(rule, ms);
    EntriesIntended(rule, sorted);
    SortMembers(ms, ById);
    assert forall i :: 0 <= i < |sorted| ==> sorted[i] in sorted;
  }

  // ----- messages with the same id -----

  function WithId(ms: seq<Message>, id: nat): seq<Message> {
    if ms == [] then [] else (if ms[0].id == id then [ms[0]] else []) + WithId(ms[1..], id)
  }

  function EntriesWithId(entries: seq<TableEntry>, id: nat): seq<TableEntry> {
    if entries == [] then [] else (if entries[0].id == id then [entries[0]] else []) + EntriesWithId(entries[1..], id)
  }

  lemma {:induction false} ClassIsWithId(ms: seq<Message>, m: Message)
    ensures Class(ms, m, ById) == WithId(ms, m.id)
  {
    if ms != [] {
      ClassIsWithId(ms[1..], m);
    }
  }

  lemma {:induction false} IntendedWithId(ms: seq<Message>, id: nat)
    ensures EntriesWithId(Intended(ms), id) == Intended(WithId(ms, id))
  {
    hide PreferredBody;
    if ms != [] {
      IntendedWithId(ms[1..], id);
      assert Intended(ms)[1..] == Intended(ms[1..]);
      assert WithId(ms, id) == (if ms[0].id == id then [ms[0]] else []) + WithId(ms[1..], id);
      assert Intended([ms[0]] + WithId(ms[1..], id)) == [Intended(ms)[0]] + Intended(WithId(ms[1..], id));
      assert [] + WithId(ms[1..], id) == WithId(ms[1..], id);
    }
  }

  /** Messages with the same id stand in the table in the order of the source: the sort is stable. */
  lemma DuplicatesKeepOrder(rule: HexRule, ms: seq<Message>, id: nat)
    requires forall m :: m in ms ==> Readable(rule, PreferredBody(m))
    ensures ReadTable(rule, TableText(ms)).Some? <==> ms != []
    ensures ms != [] ==> EntriesWithId(ReadTable(rule, TableText(ms)).value.entries, id) == Intended(WithId(ms, id))
  {
    hide ReadTable, TableText, Readable, PreferredBody, Sort, Intended;
    TableIsIntended(rule, ms);
    ReadWrittenTable(rule, ms);
    IntendedWithId(Sort(ms, ById), id);
    var m := Message(id, [], None, None, [], 0);
    SortStable(ms, m, ById);
    ClassIsWithId(ms, m);
    ClassIsWithId(Sort(ms, ById), m);
  }

  // ----- searching -----

  predicate Ordered(entries: seq<TableEntry>) {
    forall i, j :: 0 <= i < j < |entries| ==> entries[i].id <= entries[j].id
  }

  /** Where the halving of `entries[lo..hi]` ends up. */
  function Probe(entries: seq<TableEntry>, id: nat, lo: nat, hi: nat): (r: Option<nat>)
    requires lo <= hi <= |entries|
    ensures r.Some? ==> lo <= r.value < hi && entries[r.value].id == id
    decreases hi - lo
  {
    if lo == hi then None
    else
      var mid := lo + (hi - lo) / 2;
      if entries[mid].id == id then Some(mid)
      else if entries[mid].id < id then Probe(entries, id, mid + 1, hi)
      else Probe(entries, id, lo, mid)
  }

  lemma ProbeStep(entries: seq<TableEntry>, id: nat, lo: nat, hi: nat)
    requires lo < hi <= |entries|
    ensures var mid := lo + (hi - lo) / 2;
            lo <= mid < hi && Probe(entries, id, lo, hi) ==
            if entries[mid].id == id then Some(mid)
            else if entries[mid].id < id then Probe(entries, id, mid + 1, hi)
            else Probe(entries, id, lo, mid)
  {
  }

  lemma ProbeEnd(entries: seq<TableEntry>, id: nat, at: nat)
    requires at <= |entries|
    ensures Probe(entries, id, at, at) == None
  {
  }

  method FindMessageTemplate(table: Table, id: nat) returns (r: Option<Str>)
    requires Ordered(table.entries) && table.count == |table.entries|
    ensures r.Some? <==> exists i :: 0 <= i < |table.entries| && table.entries[i].id == id
    ensures r.Some? ==> TableEntry(id, r.value) in table.entries
    ensures var at := Probe(table.entries, id, 0, |table.entries|);
            r == if at.None? then None else Some(table.entries[at.value].text)
  {
    hide Probe;
    var lo, hi := 0, table.count;
    while lo < hi
      invariant 0 <= lo <= hi <= |table.entries|
      invariant forall i :: 0 <= i < lo ==> table.entries[i].id < id
      invariant forall i :: hi <= i < |table.entries| ==> table.entries[i].id > id
      invariant Probe(table.entries, id, lo, hi) == Probe(table.entries, id, 0, |table.entries|)
    {
      ProbeStep(table.entries, id, lo, hi);
      var mid := lo + (hi - lo) / 2;
      var entry := table.entries[mid];
      if entry.id == id {
        return Some(entry.text);
      }
      if entry.id < id {
        lo := mid + 1;
      } else {
        hi := mid;
      }
    }
    ProbeEnd(table.entries, id, lo);
    return None;
  }

  /** Which of two messages with one id is found depends on the other messages in the table. */
  lemma FoundDuplicateVaries(first: Str, second: Str, other: Str)
    ensures var a, b, c := TableEntry(1, first), TableEntry(1, second), TableEntry(0, other);
            && Ordered([a, b]) && Probe([a, b], 1, 0, 2) == Some(1)
            && Ordered([c, a, b]) && Probe([c, a, b], 1, 0, 3) == Some(1) && [c, a, b][1] == a
  {
  }

  lemma EntryKeepsId(rule: HexRule, m: Message)
    requires EntryOf(rule, m).Some?
    ensures EntryOf(rule, m).value.id == m.id
  {
  }

  /** Whatever the texts become, a table that can be read can be searched. */
  lemma TableIsSearchable(rule: HexRule, ms: seq<Message>)
    ensures var table := ReadTable(rule, TableText(ms));
            table.Some? ==> Ordered(table.value.entries) && table.value.count == |table.value.entries|
  {
    hide Sort, EntriesOf, ReadTable, TableText, EntryOf;
    var sorted := Sort(ms, ById);
    ReadWrittenTable(rule, ms);
    SortSorts(ms, ById);
    EntriesEach(rule, sorted);
    if EntriesOf(rule, sorted).Some? {
      forall i | 0 <= i < |sorted|
        ensures EntriesOf(rule, sorted).value[i].id == sorted[i].id
      {
        EntryKeepsId(rule, sorted[i]);
      }
    }
  }

  // ----- end to end -----

  predicate DistinctIds(ms: seq<Message>) {
    forall i, j :: 0 <= i < j < |ms| ==> ms[i].id != ms[j].id
  }

  datatype Lookup = Rejected(error: Error) | Unreadable | Missing | Found(text: Str)

  /** What is seen through a pointer to a literal: the text up to its first NUL. */
  function Pointed(text: Str): (r: Str)
    ensures |r| <= |text|
    ensures r == text <==> 0 !in text
  {
    var n := RunLength(text, IsNotNul);
    assert n == |text| ==> text[..n] == text;
    text[..n]
  }

  predicate IsNotNul(u: Unit) {
    u != 0
  }

  /** A text whose literal denotes something: no escape in it is too large. */
  predicate Denotes(rule: HexRule, text: Str) {
    rule.FourDigits? || !TooWide(text)
  }

  lemma EntryDenotes(rule: HexRule, m: Message)
    ensures EntryOf(rule, m).Some? <==> Denotes(rule, PreferredBody(m))
  {
    hide Decode, Escape, TooWide, PreferredBody;
    RoundTripFourDigits(PreferredBody(m));
    IsoDenotes(PreferredBody(m));
  }

  /**
   The whole chain: parse a message file, emit the table, let a C++ compiler read it, search it, and
   look through the pointer that is found. The table cannot be read exactly if there is no message,
   or some text has a hex escape that is too large. Otherwise an id is missing exactly if no message
   has it, and with distinct ids a message's text is found if and only if it is readable and has no
   NUL, whatever the other texts are.
   */
  method Resolve(source: Str, rule: HexRule, id: nat) returns (r: Lookup)
    ensures ParseSource(source).Err? <==> r.Rejected?
    ensures ParseSource(source).Err? ==> r.error == ParseSource(source).error
    ensures ParseSource(source).Ok? ==>
              var ms := ParseSource(source).value.messages;
              && (r.Unreadable? <==> ms == [] || exists m :: m in ms && !Denotes(rule, PreferredBody(m)))
              && (ms != [] && (forall m :: m in ms ==> Readable(rule, PreferredBody(m))) ==> !r.Unreadable?)
              && (!r.Unreadable? ==> (r.Missing? <==> forall m :: m in ms ==> m.id != id))
              && (r.Found? ==> exists m :: m in ms && m.id == id && EntryOf(rule, m).Some? && r.text == Pointed(EntryOf(rule, m).value.text))
              && (DistinctIds(ms) && !r.Unreadable? ==>
                    forall m :: m in ms && m.id == id ==>
                      && r.Found? && (Readable(rule, PreferredBody(m)) ==> r.text == Pointed(PreferredBody(m)))
                      && (r.text == PreferredBody(m) <==> Readable(rule, PreferredBody(m)) && 0 !in PreferredBody(m)))
  {
    hide ParseSource, TableText, ReadTable, Sort, PreferredBody, Readable, Denotes, Ordered, EntriesOf, EntryOf, Probe, Pointed;
    var file := Parse(source);
    if file.Err? {
      return Rejected(file.error);
    }
    var ms := file.value.messages;
    var text := EmitTable(ms);
    var table := ReadTable(rule, text);
    ReadWrittenTable(rule, ms);
    RowsDecide(rule, ms);
    if table.None? {
      return Unreadable;
    }
    TableIsSearchable(rule, ms);
    var found := FindMessageTemplate(table.value, id);
    FoundIsEntry(rule, ms, table.value.entries, id, found);
    return if found.None? then Missing else Found(Pointed(found.value));
  }

  /** Whether the table can be read depends on each message, not on their order. */
  lemma RowsDecide(rule: HexRule, ms: seq<Message>)
    ensures EntriesOf(rule, Sort(ms, ById)).None? <==> exists m :: m in ms && !Denotes(rule, PreferredBody(m))
    ensures (forall m :: m in ms ==> Readable(rule, PreferredBody(m))) ==> EntriesOf(rule, Sort(ms, ById)).Some?
  {
    hide Sort, EntriesOf, EntryOf, Readable, PreferredBody, Denotes;
    var sorted := Sort(ms, ById);
    EntriesEach(rule, sorted);
    SortMembers(ms, ById);
    forall m | m in ms
      ensures EntryOf(rule, m).Some? <==> Denotes(rule, PreferredBody(m))
      ensures Readable(rule, PreferredBody(m)) ==> EntryOf(rule, m).Some?
    {
      EntryDenotes(rule, m);
      EntryIntended(rule, m);
    }
    if m :| m in ms && !Denotes(rule, PreferredBody(m)) {
      var i :| 0 <= i < |sorted| && sorted[i] == m;
    }
    assert forall i :: 0 <= i < |sorted| ==> sorted[i] in sorted;
  }

  /** What is seen of a decoded text is the text itself exactly if it is readable and has no NUL. */
  lemma SeenIffReadable(rule: HexRule, m: Message)
    requires EntryOf(rule, m).Some?
    ensures var text := PreferredBody(m);
            && (Readable(rule, text) ==> EntryOf(rule, m).value.text == text)
            && (Pointed(EntryOf(rule, m).value.text) == text <==> Readable(rule, text) && 0 !in text)
  {
    hide Decode, Escape, Hazard, PreferredBody, Pointed;
    RoundTripFourDigits(PreferredBody(m));
    IsoLength(PreferredBody(m));
  }

  lemma FoundIsEntry(rule: HexRule, ms: seq<Message>, entries: seq<TableEntry>, id: nat, found: Option<Str>)
    requires EntriesOf(rule, Sort(ms, ById)) == Some(entries)
    requires found.Some? <==> exists i :: 0 <= i < |entries| && entries[i].id == id
    requires found.Some? ==> TableEntry(id, found.value) in entries
    ensures found.None? <==> forall m :: m in ms ==> m.id != id
    ensures found.Some? ==> exists m :: m in ms && m.id == id && EntryOf(rule, m) == Some(TableEntry(id, found.value))
    ensures DistinctIds(ms) ==>
              forall m :: m in ms && m.id == id ==>
                && found.Some? && (Readable(rule, PreferredBody(m)) ==> found.value == PreferredBody(m))
                && (Pointed(found.value) == PreferredBody(m) <==> Readable(rule, PreferredBody(m)) && 0 !in PreferredBody(m))
  {
    hide Sort, PreferredBody, EntriesOf, EntryOf, Readable, Pointed;
    var sorted := Sort(ms, ById);
    EntriesEach(rule, sorted);
    SortMembers(ms, ById);
    forall m | m in ms && m.id == id
      ensures found.Some?
    {
      var i :| 0 <= i < |sorted| && sorted[i] == m;
      EntryKeepsId(rule, m);
      assert entries[i].id == id;
    }
    if found.Some? {
      var i :| 0 <= i < |entries| && entries[i] == TableEntry(id, found.value);
      EntryKeepsId(rule, sorted[i]);
      assert sorted[i] in sorted && sorted[i].id == id;
      if DistinctIds(ms) {
        SeenIffReadable(rule, sorted[i]);
        forall m | m in ms && m.id == id
          ensures m == sorted[i]
        {
        }
      }
    }
  }
}
