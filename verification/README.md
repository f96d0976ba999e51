# Verified model of the ESE port's build tools and scenario runner

The repository ports the ESE storage engine to Linux. Around the engine it carries three
complete programs of its own, and this project models those three and proves what they are for.

* **The message compiler** (`tools/mc`) reads a `.mc` file, and writes a sorted C++ table of
  message texts and a header of `#define`s. The model covers the parser with its shared line
  cursor, the literal escaper, both emitters, and the binary search in the engine's `FormatMessage`
  that consumes the table. Main results: parsing inverts rendering (`McRoundTrip.ParseInvertsRender`);
  from source text to search result every id yields its message's text (`EndToEnd.ResolveEntry`);
  after line splicing and comment removal the header is one `#define` per message, whatever the
  body lines contain, exactly when no comment opens in a symbolic name or the type's name
  (`HeaderEmitter.OneDefinePerMessage`), and a separate reader of that code finds each message's name,
  type and id exactly when these are what C++ can take (`HeaderReader.ConstantsReadBack`); in any
  source a blank line or comment outside a body moves line numbers and does nothing else
  (`McGaps.GapChangesNoSource`).
* **The tracepoint generator** (`tools/etwlttng`) joins a list of events with their definitions and
  writes four C files that have to agree. The emit loops are modelled token by token or statement by
  statement; the result is given to readers of C lists, a small `printf` and an interpreter of the
  generated statements, and a compiler's checks on names and types. Main result: an event raised by the
  engine is recorded as its own tracepoint with its own values, exactly when no names collide in any
  event, no overflow text is null and no typed blob is missing or short
  (`TraceProgram.EventIsRecorded`).
* **The scenario runner** (`integration-tests/src`) has a backtracking glob matcher, tier selection
  and option parsing, a fork/pipe/wait protocol, a child-process object and a thread group. Main
  results: the matcher agrees with declarative globs exactly on star-free texts
  (`Glob.AgreesOnEveryPatternIffStarFree`); the pipe protocol loses nothing, never deadlocks and
  reports faithfully on every interleaving (`ForkProtocol`); every life of a child object reaps
  exactly once (`ChildProcess.EveryLifeEndsReaped`).

Loops of the source are methods with loops, its objects are classes, and each is proved against a
specification function or a stated property. Concurrent parts are state machines over their
steps, and their results hold for every reachable state. C# strings are sequences of 16-bit code
units (`CodeUnits.Str`); the rest of the text is `string`.

Places where the code does less than its surroundings suggest, kept as the code has them:

* The comment at `tools/mc/TableEmitter.cs:94-96` takes `\x` to end after four digits. Under section
  5.13.3 of ISO/IEC 14882:2017 it does not end there. The round trip is proved unconditionally for a
  four-digit reader, and for the ISO rule exactly when no escaped unit is followed by a hexadecimal
  digit (`WideLiteral.RoundTripIso`).
* The glob loop compares characters before it looks for `*`, so a `*` in the text facing a `*` in the
  pattern is consumed literally. Hence the exact condition on texts.
* Symbolic names and the type's name go into the header unchecked, so `SymbolicName=A/*` swallows the
  lines after its `#define` (`HeaderEmitter.CommentInNameSpoils`).
* A definition that is repeated gives an event the same field twice; the generated files then do not
  compile, and no event is recorded (`TraceProgram.OtherEventStopsAll`).
* `ctf_string` lines replace a null text, but the overflow format passes a null `AnsiString` to `%s`,
  which is undefined (`OverflowFormat.OverflowPrints`).
* An empty message file gives an array of unknown size with empty braces, which ISO C++ refuses (gcc
  accepts it as an extension), and a text with U+0000 is seen only up to it (`MessageTable.Resolve`).
* The child's destructor ignores the result of its wait, so an interrupted wait leaves a zombie;
  `ChildProcess.EveryLifeEndsReaped` states exactly when.

## Model

| member | source | states |
|---|---|---|
| `Glob.MatchesGlob` | integration-tests/src/Framework/ScenarioRegistry.cxx:21-65 | the four-index loop ends on every input with its indices in range; a true answer means a declarative match (or an empty pattern), and on a text without `*` the answer is exactly the declarative match |
| `Glob.Sound` | integration-tests/src/Framework/ScenarioRegistry.cxx:21-65 | whatever the loop accepts matches declaratively, for all texts |
| `Glob.LaterStarSuffices` | integration-tests/src/Framework/ScenarioRegistry.cxx:49-55 | once a later star is reached, an earlier star never has to be retried |
| `Glob.Complete` | integration-tests/src/Framework/ScenarioRegistry.cxx:21-65 | every declarative match of a star-free text is accepted |
| `Glob.WitnessRejected` | integration-tests/src/Framework/ScenarioRegistry.cxx:35-44 | for every text with a `*` there is a pattern that matches it and that the loop rejects |
| `Glob.AgreesOnEveryPatternIffStarFree` | integration-tests/src/Framework/ScenarioRegistry.cxx:21-65 | the loop agrees with the declarative meaning on every non-empty pattern if and only if the text has no `*` |
| `WideLiteral.EscapeWideLiteral` | tools/mc/TableEmitter.cs:97-136 | the output is printable ASCII, ends at the emitted quote and nowhere earlier, and decodes to the input: always with four-digit `\x`, and under the ISO rule exactly without a hazard |
| `WideLiteral.LiteralOfEscape` | tools/mc/TableEmitter.cs:97-136 | a C++ reader finds the end of the literal at the emitted quote whatever follows |
| `WideLiteral.RoundTripFourDigits` | tools/mc/TableEmitter.cs:97-136 | decoding with four-digit escapes inverts escaping on every UTF-16 string |
| `WideLiteral.RoundTripIso` | tools/mc/TableEmitter.cs:97-136 | under the ISO rule the round trip holds if and only if no `\x`-escaped unit is directly followed by a hexadecimal digit |
| `WideLiteral.IsoDenotes` | tools/mc/TableEmitter.cs:97-136 | under the ISO rule the literal of a text denotes nothing if and only if some `\x`-escaped unit makes, with the hexadecimal digits after it, a value of 0x10000 or more |
| `McParser.TryMatchKey` | tools/mc/McParser.cs:170-186 | a line matches a key exactly when it is the key, blanks, `=` and a value; the value is what follows |
| `McParser.KeysExclusive` | tools/mc/McParser.cs:170-186 | no line matches two different keys, also when one is a prefix of the other |
| `McParser.ParseText` | tools/mc/McParser.cs:108-119 | the loop collects the lines up to a lone dot and leaves the cursor after it, or at the end of the file |
| `McParser.ParseMessageBody` | tools/mc/McParser.cs:66-134 | the loop over the shared cursor reads one block, as specified on the remaining lines, and leaves the cursor at the first line that is not its own |
| `McParser.Parse` | tools/mc/McParser.cs:5-64 | the whole cursor-driven parser refines a recursive specification on line lists; the rows down to `ParseInvertsRender` say what that specification accepts, rejects and ignores |
| `McRoundTrip.GapIffIgnorable` | tools/mc/McParser.cs:19-23 | a line is skipped if and only if it is white space up to its end or up to a semicolon |
| `McGaps.GapChangesNothing` | tools/mc/McParser.cs:13-23 | for every list of lines, well-formed or not: such a line inserted anywhere but in a message's text gives the same file or the same error, with exactly the later line numbers one higher |
| `McGaps.GapChangesNoSource` | tools/mc/McParser.cs:80-84 | the same of a source text with any line ends |
| `McRoundTrip.LanguageReads` | tools/mc/McParser.cs:136-153 | a language written as `name=id` or `name=id:base`, in parentheses or not, with any numeral for its id, is read as that name, id and base; without a base the name is the base |
| `CodeUnits.TrimIs` | tools/mc/McParser.cs:86-105 | trimming a value takes exactly the white space around it |
| `McRoundTrip.NumeralParses` | tools/mc/McParser.cs:163-168 | a numeral, decimal with or without leading zeros or hexadecimal after `0x` or `0X`, is read as its number |
| `McRoundTrip.ParseBefore` | tools/mc/McParser.cs:11-63 | a well-formed file followed by anything that is no part of its last block: parsing reads the file and goes on with what follows, at its line number and with the last id |
| `McErrors.DirectiveAfterMessages` | tools/mc/McParser.cs:25-48 | a `MessageIdTypedef`, `LanguageNames` or other header line after a well-formed file with a message is rejected with its own error at its own line |
| `McErrors.UnexpectedLineAfter` | tools/mc/McParser.cs:60 | a line that is no gap and has no key is rejected at its line, with its first 80 characters and an ellipsis if it is longer |
| `McErrors.MalformedIdAfter` | tools/mc/McParser.cs:155-161 | an id that is neither empty nor a number is rejected at its line |
| `McErrors.NamelessAfter` | tools/mc/McParser.cs:127 | a block without a symbolic name is rejected at the line of its `MessageId`, with the id it was given or would have got |
| `McErrors.MalformedLanguageAfter` | tools/mc/McParser.cs:136-142 | a language without `=` is rejected at its line |
| `McErrors.MalformedLanguageIdAfter` | tools/mc/McParser.cs:148-149 | a language whose id is no number is rejected at its line |
| `McRoundTrip.CarriageReturnsIgnored` | tools/mc/McParser.cs:188-189 | carriage returns put before any newlines change nothing in the result |
| `McRoundTrip.ParseEntry` | tools/mc/McParser.cs:50-58 | one rendered message block, followed by anything that starts another or ends the file, is parsed to its message, and the id counter goes on from its id |
| `McRoundTrip.ParseInvertsRender` | tools/mc/McParser.cs:5-134 | parsing inverts rendering of every well-formed file, with any gap lines, numerals and styles of language: same header settings, same messages in order, omitted ids one more than the previous modulo 2^32 |
| `MessageTable.EmitTable` | tools/mc/TableEmitter.cs:23-71 | the appended text is that of the sorted table, whose meaning the next two rows give |
| `MessageTable.PreferredIs` | tools/mc/TableEmitter.cs:76-87 | the preferred text is the English one; without one it is the first declared, and without any it is empty |
| `MessageTable.ReadWrittenTable` | tools/mc/TableEmitter.cs:49-67 | a C++ reader of the emitted text finds one entry per message in sorted order, and a count equal to their number; it fails exactly if there is no message or some literal does not decode |
| `MessageTable.TableIsIntended` | tools/mc/TableEmitter.cs:52-87 | the entries that a compiler reads are the ids with the preferred texts if and only if there is a message and every preferred text is readable under the rule for `\x` |
| `MessageTable.DuplicatesKeepOrder` | tools/mc/TableEmitter.cs:23-25 | messages with the same id stand in the table in source order, because the sort is stable |
| `MessageTable.TableIsSearchable` | tools/mc/TableEmitter.cs:23-25 | whatever the texts, the table read back is ordered by id, as the binary search needs |
| `MessageTable.FindMessageTemplate` | dev/ese/src/os/posix/winapi_message.cxx:62-84 | on an ordered table the binary search finds an entry exactly when there is one with that id, and returns the text of the entry that the halving hits |
| `MessageTable.FoundDuplicateVaries` | dev/ese/src/os/posix/winapi_message.cxx:62-84 | of two entries with one id the search returns the second when they are alone and the first when an entry with a smaller id is before them |
| `MessageTable.Resolve` | tools/mc/McParser.cs:5-64 | for every source: rejected exactly when parsing fails, unreadable exactly when there is no message or some text has a hex escape that is too large; otherwise an id is missing exactly when no message has it, and with distinct ids a message's preferred text is seen if and only if it is readable and has no NUL, whatever the others are |
| `EndToEnd.PreferredIsIntended` | tools/mc/TableEmitter.cs:76-87 | the emitted text of a parsed entry is its last English text, else the last text of its first language, else empty |
| `EndToEnd.MessageId` | tools/mc/McParser.cs:155-161 | the id of the k-th message is the last id given up to it plus the entries since, or k + 1 if none is given, modulo 2^32 |
| `EndToEnd.ResolveEntry` | tools/mc/TableEmitter.cs:18-136 | parse, emit, compile, search: the id of any entry of a well-formed file with distinct ids and readable texts gives that entry's intended text, up to its first NUL if it has one |
| `HeaderEmitter.EmitHeader` | tools/mc/HeaderEmitter.cs:7-42 | the nested loops append the preamble and each message's comment block and `#define`, line by line; the rows on `HeaderReader` say what these lines are |
| `TranslationPhases.CommentsVanish` | tools/mc/HeaderEmitter.cs:23-35 | a run of comment lines ended by a plain one leaves no code after splicing, also if lines end in backslashes |
| `TranslationPhases.SpoiltLine` | tools/mc/HeaderEmitter.cs:36-37 | a code line in which a comment opens never comes out as it was, whatever follows it |
| `HeaderEmitter.ParsedIsClean` | tools/mc/McParser.cs:5-134 | nothing that the parser returns contains a newline |
| `HeaderEmitter.MessagesGiveDefines` | tools/mc/HeaderEmitter.cs:21-39 | whatever follows, the blocks of any messages leave exactly their `#define`s, in order, if no comment opens in a name or the type; otherwise the code does not start with them |
| `HeaderEmitter.OneDefinePerMessage` | tools/mc/HeaderEmitter.cs:21-39 | after splicing and removal of `//` and block comments anywhere (section 5.2 of ISO/IEC 14882:2017) the header of a parsed file without quotes in its names is the pragma and exactly one `#define` per message, in order, if and only if no symbolic name and, with any message, no type name contains `//` or `/*` |
| `HeaderReader.ReadDefineIs` | tools/mc/HeaderEmitter.cs:36-37 | a reader of `#define <identifier> ((<type>)<digits>L)` finds the message's name, the file's type and the message's id in the emitted line if and only if the name is an identifier and the type has no closing parenthesis |
| `HeaderReader.ConstantsReadBack` | tools/mc/HeaderEmitter.cs:11-41 | for every source that parses to a type without quotes: the header's code is the pragma and, read back in order, one constant per message with its name, the type and its id, if and only if there is no message or all names are identifiers and the type has neither a closing parenthesis nor a comment |
| `HeaderReader.CommentsReadBack` | tools/mc/HeaderEmitter.cs:11-41 | for every source that parses: after the five lines of preamble a reader of the comments finds every message's name and preferred text, line by line, whatever they hold |
| `HeaderEmitter.CommentInNameSpoils` | tools/mc/HeaderEmitter.cs:36 | the well-formed file with the names `A/*` and `B` parses, and its header is not one `#define` per message |
| `TraceModel.SplitIsExact` | tools/etwlttng/Model.cs:39-47 | typed fields followed by overflow fields are the declared fields; at most ten arguments |
| `TraceModel.ScalarTypeIsExact` | tools/etwlttng/TypeMap.cs:10-21 | the C type of a scalar has the width and the sign of its type in the event list |
| `TraceParser.Parse` | tools/etwlttng/Parser.cs:23-121 | events come in list order, each with, in file order, the fields of all data lines whose last `Define` names it, repeated and out-of-order definitions included; it throws at the first unreadable line and only then |
| `TraceParser.Gather` | tools/etwlttng/Parser.cs:30-110 | the one-pass state machine with its dictionary holds, at the end, what the per-line specification says of the whole file |
| `TraceParser.ReadData` | tools/etwlttng/Parser.cs:92-108 | a data line gives the field named by the last of each repeated attribute, is skipped without type or name, and throws on an unknown type or bad length |
| `TraceParser.TypeNamesMean` | tools/etwlttng/Parser.cs:123-138 | each type is read from its own name and from no other |
| `TraceParser.LookupIsLast` | tools/etwlttng/Parser.cs:92-96 | a repeated attribute has the last value given, an absent one has none |
| `TraceParser.DataLineMeans` | tools/etwlttng/Parser.cs:97-108 | a data line gives a field if and only if it names that field's type and name; a length counts for blobs only |
| `TraceEmitter.SignatureFits` | tools/etwlttng/Model.cs:39-47 | the signature that all artefacts of an event share has at most ten entries, and none exactly when the event has no fields |
| `TraceEmitter.EmitTpArgs` | tools/etwlttng/Emitter.cs:53-77 | the emitted argument pairs read back as the event's signature |
| `TraceEmitter.EmitTpFields` | tools/etwlttng/Emitter.cs:79-89 | one `ctf_*` line per argument, in order, each reading that argument as the type it has, a text and only a text with its null guard |
| `TraceEmitter.EmitTrampolineParams` | tools/etwlttng/Emitter.cs:171-192 | the emitted parameter list reads back as the event's signature |
| `TraceEmitter.EmitTracepointCall` | tools/etwlttng/Emitter.cs:194-203 | the arguments passed on are the signature's names, in order |
| `TraceEmitter.EmitTableParams` | tools/etwlttng/Emitter.cs:260-282 | the table member's parameter list reads back as the event's signature |
| `TraceEmitter.EmitDispatchCall` | tools/etwlttng/Emitter.cs:351-373 | the call's argument list reads back as the locals of the typed fields and the overflow buffer, as many as the signature has parameters |
| `OverflowFormat.EmitOverflowFormat` | tools/etwlttng/Emitter.cs:409-439 | the loop builds the format and the argument list of the overflow fields |
| `OverflowFormat.ArgumentIffConversion` | tools/etwlttng/TypeMap.cs:87-110 | a field has an argument exactly when its format has a conversion, and the conversion accepts the argument unless it is a null text |
| `OverflowFormat.OverflowPrints` | tools/etwlttng/Emitter.cs:409-438 | `printf` on the emitted format and arguments prints every overflow field under its own name with its own value, type-checks each argument and uses all of them up, if and only if no text among them is null |
| `TraceDispatch.EmitDispatchHandler` | tools/etwlttng/Emitter.cs:327-376 | the statements that the loops append, whose meaning the next rows give |
| `TraceDispatch.UnpackEvery` | tools/etwlttng/Emitter.cs:338-343 | unpacking compiles if and only if field names differ, and then reads one variadic argument per declared field in declared order, each as the type it was passed with |
| `TraceDispatch.UnpackOne` | tools/etwlttng/Emitter.cs:378-407 | a field takes one variadic argument, as the pointer type the engine passes for its type, and leaves a local of the parameter's type: scalars dereferenced, wide text converted, other pointers as they are |
| `TraceDispatch.ReadsWhatIsPassed` | tools/etwlttng/TypeMap.cs:47-66 | the type that is read for a field is the one the engine passes, a pointer to the scalar or the text or block itself |
| `TraceDispatch.HandlerSkips` | tools/etwlttng/Emitter.cs:333-336 | without a table function the handler reads and calls nothing |
| `TraceDispatch.HandlerRuns` | tools/etwlttng/Emitter.cs:327-376 | the handler runs if and only if field names differ and no overflow `AnsiString` is null, and then makes one call, of its own table function, with every typed field's value in order and the overflow text cut to its buffer |
| `TraceDispatch.HandlerDeclares` | tools/etwlttng/Emitter.cs:327-407 | no local of the handler is declared twice if and only if the event's field names differ |
| `TraceProgram.EmitTracepointsHeader` | tools/etwlttng/Emitter.cs:19-96 | one tracepoint definition per event, in order, with the event's signature and its lines |
| `TraceProgram.EmitTable` | tools/etwlttng/Emitter.cs:228-247 | the struct's members: three data members, then one function pointer per event in order, with the event's parameters |
| `TraceProgram.EmitProvider` | tools/etwlttng/Emitter.cs:124-155 | one trampoline per event, one enable-state entry per event at the event's own index, and one initialiser per member, the event count included |
| `TraceProgram.GateAsksItsOwn` | dev/ese/src/os/posix/oseventtrace_posix.cxx:168-190 | for every event list and number: the engine's gate on the generated table passes an event if and only if the number is below the event count and that event's own tracepoint is enabled |
| `TraceProgram.EmitDispatch` | tools/etwlttng/Emitter.cs:305-322 | one handler and one case per event, in order |
| `TraceProgram.EmitAll` | tools/etwlttng/Emitter.cs:7-15 | the emit loops together produce the program that the following rows are about |
| `TraceProgram.ProviderMatchesTable` | tools/etwlttng/Emitter.cs:147-155 | for every event list the designated initialisers name the struct's members in exactly the order of their declaration, none left out |
| `TraceProgram.GeneratedIsUnambiguous` | tools/etwlttng/Emitter.cs:110-325 | no two generated tracepoints, members, functions, handlers or cases have the same name if and only if no two events do |
| `TraceProgram.CompilesIffBuildable` | tools/etwlttng/Emitter.cs:49-376 | all generated files pass the compiler's checks on names, parameters, locals, initialiser order and function types if and only if no two events, no two fields of any event and no two parameters share a name |
| `TraceProgram.TrampolineForwards` | tools/etwlttng/Emitter.cs:169-206 | a trampoline passes all its arguments on, in order, if and only if typed fields have different names and none is called `overflow` beside an overflow text |
| `TraceProgram.TracepointRecords` | tools/etwlttng/Emitter.cs:79-89 | the lines of a tracepoint record every argument under its field's name, a null text as empty and a blob up to its length, if and only if no typed blob is missing or short |
| `TraceProgram.EventIsRecorded` | tools/etwlttng/Emitter.cs:49-376 | for every event list, event and passed values: switch, handler, table, trampoline and definition together record that event's own fields by name with their values, if and only if the whole list compiles, no overflow text is null and no typed blob is missing or short |
| `TraceProgram.OtherEventStopsAll` | tools/etwlttng/Emitter.cs:378-407 | with an event that has the field `x` twice, another event in the list is not recorded either |
| `Scenarios.Registry.Register` | integration-tests/src/Framework/ScenarioRegistry.cxx:78-81 | appends to the registered scenarios |
| `Scenarios.Registry.All` | integration-tests/src/Framework/ScenarioRegistry.cxx:83-95 | a sorted permutation of the registered scenarios, by category and then name; the registry is unchanged |
| `Scenarios.FullNameReads` | integration-tests/src/Framework/Scenario.cxx:148-151 | a full name is the category, which has no dot, a dot and the scenario's name |
| `Scenarios.SortedMeans` | integration-tests/src/Framework/ScenarioRegistry.cxx:83-95 | in sorted scenarios categories ascend, and within one category names do in character order |
| `Scenarios.Registry.Filtered` | integration-tests/src/Framework/ScenarioRegistry.cxx:97-110 | sorted, with every accepted scenario as often as it is registered and no other |
| `Scenarios.SelectTiers` | integration-tests/src/Main.cxx:554-579 | the tiers asked for; otherwise all but long-running, and that one too exactly when there are matches and all are long-running |
| `Scenarios.Choose` | integration-tests/src/Main.cxx:593-604 | the run list is the order-preserving sublist of matches with a chosen tier; run and suppressed together are the matches |
| `Scenarios.Plan` | integration-tests/src/Main.cxx:545-604 | what runs, from registry, filter and tiers: a sublist of the sorted matches with exact multiplicities, run and suppressed together the matches; without tiers a long-running match runs if and only if every match is; for star-free names the filter has its declarative meaning |
| `CommandLine.ParseTierList` | integration-tests/src/Main.cxx:186-223 | the comma-cursor loop accepts exactly the lists whose non-empty tokens all name tiers, and adds exactly the named tiers, although `all` overwrites |
| `CommandLine.TokensSplit` | integration-tests/src/Main.cxx:187-223 | the tokens are comma-free and rejoin to the list |
| `CommandLine.TierNames` | integration-tests/src/Framework/Scenario.cxx:106-136 | which tiers a token names, letter by letter and whatever the case; every other token is refused |
| `CommandLine.ParseCommandLine` | integration-tests/src/Main.cxx:111-274 | the index loop over `argv` updates the options as specified on the argument list, with its rejections and `--help` |
| `CommandLine.CommandLineMeans` | integration-tests/src/Main.cxx:111-274 | for every argument list: accepted exactly if all of it is understood, help exactly if asked for before anything that is not; then filter, log file, scale and child entry are the last ones given, a flag is set exactly if given, and the child's directory takes all that follows it |
| `CommandLine.SelectedIsUnion` | integration-tests/src/Main.cxx:177-224 | over any accepted command line with any number of `--tier` options: all tokens are good and the selected tiers are the union of those they name |
| `CommandLine.BuildChildArgv` | integration-tests/src/Framework/CrashHelper.cxx:99-118 | the pushes build the child's argument vector |
| `CommandLine.ChildSeesItsArguments` | integration-tests/src/Main.cxx:234-261 | the child parses back exactly the entry, directory and extra arguments, option-like ones included, if and only if none contains a NUL |
| `ForkProtocol.StepKeepsInvariant` | integration-tests/src/Main.cxx:403-537 | the protocol's invariant survives every step of either process |
| `ForkProtocol.NothingLost` | integration-tests/src/Main.cxx:403-428 | in every reachable state bytes received followed by bytes in the pipe are the part of the message written so far |
| `ForkProtocol.PipeNeverBroken` | integration-tests/src/Main.cxx:452-510 | the child never writes to a pipe without a reader |
| `ForkProtocol.EofMeansComplete` | integration-tests/src/Main.cxx:403-428 | at end of file the parent holds everything written, and the whole message of a child that ended after its scenario returned |
| `ForkProtocol.ReportIsFaithful` | integration-tests/src/Main.cxx:495-537 | the parent reports a pass if and only if the child exited with 0, which only a passing scenario does or one that itself ends the child with 0; a failure comes with its whole message, a death by signal with its number and what was written before it |
| `ForkProtocol.NoDeadlock` | integration-tests/src/Main.cxx:469-510 | for every capacity of at least one byte and every message, each reachable unfinished state has a step that is no interruption and no kill |
| `ForkProtocol.StepMakesProgress` | integration-tests/src/Main.cxx:403-537 | an interruption changes nothing and every other step decreases a measure |
| `ForkProtocol.RunsAreBounded` | integration-tests/src/Main.cxx:430-537 | a run has at most twice the message's length plus ten steps that are not interruptions |
| `ForkProtocol.CanFinish` | integration-tests/src/Main.cxx:430-537 | from every reachable state there is a run to the end without interruption or kill |
| `ThreadGroup.StepKeepsInvariant` | integration-tests/src/Framework/ThreadGroup.cxx:23-63 | the group's invariant survives every step of workers, launcher and joiner |
| `ThreadGroup.MutualExclusion` | integration-tests/src/Framework/ThreadGroup.cxx:34-41 | at most one worker is inside the locked section |
| `ThreadGroup.LaunchAdds` | integration-tests/src/Framework/ThreadGroup.cxx:23-44 | a launch adds that many running workers and leaves the others, the lock and the kept exception alone |
| `ThreadGroup.JoinRethrowsFirst` | integration-tests/src/Framework/ThreadGroup.cxx:46-63 | on every interleaving `Join` ends only after all workers, rethrows if and only if some worker threw, rethrows the exception of the first to take the lock, and leaves the group as new |
| `ThreadGroup.JoinIsNeverStuck` | integration-tests/src/Framework/ThreadGroup.cxx:46-63 | from every reachable state in which `Join` runs there is a run to its end that leaves the group as new |
| `ThreadGroup.StepMakesProgress` | integration-tests/src/Framework/ThreadGroup.cxx:23-63 | while `Join` runs, every step of anyone but its last decreases a measure |
| `ThreadGroup.JoinIsBounded` | integration-tests/src/Framework/ThreadGroup.cxx:46-63 | on every interleaving `Join` ends after at most five steps per worker |
| `ChildProcess.Child.constructor` | integration-tests/src/Framework/CrashHelper.cxx:90-140 | a new object has a live child that is not reaped |
| `ChildProcess.Child.WaitUntilReady` | integration-tests/src/Framework/CrashHelper.cxx:153-182 | the polling loop returns at the first sentinel, reaps a child that died before one and logs its status, and otherwise times out having seen no sentinel, with flag and log unchanged; of a live child, which of these happens is decided by the first poll with a sentinel or a death |
| `ChildProcess.ReadyComes` | integration-tests/src/Framework/CrashHelper.cxx:153-182 | a live child is ready if a sentinel comes before any death |
| `ChildProcess.DeathComes` | integration-tests/src/Framework/CrashHelper.cxx:160-175 | it died early, with the status it died with, if a death comes before any sentinel |
| `ChildProcess.NothingComes` | integration-tests/src/Framework/CrashHelper.cxx:176-181 | it is given up exactly if neither comes |
| `ChildProcess.Child.Kill` | integration-tests/src/Framework/CrashHelper.cxx:184-190 | the log grows by that signal exactly when not reaped; nothing else changes |
| `ChildProcess.Child.WaitForExitWithin` | integration-tests/src/Framework/CrashHelper.cxx:192-218 | at once when reaped before; otherwise a live child is reaped with the status of the first death among the polls, a dead one with its own at the first, and a timeout, exactly without a death, leaves flag and log unchanged |
| `ChildProcess.PollTimesOut` | integration-tests/src/Framework/CrashHelper.cxx:198-217 | a wait for a live child times out exactly if it dies by none of the polls |
| `ChildProcess.PollEnds` | integration-tests/src/Framework/CrashHelper.cxx:198-217 | otherwise it ends with the status of the first death |
| `ChildProcess.Child.WaitForExit` | integration-tests/src/Framework/CrashHelper.cxx:220-235 | at once when reaped before; otherwise one reaping with the status the child died with, or an error that changes nothing |
| `ChildProcess.Child.Destroy` | integration-tests/src/Framework/CrashHelper.cxx:142-151 | nothing if reaped; otherwise a kill and then the reaping with the child's status, except that an interrupted wait for a live child leaves it unreaped |
| `ChildProcess.CallsKeepInvariant` | integration-tests/src/Framework/CrashHelper.cxx:142-235 | over every sequence of calls, throwing ones included, the flag says whether the kernel's child is reaped, and no signal follows the reaping |
| `ChildProcess.EveryLifeEndsReaped` | integration-tests/src/Framework/CrashHelper.cxx:142-151 | at the end of every life the child is reaped exactly once and last, if and only if it was reaped or dead before, or the destructor's wait is not interrupted |
| `ChildProcess.LiveAndDie` | integration-tests/src/Framework/CrashHelper.cxx:142-235 | the same on the object itself: any calls and then an uninterrupted destructor leave the child reaped exactly once and last |
| `ChildProcess.StatusIsTheChilds` | integration-tests/src/Framework/CrashHelper.cxx:220-235 | a wait returns the status the child died with, and throws exactly when interrupted before that |
| `TemporaryDirectory.SanitiseName` | integration-tests/src/Framework/TemporaryDirectory.cxx:31-45 | same length, acceptable characters kept in place, all others replaced |
| `TemporaryDirectory.ComponentIsSafe` | integration-tests/src/Framework/TemporaryDirectory.cxx:54-56 | the name is one path component: not empty, no separator, not `.` or `..` |
| `TemporaryDirectory.ComponentReads` | integration-tests/src/Framework/TemporaryDirectory.cxx:54-56 | split at its last two dashes the name gives the safe name, the process and the sequence number, the last with at least four digits and more only from 10000 on |
| `TemporaryDirectory.ComponentDetermines` | integration-tests/src/Framework/TemporaryDirectory.cxx:54-56 | two names are equal if and only if sanitised name, process and sequence number are, also beyond four digits |
| `TemporaryDirectory.SanitisingIsNotInjective` | integration-tests/src/Framework/TemporaryDirectory.cxx:31-45 | two different scenario names that sanitise to the same |
| `TemporaryDirectory.Scratch.Create` | integration-tests/src/Framework/TemporaryDirectory.cxx:49-56 | takes the next sequence number, modulo 2^32, and gives a safe name |
| `TemporaryDirectory.CreateAll` | integration-tests/src/Framework/TemporaryDirectory.cxx:49-56 | names made by one process within one turn of the counter are pairwise different |
| `TemporaryDirectory.CreatedApart` | integration-tests/src/Framework/TemporaryDirectory.cxx:49-56 | two names of one process collide if and only if they sanitise alike and a multiple of 2^32 creations lies between them |

## Left out

- The storage engine (`dev/ese/src`), apart from the search that consumes the message table: none of it is modelled.
- `tools/mc/RcEmitter.cs`, `CliOptions.cs` and the `Program.cs` files: file and flag handling, only easy members.
- Scenario bodies, the `Ese*` wrappers, scale profiles, data generation and console output: calls into the engine and fixed data.
- File-system calls, clocks and sleeps: the file contents, sentinel checks and polling rounds are parameters.
- .NET parsing of integers and white space, `OrderBy` and `std::sort`: modelled by their documented behaviour, not by their code. `std::sort` is not stable; only order and permutation are claimed of it.
- Regular expressions of the tracepoint parser: a line comes with what each expression captures from it, and integer parsing is a parameter.
- `fork()` and `pipe()` failures, and I/O errors other than `EINTR`: not in the protocol model, which also takes the forked child to be the only holder of the pipe's write end.
- Reuse of process ids by the kernel after a child is reaped, and waits that fail for a reason other than interruption.
- EmitTable: in `MessageTable`, leaves out the fixed comment and struct declaration before the table; the reader starts at the table's definition. In `TraceProgram`, leaves out the fixed comments and guards.
- Layout (line breaks, indentation) of the generated C files of the tracepoint generator: modelled as tokens, statements and members; log levels and include guards are not modelled.
- EvaluateArgs: reads a local at the time of the call; aliasing between the UTF-8 buffer and the pointer to it is not modelled, as the buffer is not written again.
- UnpackOne: the conversion to UTF-8 and the printing of one conversion are parameters of the theorem, so truncation inside the conversion buffer is not spelled out.
- EventIsRecorded: takes field names to have no `%`; they are C identifiers other than keywords, and any other name makes the generated program fail to compile. Whether lttng-ust accepts a negative array length is not modelled: such a blob counts as short.
- ConstantsReadBack: takes the type's name to have no quotes, and identifiers to be those of ASCII letters, digits and underscores.
- OneDefinePerMessage: takes the name of the input file to have no newline; a newline there would end the comment that holds it. Names with quotes are excluded, as character and string literals are not modelled; the preprocessing after phase 3 is not modelled either.
- Choose: counts suppressed scenarios without the wrap-around of the 32-bit counter.
- JoinIsNeverStuck: takes a worker's callable to return or throw; one that never ends is not modelled.
- NoDeadlock: about the runner's two processes only; a scenario that never returns is not modelled.
