/**
 The runner's command line (integration-tests/src/Main.cxx,
 integration-tests/src/Framework/Scenario.cxx) and the command line that a crash test gives its
 child (integration-tests/src/Framework/CrashHelper.cxx).
 */
module CommandLine {
  import opened Scenarios
  import opened Wrappers

  // ----- tier tokens -----

  datatype TierToken = One(tier: Tier) | Every

  function Lower(s: string): (r: string)
    ensures |r| == |s|
  {
    seq(|s|, i requires 0 <= i < |s| => if 'A' <= s[i] <= 'Z' then s[i] + 32 as char else s[i])
  }

  /** `ParseScenarioTier`: a tier's name or alias in any case, or `all`. */
  function ParseTier(token: string): Option<TierToken> {
    var t := Lower(token);
    if t == "smoke" then Some(One(Smoke))
    else if t == "reg" || t == "regression" then Some(One(Regression))
    else if t == "long" || t == "long-running" || t == "longrunning" then Some(One(LongRunning))
    else if t == "all" then Some(Every)
    else None
  }

  /** The tiers a good token stands for. */
  function Named(token: string): set<Tier> {
    match ParseTier(token)
    case None => {}
    case Some(One(tier)) => {tier}
    case Some(Every) => {Smoke, Regression, LongRunning}
  }

  /** Some token stands for the tier. */
  predicate NamedBy(tokens: seq<string>, tier: Tier) {
    exists i :: 0 <= i < |tokens| && tier in Named(tokens[i])
  }

  /** Every non-empty token is a tier or `all`. */
  predicate AllGood(tokens: seq<string>) {
    forall i :: 0 <= i < |tokens| && tokens[i] != "" ==> ParseTier(tokens[i]).Some?
  }

  /** What one token does to the selection: `all` replaces it, a tier is appended. */
  function AddToken(selected: seq<Tier>, token: TierToken): seq<Tier> {
    match token
    case Every => [Smoke, Regression, LongRunning]
    case One(tier) => selected + [tier]
  }

  function IndexOfComma(s: string): (r: nat)
    ensures r <= |s|
    ensures ',' !in s[..r]
    ensures r < |s| ==> s[r] == ','
  {
    if s == "" || s[0] == ',' then 0 else 1 + IndexOfComma(s[1..])
  }

  /** The pieces between commas. */
  function Tokens(list: string): seq<string>
    decreases |list|
  {
    var n := IndexOfComma(list);
    if n == |list| then [list] else [list[..n]] + Tokens(list[n + 1..])
  }

  /** The tokens taken in turn up to the first bad one; empty ones are skipped. */
  function AddTokens(selected: seq<Tier>, tokens: seq<string>): (bool, seq<Tier>)
    decreases |tokens|
  {
    if tokens == [] then (true, selected)
    else if tokens[0] == "" then AddTokens(selected, tokens[1..])
    else match ParseTier(tokens[0])
      case None => (false, selected)
      case Some(token) => AddTokens(AddToken(selected, token), tokens[1..])
  }

  /** One token of a list. */
  lemma TokensStep(list: string)
    ensures var n := IndexOfComma(list);
            Tokens(list) == if n == |list| then [list] else [list[..n]] + Tokens(list[n + 1..])
  {
    hide IndexOfComma;
  }

  /** One round of `--tier`: the first token, then the rest. */
  lemma AddFirst(selected: seq<Tier>, token: string, rest: seq<string>)
    ensures AddTokens(selected, [token] + rest) ==
            if token == "" then AddTokens(selected, rest)
            else if ParseTier(token).None? then (false, selected)
            else AddTokens(AddToken(selected, ParseTier(token).value), rest)
  {
    hide ParseTier, AddToken;
    assert ([token] + rest)[1..] == rest;
  }

  lemma AddNothing(selected: seq<Tier>)
    ensures AddTokens(selected, []) == (true, selected)
  {
  }

  /** The comma-cursor loop of `--tier`. */
  method ParseTierList(list: string, selected: seq<Tier>) returns (ok: bool, r: seq<Tier>)
    ensures (ok, r) == AddTokens(selected, Tokens(list))
    ensures ok <==> AllGood(Tokens(list))
    ensures ok ==> forall tier :: tier in r <==> tier in selected || NamedBy(Tokens(list), tier)
  {
    hide ParseTier, AddToken, AllGood, NamedBy, IndexOfComma, Tokens, AddTokens;
    TokensMeanAll(selected, Tokens(list));
    r := selected;
    var cursor := 0;
    assert list[0..] == list;
    while cursor <= |list|
      invariant 0 <= cursor <= |list|
      invariant AddTokens(r, Tokens(list[cursor..])) == AddTokens(selected, Tokens(list))
      decreases |list| - cursor
    {
      var rest := list[cursor..];
      var comma := cursor + IndexOfComma(rest);
      var token := list[cursor..comma];
      ghost var later := if comma == |list| then [] else Tokens(list[comma + 1..]);
      assert Tokens(rest) == [token] + later by {
        TokensStep(rest);
        assert token == rest[..comma - cursor];
        assert rest[..|rest|] == rest;
        if comma < |list| {
          assert rest[comma - cursor + 1..] == list[comma + 1..];
        }
      }
      AddFirst(r, token, later);
      if token != "" {
        var parsed := ParseTier(token);
        if parsed.None? {
          return false, r;
        }
        r := AddToken(r, parsed.value);
      }
      if comma == |list| {
        AddNothing(r);
        return true, r;
      }
      cursor := comma + 1;
    }
    assert false;
  }

  /** Splitting on commas, said once more: joining the tokens with commas gives the list back. */
  function JoinTokens(tokens: seq<string>): string {
    if tokens == [] then "" else if |tokens| == 1 then tokens[0] else tokens[0] + "," + JoinTokens(tokens[1..])
  }

  lemma {:induction false} TokensSplit(list: string)
    ensures Tokens(list) != [] && JoinTokens(Tokens(list)) == list
    ensures forall i :: 0 <= i < |Tokens(list)| ==> ',' !in Tokens(list)[i]
    decreases |list|
  {
    var n := IndexOfComma(list);
    assert list[..|list|] == list;
    if n < |list| {
      TokensSplit(list[n + 1..]);
      assert list == list[..n] + "," + list[n + 1..];
    }
  }

  lemma ConsTokens(first: string, rest: seq<string>, tier: Tier)
    ensures NamedBy([first] + rest, tier) <==> tier in Named(first) || NamedBy(rest, tier)
    ensures AllGood([first] + rest) <==> (first != "" ==> ParseTier(first).Some?) && AllGood(rest)
  {
    hide ParseTier, Named;
    var all := [first] + rest;
    assert all[1..] == rest;
    if NamedBy(rest, tier) {
      var i :| 0 <= i < |rest| && tier in Named(rest[i]);
      assert tier in Named(all[i + 1]);
    }
    if tier in Named(first) {
      assert tier in Named(all[0]);
    }
    if AllGood(all) {
      forall i | 0 <= i < |rest| && rest[i] != "" ensures ParseTier(rest[i]).Some? {
        assert all[i + 1] == rest[i];
      }
    }
  }

  /** A good token adds exactly the tiers it names, also when it replaces the selection. */
  lemma TokenAdds(selected: seq<Tier>, token: string, tier: Tier)
    requires ParseTier(token).Some?
    ensures tier in AddToken(selected, ParseTier(token).value) <==> tier in selected || tier in Named(token)
  {
    hide ParseTier;
  }

  /**
   Although `all` overwrites what was selected before it, the selection is the union of what the
   tokens name; it is accepted exactly when every non-empty token is a tier.
   */
  lemma {:induction false} TokensMean(selected: seq<Tier>, tokens: seq<string>, tier: Tier)
    ensures var (ok, r) := AddTokens(selected, tokens);
            && (ok <==> AllGood(tokens))
            && (ok ==> (tier in r <==> tier in selected || NamedBy(tokens, tier)))
    decreases |tokens|
  {
    if tokens == [] {
    } else {
      hide ParseTier, Named, AddToken, NamedBy, AllGood;
      var first, rest := tokens[0], tokens[1..];
      assert tokens == [first] + rest;
      ConsTokens(first, rest, tier);
      if first == "" {
        EmptyNamesNothing();
        TokensMean(selected, rest, tier);
      } else if ParseTier(first).Some? {
        TokenAdds(selected, first, tier);
        TokensMean(AddToken(selected, ParseTier(first).value), rest, tier);
      }
    }
  }

  lemma TokensMeanAll(selected: seq<Tier>, tokens: seq<string>)
    ensures AddTokens(selected, tokens).0 <==> AllGood(tokens)
    ensures AddTokens(selected, tokens).0 ==>
              forall tier :: tier in AddTokens(selected, tokens).1 <==> tier in selected || NamedBy(tokens, tier)
  {
    hide AddTokens, AllGood, NamedBy;
    TokensMean(selected, tokens, Smoke);
    forall tier: Tier {
      TokensMean(selected, tokens, tier);
    }
  }

  lemma EmptyNamesNothing()
    ensures ParseTier("") == None && Named("") == {}
  {
  }

  // ----- options -----

  datatype Scale = Small | Medium | Large

  datatype Options = Options(
    filterPattern: string,
    scaleSize: Scale,
    listOnly: bool,
    verbose: bool,
    keepTemporary: bool,
    selectedTiers: seq<Tier>,
    inProcess: bool,
    childMode: bool,
    childEntryName: string,
    childDirectory: string,
    childExtraArgs: seq<string>,
    logFile: string)

  const DEFAULTS := Options("", Small, false, false, false, [], false, false, "", "", [], "")

  datatype Outcome = Accepted | Rejected | HelpShown

  /** What one option does: go on after `taken` arguments, or stop. */
  datatype Step = Continue(options: Options, taken: nat) | Stop(outcome: Outcome, options: Options)

  /** The options that are followed by a value. */
  datatype Valued = Filter | ScaleOption | TierOption | LogFile | ChildEntry | ChildDirectory

  function ValuedOption(argument: string): Option<Valued> {
    if argument == "--filter" then Some(Filter)
    else if argument == "--scale" then Some(ScaleOption)
    else if argument == "--tier" then Some(TierOption)
    else if argument == "--log-file" then Some(LogFile)
    else if argument == "--child-entry" then Some(ChildEntry)
    else if argument == "--child-directory" then Some(ChildDirectory)
    else None
  }

  function ParseScale(value: string): Option<Scale> {
    if value == "Small" then Some(Small)
    else if value == "Medium" then Some(Medium)
    else if value == "Large" then Some(Large)
    else None
  }

  /** An option that takes a value, given the arguments from that value on. */
  function ValueStep(option: Valued, rest: seq<string>, o: Options): (r: Step)
    requires rest != []
    ensures r.Continue? ==> 2 <= r.taken <= 1 + |rest|
    ensures r.Stop? ==> r.outcome.Rejected?
  {
    var value := rest[0];
    match option
    case Filter => Continue(o.(filterPattern := value), 2)
    case ScaleOption =>
      if ParseScale(value).None? then Stop(Rejected, o) else Continue(o.(scaleSize := ParseScale(value).value), 2)
    case TierOption =>
      var (ok, selected) := AddTokens(o.selectedTiers, Tokens(value));
      if ok then Continue(o.(selectedTiers := selected), 2) else Stop(Rejected, o.(selectedTiers := selected))
    case LogFile => Continue(o.(logFile := value), 2)
    case ChildEntry => Continue(o.(childMode := true, childEntryName := value), 2)
    case ChildDirectory => Continue(o.(childDirectory := value, childExtraArgs := o.childExtraArgs + rest[1..]), 1 + |rest|)
  }

  function FlagStep(argument: string, o: Options): (r: Step)
    ensures r.Continue? ==> r.taken == 1
    ensures r.Stop? ==> !r.outcome.Accepted?
  {
    if argument == "--list" then Continue(o.(listOnly := true), 1)
    else if argument == "--verbose" then Continue(o.(verbose := true), 1)
    else if argument == "--keep-temp" then Continue(o.(keepTemporary := true), 1)
    else if argument == "--in-process" then Continue(o.(inProcess := true), 1)
    else if argument == "--help" || argument == "-h" then Stop(HelpShown, o)
    else Stop(Rejected, o)
  }

  function OptionStep(args: seq<string>, o: Options): (r: Step)
    requires args != []
    ensures r.Continue? ==> 1 <= r.taken <= |args|
    ensures r.Stop? ==> !r.outcome.Accepted?
  {
    if ValuedOption(args[0]).None? then FlagStep(args[0], o)
    else if |args| == 1 then Stop(Rejected, o)
    else ValueStep(ValuedOption(args[0]).value, args[1..], o)
  }

  /** The arguments after the program name. */
  function ParseArgs(args: seq<string>, o: Options): (Outcome, Options)
    decreases |args|
  {
    if args == [] then (Accepted, o)
    else match OptionStep(args, o)
      case Stop(outcome, options) => (outcome, options)
      case Continue(options, taken) => ParseArgs(args[taken..], options)
  }

  /** The options as the object that the parser fills in. */
  class CommandLineOptions {
    var filterPattern: string
    var scaleSize: Scale
    var listOnly: bool
    var verbose: bool
    var keepTemporary: bool
    var selectedTiers: seq<Tier>
    var inProcess: bool
    var childMode: bool
    var childEntryName: string
    var childDirectory: string
    var childExtraArgs: seq<string>
    var logFile: string

    function View(): Options
      reads this
    {
      Options(filterPattern, scaleSize, listOnly, verbose, keepTemporary, selectedTiers, inProcess,
              childMode, childEntryName, childDirectory, childExtraArgs, logFile)
    }

    constructor ()
      ensures View() == DEFAULTS
    {
      filterPattern, scaleSize, listOnly, verbose, keepTemporary := "", Small, false, false, false;
      selectedTiers, inProcess, childMode := [], false, false;
      childEntryName, childDirectory, childExtraArgs, logFile := "", "", [], "";
    }

    /** Takes the option at `index`; `stopped` is set when parsing ends there. */
    method ParseOption(argv: seq<string>, index: nat) returns (stopped: Option<Outcome>, next: nat)
      requires index < |argv|
      modifies this
      ensures index < next <= |argv|
      ensures OptionStep(argv[index..], old(View())) ==
                match stopped
                case Some(outcome) => Stop(outcome, View())
                case None => Continue(View(), next - index)
    {
      hide Tokens, AddTokens, AllGood, NamedBy;
      var argument := argv[index];
      next := index + 1;
      stopped := None;
      if argument == "--list" {
        listOnly := true;
      } else if argument == "--verbose" {
        verbose := true;
      } else if argument == "--keep-temp" {
        keepTemporary := true;
      } else if argument == "--in-process" {
        inProcess := true;
      } else if argument == "--help" || argument == "-h" {
        stopped := Some(HelpShown);
      } else if ValuedOption(argument).None? || index + 1 >= |argv| {
        stopped := Some(Rejected);
      } else {
        assert argv[index..][1..] == argv[index + 1..];
        stopped, next := ParseValue(argument, argv, index + 1);
      }
    }

    /** Takes an option's value, which is at `index`. */
    method ParseValue(argument: string, argv: seq<string>, index: nat) returns (stopped: Option<Outcome>, next: nat)
      requires ValuedOption(argument).Some? && 0 < index < |argv|
      modifies this
      ensures index < next <= |argv|
      ensures ValueStep(ValuedOption(argument).value, argv[index..], old(View())) ==
                match stopped
                case Some(outcome) => Stop(outcome, View())
                case None => Continue(View(), next - index + 1)
    {
      hide Tokens, AddTokens, AllGood, NamedBy, ParseScale;
      var value := argv[index];
      next := index + 1;
      stopped := None;
      if argument == "--filter" {
        filterPattern := value;
      } else if argument == "--scale" {
        stopped := TakeScale(value);
      } else if argument == "--tier" {
        var ok, selected := ParseTierList(value, selectedTiers);
        selectedTiers := selected;
        stopped := if ok then None else Some(Rejected);
      } else if argument == "--log-file" {
        logFile := value;
      } else if argument == "--child-entry" {
        childMode := true;
        childEntryName := value;
      } else {
        childDirectory := value;
        next := TakeExtraArgs(argv, index + 1);
      }
    }

    method TakeScale(value: string) returns (stopped: Option<Outcome>)
      modifies this`scaleSize
      ensures ParseScale(value).None? ==> stopped == Some(Rejected) && scaleSize == old(scaleSize)
      ensures ParseScale(value).Some? ==> stopped == None && scaleSize == ParseScale(value).value
    {
      stopped := None;
      if value == "Small" {
        scaleSize := Small;
      } else if value == "Medium" {
        scaleSize := Medium;
      } else if value == "Large" {
        scaleSize := Large;
      } else {
        stopped := Some(Rejected);
      }
    }

    method TakeExtraArgs(argv: seq<string>, index: nat) returns (next: nat)
      requires index <= |argv|
      modifies this`childExtraArgs
      ensures childExtraArgs == old(childExtraArgs) + argv[index..] && next == |argv|
    {
      next := index;
      while next < |argv|
        invariant index <= next <= |argv|
        invariant childExtraArgs == old(childExtraArgs) + argv[index..next]
      {
        childExtraArgs := childExtraArgs + [argv[next]];
        next := next + 1;
      }
    }
  }

  method ParseCommandLine(argv: seq<string>, options: CommandLineOptions) returns (outcome: Outcome)
    requires argv != []
    modifies options
    ensures (outcome, options.View()) == ParseArgs(argv[1..], old(options.View()))
  {
    hide OptionStep;
    var index := 1;
    while index < |argv|
      invariant 1 <= index <= |argv|
      invariant ParseArgs(argv[index..], options.View()) == ParseArgs(argv[1..], old(options.View()))
      decreases |argv| - index
    {
      var stopped, next := options.ParseOption(argv, index);
      if stopped.Some? {
        return stopped.value;
      }
      assert argv[index..][next - index..] == argv[next..];
      index := next;
    }
    assert argv[index..] == [];
    return Accepted;
  }

  // ----- tiers over a whole command line -----

  /** The values of the `--tier` options. */
  function TierLists(args: seq<string>): seq<string>
    decreases |args|
  {
    if |args| < 2 || args[0] == "--child-directory" then []
    else if args[0] == "--tier" then [args[1]] + TierLists(args[2..])
    else TierLists(args[if ValuedOption(args[0]).Some? then 2 else 1..])
  }

  predicate ListsGood(lists: seq<string>) {
    forall i :: 0 <= i < |lists| ==> AllGood(Tokens(lists[i]))
  }

  predicate NamedInLists(lists: seq<string>, tier: Tier) {
    exists i :: 0 <= i < |lists| && NamedBy(Tokens(lists[i]), tier)
  }

  lemma ConsLists(first: string, rest: seq<string>, tier: Tier)
    ensures NamedInLists([first] + rest, tier) <==> NamedBy(Tokens(first), tier) || NamedInLists(rest, tier)
    ensures ListsGood([first] + rest) <==> AllGood(Tokens(first)) && ListsGood(rest)
  {
    hide NamedBy, AllGood, Tokens;
    var all := [first] + rest;
    assert all[1..] == rest;
    if NamedInLists(rest, tier) {
      var i :| 0 <= i < |rest| && NamedBy(Tokens(rest[i]), tier);
      assert NamedBy(Tokens(all[i + 1]), tier);
    }
    if NamedBy(Tokens(first), tier) {
      assert NamedBy(Tokens(all[0]), tier);
    }
    if ListsGood(all) {
      forall i | 0 <= i < |rest| ensures AllGood(Tokens(rest[i])) {
        assert all[i + 1] == rest[i];
      }
    }
  }

  lemma FlagKeepsTiers(argument: string, o: Options)
    requires FlagStep(argument, o).Continue?
    ensures FlagStep(argument, o).options.selectedTiers == o.selectedTiers
  {
  }

  lemma ValueKeepsTiers(option: Valued, rest: seq<string>, o: Options)
    requires rest != [] && !option.TierOption? && ValueStep(option, rest, o).Continue?
    ensures ValueStep(option, rest, o).options.selectedTiers == o.selectedTiers
    ensures ValueStep(option, rest, o).taken == if option.ChildDirectory? then 1 + |rest| else 2
  {
    hide ParseScale;
  }

  lemma OptionNames(argument: string)
    ensures argument == "--tier" <==> ValuedOption(argument) == Some(TierOption)
    ensures argument == "--child-directory" <==> ValuedOption(argument) == Some(ChildDirectory)
  {
  }

  /** An option other than `--tier` leaves the selection alone. */
  lemma OtherStep(args: seq<string>, o: Options)
    requires args != [] && args[0] != "--tier" && OptionStep(args, o).Continue?
    ensures OptionStep(args, o).options.selectedTiers == o.selectedTiers
    ensures TierLists(args) == TierLists(args[OptionStep(args, o).taken..])
  {
    hide FlagStep, ValueStep, ValuedOption;
    OptionNames(args[0]);
    var taken := OptionStep(args, o).taken;
    if ValuedOption(args[0]).Some? {
      ValueKeepsTiers(ValuedOption(args[0]).value, args[1..], o);
      if args[0] == "--child-directory" {
        assert args[taken..] == [];
      }
    } else {
      FlagKeepsTiers(args[0], o);
      if |args| == 1 {
        assert args[taken..] == [];
      }
    }
  }

  lemma TierStep(args: seq<string>, o: Options)
    requires |args| >= 2 && args[0] == "--tier"
    ensures var (ok, selected) := AddTokens(o.selectedTiers, Tokens(args[1]));
            OptionStep(args, o) ==
              if ok then Continue(o.(selectedTiers := selected), 2) else Stop(Rejected, o.(selectedTiers := selected))
  {
    hide Tokens, AddTokens;
    assert args[1..][0] == args[1];
  }

  /**
   Over a whole accepted command line, with any number of `--tier` options among the others: all
   their tokens are good, and a tier is selected exactly when one of them names it.
   */
  lemma {:induction false} SelectedIsUnion(args: seq<string>, o: Options, tier: Tier)
    requires ParseArgs(args, o).0 == Accepted
    ensures ListsGood(TierLists(args))
    ensures tier in ParseArgs(args, o).1.selectedTiers <==> tier in o.selectedTiers || NamedInLists(TierLists(args), tier)
    decreases |args|
  {
    hide OptionStep, Tokens, AddTokens, ListsGood, NamedInLists;
    if args == [] {
      NoLists(tier);
    } else {
      var step := OptionStep(args, o);
      if args[0] == "--tier" {
        LoneTierRejected(args, o);
        TierStep(args, o);
        TokensMean(o.selectedTiers, Tokens(args[1]), tier);
        ConsLists(args[1], TierLists(args[2..]), tier);
      } else {
        OtherStep(args, o);
      }
      SelectedIsUnion(args[step.taken..], step.options, tier);
    }
  }

  lemma NoLists(tier: Tier)
    ensures ListsGood([]) && !NamedInLists([], tier)
  {
  }

  lemma LoneTierRejected(args: seq<string>, o: Options)
    requires args != [] && args[0] == "--tier"
    ensures |args| == 1 ==> OptionStep(args, o) == Stop(Rejected, o)
  {
    hide Tokens, AddTokens;
  }

  // ----- what a whole command line means -----

  /** An argument by itself, an option with its value, or the child's directory with all that follows. */
  datatype Given = Single(argument: string) | Pair(option: string, value: string) | Directory(directory: string, extra: seq<string>)

  predicate IsFlag(argument: string) {
    argument == "--list" || argument == "--verbose" || argument == "--keep-temp" || argument == "--in-process"
  }

  predicate HasValue(argument: string) {
    || argument == "--filter" || argument == "--scale" || argument == "--tier" || argument == "--log-file"
    || argument == "--child-entry"
  }

  /** The arguments grouped, without regard to what they do. */
  function Grouped(args: seq<string>): seq<Given>
    decreases |args|
  {
    if args == [] then []
    else if args[0] == "--child-directory" && |args| > 1 then [Directory(args[1], args[2..])]
    else if HasValue(args[0]) && |args| > 1 then [Pair(args[0], args[1])] + Grouped(args[2..])
    else [Single(args[0])] + Grouped(args[1..])
  }

  /** What the runner understands: flags, a scale by its name, tiers by theirs, and any other value. */
  predicate Understood(g: Given) {
    match g
    case Single(argument) => IsFlag(argument)
    case Pair(option, value) =>
      && (option == "--scale" ==> value == "Small" || value == "Medium" || value == "Large")
      && (option == "--tier" ==> AllGood(Tokens(value)))
    case Directory(_, _) => true
  }

  predicate AsksForHelp(g: Given) {
    g == Single("--help") || g == Single("-h")
  }

  /** Accepted if all is understood; otherwise the first thing that is not decides. */
  function OutcomeOf(given: seq<Given>): Outcome {
    if given == [] then Accepted
    else if Understood(given[0]) then OutcomeOf(given[1..])
    else if AsksForHelp(given[0]) then HelpShown
    else Rejected
  }

  /** The last value given for an option, or the one before. */
  function LastValue(given: seq<Given>, option: string, before: string): string {
    if given == [] then before
    else
      var last := given[|given| - 1];
      if last.Pair? && last.option == option then last.value else LastValue(given[..|given| - 1], option, before)
  }

  lemma {:induction false} LastValueCons(g: Given, rest: seq<Given>, option: string, before: string)
    ensures LastValue([g] + rest, option, before)
            == LastValue(rest, option, if g.Pair? && g.option == option then g.value else before)
    decreases |rest|
  {
    if rest == [] {
      assert [g] + rest == [g] && [g][..0] == [];
    } else {
      var n := |rest| - 1;
      assert ([g] + rest)[..n + 1] == [g] + rest[..n];
      LastValueCons(g, rest[..n], option, before);
    }
  }

  /** The name of a scale; `Medium` and `Large` are not the default. */
  function ScaleName(scale: Scale): string {
    match scale
    case Small => "Small"
    case Medium => "Medium"
    case Large => "Large"
  }

  predicate DirectoryIs(given: seq<Given>, o: Options, r: Options) {
    if given != [] && given[|given| - 1].Directory? then
      && r.childDirectory == given[|given| - 1].directory
      && r.childExtraArgs == o.childExtraArgs + given[|given| - 1].extra
    else r.childDirectory == o.childDirectory && r.childExtraArgs == o.childExtraArgs
  }

  /** The options that an accepted command line leaves, apart from the tiers. */
  predicate TextsAsGiven(given: seq<Given>, o: Options, r: Options) {
    && r.filterPattern == LastValue(given, "--filter", o.filterPattern)
    && r.logFile == LastValue(given, "--log-file", o.logFile)
    && r.childEntryName == LastValue(given, "--child-entry", o.childEntryName)
    && ScaleName(r.scaleSize) == LastValue(given, "--scale", ScaleName(o.scaleSize))
  }

  predicate FlagsAsGiven(given: seq<Given>, o: Options, r: Options) {
    && (r.listOnly <==> o.listOnly || Single("--list") in given)
    && (r.verbose <==> o.verbose || Single("--verbose") in given)
    && (r.keepTemporary <==> o.keepTemporary || Single("--keep-temp") in given)
    && (r.inProcess <==> o.inProcess || Single("--in-process") in given)
    && (r.childMode <==> o.childMode || exists g :: g in given && g.Pair? && g.option == "--child-entry")
  }

  /** What one group does to the options, apart from the tiers. */
  predicate StepAsGiven(g: Given, o: Options, r: Options) {
    match g
    case Single(argument) =>
      r == o.(listOnly := o.listOnly || argument == "--list", verbose := o.verbose || argument == "--verbose",
              keepTemporary := o.keepTemporary || argument == "--keep-temp",
              inProcess := o.inProcess || argument == "--in-process")
    case Pair(option, value) =>
      && r.filterPattern == (if option == "--filter" then value else o.filterPattern)
      && r.logFile == (if option == "--log-file" then value else o.logFile)
      && r.childEntryName == (if option == "--child-entry" then value else o.childEntryName)
      && ScaleName(r.scaleSize) == (if option == "--scale" then value else ScaleName(o.scaleSize))
      && r.childMode == (o.childMode || option == "--child-entry")
      && r.listOnly == o.listOnly && r.verbose == o.verbose && r.keepTemporary == o.keepTemporary
      && r.inProcess == o.inProcess && r.childDirectory == o.childDirectory && r.childExtraArgs == o.childExtraArgs
    case Directory(directory, extra) =>
      r == o.(childDirectory := directory, childExtraArgs := o.childExtraArgs + extra)
  }

  lemma FlagAsGiven(argument: string, o: Options)
    ensures IsFlag(argument) <==> FlagStep(argument, o).Continue?
    ensures !IsFlag(argument) ==>
              FlagStep(argument, o) == Stop(if AsksForHelp(Single(argument)) then HelpShown else Rejected, o)
    ensures IsFlag(argument) ==> StepAsGiven(Single(argument), o, FlagStep(argument, o).options)
  {
  }

  lemma ScaleNames(value: string)
    ensures ParseScale(value).Some? <==> value == "Small" || value == "Medium" || value == "Large"
    ensures ParseScale(value).Some? ==> ScaleName(ParseScale(value).value) == value
  {
  }

  lemma ValuedOptionNames(argument: string)
    ensures argument == "--filter" <==> ValuedOption(argument) == Some(Filter)
    ensures argument == "--scale" <==> ValuedOption(argument) == Some(ScaleOption)
    ensures argument == "--tier" <==> ValuedOption(argument) == Some(TierOption)
    ensures argument == "--log-file" <==> ValuedOption(argument) == Some(LogFile)
    ensures argument == "--child-entry" <==> ValuedOption(argument) == Some(ChildEntry)
    ensures argument == "--child-directory" <==> ValuedOption(argument) == Some(ChildDirectory)
    ensures HasValue(argument) <==> ValuedOption(argument).Some? && argument != "--child-directory"
    ensures IsFlag(argument) ==> ValuedOption(argument).None?
  {
  }

  lemma PairAsGiven(argument: string, rest: seq<string>, o: Options)
    requires rest != [] && ValuedOption(argument).Some? && argument != "--child-directory"
    ensures var g, step := Pair(argument, rest[0]), ValueStep(ValuedOption(argument).value, rest, o);
            && (step.Continue? <==> Understood(g)) && (step.Stop? ==> step.outcome == Rejected)
            && (step.Continue? ==> step.taken == 2 && StepAsGiven(g, o, step.options))
  {
    hide Tokens, AddTokens, AllGood, NamedBy, ParseScale, ScaleName, ValuedOption, HasValue, IsFlag;
    ValuedOptionNames(argument);
    match ValuedOption(argument).value {
      case ScaleOption => ScaleNames(rest[0]);
      case TierOption => TokensMeanAll(o.selectedTiers, Tokens(rest[0]));
      case _ =>
    }
  }

  /** One step of the parser takes one group, and does to the options what that group says. */
  lemma StepTakesGroup(args: seq<string>, o: Options)
    requires args != []
    ensures var step, given := OptionStep(args, o), Grouped(args);
            && given != []
            && (step.Continue? <==> Understood(given[0]))
            && (step.Stop? ==> step.outcome == if AsksForHelp(given[0]) then HelpShown else Rejected)
            && (step.Continue? ==> given[1..] == Grouped(args[step.taken..]) && StepAsGiven(given[0], o, step.options))
            && (given[0].Directory? ==> given == [given[0]])
  {
    hide ValueStep, FlagStep, ValuedOption, IsFlag, HasValue, Understood, StepAsGiven, AsksForHelp;
    if ValuedOption(args[0]).None? {
      SingleStep(args, o);
    } else if |args| == 1 {
      LoneStep(args, o);
    } else if args[0] == "--child-directory" {
      DirectoryStep(args, o);
    } else {
      PairStep(args, o);
    }
  }

  lemma SingleStep(args: seq<string>, o: Options)
    requires args != [] && ValuedOption(args[0]).None?
    ensures var step, given := OptionStep(args, o), Grouped(args);
            && given == [Single(args[0])] + Grouped(args[1..])
            && (step.Continue? <==> Understood(given[0]))
            && (step.Stop? ==> step.outcome == if AsksForHelp(given[0]) then HelpShown else Rejected)
            && (step.Continue? ==> given[1..] == Grouped(args[step.taken..]) && StepAsGiven(given[0], o, step.options))
  {
    hide FlagStep, ValuedOption, StepAsGiven, IsFlag, AsksForHelp;
    ValuedOptionNames(args[0]);
    FlagAsGiven(args[0], o);
  }

  lemma LoneStep(args: seq<string>, o: Options)
    requires |args| == 1 && ValuedOption(args[0]).Some?
    ensures OptionStep(args, o) == Stop(Rejected, o)
    ensures Grouped(args) == [Single(args[0])] && !Understood(Single(args[0])) && !AsksForHelp(Single(args[0]))
  {
    hide ValueStep, FlagStep;
    assert args[1..] == [] && Grouped([]) == [];
  }

  lemma DirectoryStep(args: seq<string>, o: Options)
    requires |args| > 1 && args[0] == "--child-directory"
    ensures var step, g := OptionStep(args, o), Directory(args[1], args[2..]);
            && Grouped(args) == [g] && Understood(g)
            && step.Continue? && step.taken == |args| && StepAsGiven(g, o, step.options)
    ensures Grouped(args[|args|..]) == [] == [Directory(args[1], args[2..])][1..]
  {
    hide ValuedOption, LastValue, ScaleName, ParseScale, Tokens, AddTokens;
    ValuedOptionNames(args[0]);
    assert args[1..][1..] == args[2..];
  }

  lemma PairStep(args: seq<string>, o: Options)
    requires |args| > 1 && ValuedOption(args[0]).Some? && args[0] != "--child-directory"
    ensures var step, given := OptionStep(args, o), Grouped(args);
            && given == [Pair(args[0], args[1])] + Grouped(args[2..])
            && (step.Continue? <==> Understood(given[0])) && (step.Stop? ==> step.outcome == Rejected)
            && (step.Continue? ==> given[1..] == Grouped(args[step.taken..]) && StepAsGiven(given[0], o, step.options))
            && !AsksForHelp(given[0])
  {
    hide ValueStep, ValuedOption, StepAsGiven, Understood;
    ValuedOptionNames(args[0]);
    PairAsGiven(args[0], args[1..], o);
  }

  /** Steps compose. */
  lemma AsGivenCons(g: Given, rest: seq<Given>, o: Options, mid: Options, r: Options)
    requires StepAsGiven(g, o, mid) && TextsAsGiven(rest, mid, r) && FlagsAsGiven(rest, mid, r) && DirectoryIs(rest, mid, r)
    requires g.Directory? ==> rest == []
    ensures TextsAsGiven([g] + rest, o, r) && FlagsAsGiven([g] + rest, o, r) && DirectoryIs([g] + rest, o, r)
  {
    hide TextsAsGiven, FlagsAsGiven;
    TextsCons(g, rest, o, mid, r);
    FlagsCons(g, rest, o, mid, r);
    var all := [g] + rest;
    assert rest != [] ==> all[|all| - 1] == rest[|rest| - 1];
    assert rest == [] ==> all == [g];
  }

  lemma TextsCons(g: Given, rest: seq<Given>, o: Options, mid: Options, r: Options)
    requires StepAsGiven(g, o, mid) && TextsAsGiven(rest, mid, r)
    ensures TextsAsGiven([g] + rest, o, r)
  {
    hide LastValue, ScaleName;
    LastValueCons(g, rest, "--filter", o.filterPattern);
    LastValueCons(g, rest, "--log-file", o.logFile);
    LastValueCons(g, rest, "--child-entry", o.childEntryName);
    LastValueCons(g, rest, "--scale", ScaleName(o.scaleSize));
  }

  lemma FlagsCons(g: Given, rest: seq<Given>, o: Options, mid: Options, r: Options)
    requires StepAsGiven(g, o, mid) && FlagsAsGiven(rest, mid, r)
    ensures FlagsAsGiven([g] + rest, o, r)
  {
    hide ScaleName;
    var all := [g] + rest;
    assert forall x :: x in all <==> x == g || x in rest;
  }

  /**
   What a command line means, for every argument list: it is accepted exactly when all of it is
   understood, help is shown exactly when a request for it comes before anything else that is not,
   and then the filter, the log file, the scale and the child's entry are the last ones given, each
   flag is set exactly when given, and the child's directory takes everything after it.
   */
  lemma {:induction false} CommandLineMeans(args: seq<string>, o: Options)
    ensures ParseArgs(args, o).0 == OutcomeOf(Grouped(args))
    ensures ParseArgs(args, o).0 == Accepted ==>
              var given, r := Grouped(args), ParseArgs(args, o).1;
              TextsAsGiven(given, o, r) && FlagsAsGiven(given, o, r) && DirectoryIs(given, o, r)
    decreases |args|
  {
    if args == [] {
    } else {
      hide OptionStep, Grouped, Understood, AsksForHelp, StepAsGiven, TextsAsGiven, FlagsAsGiven, DirectoryIs;
      StepTakesGroup(args, o);
      var step, given := OptionStep(args, o), Grouped(args);
      if step.Continue? {
        CommandLineMeans(args[step.taken..], step.options);
        assert given == [given[0]] + given[1..];
        if ParseArgs(args, o).0 == Accepted {
          AsGivenCons(given[0], given[1..], o, step.options, ParseArgs(args, o).1);
        }
      }
      assert ParseArgs(args, o).0 == OutcomeOf(Grouped(args));
    }
  }

  // ----- the names of tiers -----

  /** Letters in either case are the same. */
  predicate SameLetters(a: string, b: string) {
    |a| == |b| && forall i :: 0 <= i < |a| ==> a[i] == b[i] || ('A' <= a[i] <= 'Z' && b[i] as int == a[i] as int + 32)
  }

  lemma {:induction false} LowerIs(a: string, b: string)
    requires forall i :: 0 <= i < |b| ==> !('A' <= b[i] <= 'Z')
    ensures Lower(a) == b <==> SameLetters(a, b)
  {
    if Lower(a) == b {
      forall i | 0 <= i < |a|
        ensures a[i] == b[i] || ('A' <= a[i] <= 'Z' && b[i] as int == a[i] as int + 32)
      {
        assert Lower(a)[i] == b[i];
      }
    }
  }

  /** Which tiers a token names, whatever the case of its letters. */
  lemma TierNames(token: string)
    ensures Smoke in Named(token) <==> SameLetters(token, "smoke") || SameLetters(token, "all")
    ensures Regression in Named(token) <==>
            SameLetters(token, "reg") || SameLetters(token, "regression") || SameLetters(token, "all")
    ensures LongRunning in Named(token) <==>
            || SameLetters(token, "long") || SameLetters(token, "long-running") || SameLetters(token, "longrunning")
            || SameLetters(token, "all")
    ensures ParseTier(token).None? <==> Named(token) == {}
  {
    hide SameLetters, Lower;
    LowerIs(token, "smoke");
    LowerIs(token, "reg");
    LowerIs(token, "regression");
    LowerIs(token, "long");
    LowerIs(token, "long-running");
    LowerIs(token, "longrunning");
    LowerIs(token, "all");
  }

  // ----- the child's command line -----

  /** What a `char*` argument carries across `execve`: the text before the first NUL. */
  function CString(s: string): (r: string)
    ensures |r| <= |s|
    ensures r == s <==> '\0' !in s
  {
    if s == "" || s[0] == '\0' then "" else
      var rest := CString(s[1..]);
      assert s == [s[0]] + s[1..];
      [s[0]] + rest
  }

  function Exec(argv: seq<string>): (r: seq<string>)
    ensures |r| == |argv| && forall i :: 0 <= i < |argv| ==> r[i] == CString(argv[i])
  {
    seq(|argv|, i requires 0 <= i < |argv| => CString(argv[i]))
  }

  function ChildArgv(executable: string, entryName: string, directory: string, extraArgs: seq<string>): seq<string> {
    [executable, "--child-entry", entryName, "--child-directory", directory] + extraArgs
  }

  method BuildChildArgv(executable: string, entryName: string, directory: string, extraArgs: seq<string>)
    returns (argv: seq<string>)
    ensures argv == ChildArgv(executable, entryName, directory, extraArgs)
  {
    argv := [executable];
    argv := argv + ["--child-entry"];
    argv := argv + [entryName];
    argv := argv + ["--child-directory"];
    argv := argv + [directory];
    ghost var head := argv;
    for i := 0 to |extraArgs|
      invariant argv == head + extraArgs[..i]
    {
      argv := argv + [extraArgs[i]];
    }
  }

  predicate NoNuls(strings: seq<string>) {
    forall i :: 0 <= i < |strings| ==> '\0' !in strings[i]
  }

  function ChildOptions(entryName: string, directory: string, extraArgs: seq<string>): Options {
    DEFAULTS.(childMode := true, childEntryName := entryName, childDirectory := directory, childExtraArgs := extraArgs)
  }

  lemma ParseChildArgs(entryName: string, directory: string, extraArgs: seq<string>)
    ensures ParseArgs(["--child-entry", entryName, "--child-directory", directory] + extraArgs, DEFAULTS)
            == (Accepted, ChildOptions(entryName, directory, extraArgs))
  {
    hide Tokens, AddTokens;
    var tail := ["--child-directory", directory] + extraArgs;
    var args := ["--child-entry", entryName, "--child-directory", directory] + extraArgs;
    assert args[1..][0] == entryName && args[2..] == tail;
    var o := DEFAULTS.(childMode := true, childEntryName := entryName);
    assert OptionStep(args, DEFAULTS) == Continue(o, 2);
    assert tail[1..] == [directory] + extraArgs && tail[1..][1..] == extraArgs;
    assert o.childExtraArgs + extraArgs == extraArgs;
    assert OptionStep(tail, o) == Continue(ChildOptions(entryName, directory, extraArgs), |tail|);
    assert tail[|tail|..] == [];
    assert ParseArgs(args, DEFAULTS) == ParseArgs(tail, o);
    assert ParseArgs(tail, o) == ParseArgs([], ChildOptions(entryName, directory, extraArgs));
  }

  /**
   The child sees exactly the entry, directory and arguments its parent passed, also when these
   look like options, if and only if none of them contains a NUL.
   */
  lemma ChildSeesItsArguments(executable: string, entryName: string, directory: string, extraArgs: seq<string>)
    ensures ParseArgs(Exec(ChildArgv(executable, entryName, directory, extraArgs))[1..], DEFAULTS)
            == (Accepted, ChildOptions(entryName, directory, extraArgs))
            <==> NoNuls([entryName, directory] + extraArgs)
  {
    hide ParseArgs, CString;
    var argv := ChildArgv(executable, entryName, directory, extraArgs);
    var seen := Exec(extraArgs);
    assert Exec(argv)[1..] == ["--child-entry", CString(entryName), "--child-directory", CString(directory)] + seen;
    ParseChildArgs(CString(entryName), CString(directory), seen);
    var all := [entryName, directory] + extraArgs;
    assert all[0] == entryName && all[1] == directory;
    assert forall i :: 2 <= i < |all| ==> all[i] == extraArgs[i - 2];
    assert forall i :: 0 <= i < |extraArgs| ==> all[i + 2] == extraArgs[i];
    assert seen == extraArgs <==> forall i :: 0 <= i < |extraArgs| ==> '\0' !in extraArgs[i] by {
      if seen == extraArgs {
        forall i | 0 <= i < |extraArgs| ensures '\0' !in extraArgs[i] {
          assert seen[i] == extraArgs[i];
        }
      }
    }
  }
}
