/**
 The command-line scan: one forward pass that stops at "--", a fixed
 precedence among what it found, and the forwarding of the rest to Chromium.
 */
module Cli {
  import opened Text

  datatype TokenEvent = Ignored | Help | Version | DryRun | ResetData | Fault(message: string)

  datatype Scan = Scan(help: bool, version: bool, dryRun: bool, resetData: bool, error: Option<string>,
                       forwarded: seq<string>)

  datatype Command =
    | ShowHelp
    | ShowVersion
    | UsageError(message: string)
    | RunDryRun
    | RunReset
    | Gui(forwarded: seq<string>)

  datatype Kind = HelpKind | VersionKind | ErrorKind | DryRunKind | ResetKind | GuiKind

  const BOOLEAN_OPTIONS: set<string> := {"-h", "-v", "--help", "--version", "--dry-run", "--reset-data"}

  const PASSTHROUGH_OPTIONS: set<string> :=
    { "--no-sandbox", "--ozone-platform", "--force-device-scale-factor", "--use-fake-device-for-media-stream",
      "--disable-gpu" }

  function NameOf(token: string): string {
    var n := IndexOf(token, '=');
    if n == -1 then token else token[..n]
  }

  function ValueOf(token: string): Option<string> {
    var n := IndexOf(token, '=');
    if n == -1 then None else Some(token[n + 1..])
  }

  function Classify(token: string): TokenEvent {
    if token == "-h" || token == "--help" then Help
    else if token == "-v" || token == "--version" then Version
    else if token == "--dry-run" then DryRun
    else if token == "--reset-data" then ResetData
    else if !("-" <= token) || token == "-" then Ignored
    else if NameOf(token) in PASSTHROUGH_OPTIONS then Ignored
    else if ValueOf(token).Some? && NameOf(token) in BOOLEAN_OPTIONS then
      Fault("option '" + NameOf(token) + "' does not take a value")
    else Fault("unknown option '" + NameOf(token) + "'")
  }

  //// The meaning of a scan, independent of how it is made.

  /** The tokens before the first "--". */
  function Options(argv: seq<string>): seq<string> {
    if argv == [] || argv[0] == "--" then [] else [argv[0]] + Options(argv[1..])
  }

  /** The tokens after the first "--". */
  function Rest(argv: seq<string>): seq<string> {
    if argv == [] then [] else if argv[0] == "--" then argv[1..] else Rest(argv[1..])
  }

  ghost predicate Occurs(tokens: seq<string>, e: TokenEvent) {
    exists token :: token in tokens && Classify(token) == e
  }

  ghost predicate SomeFault(tokens: seq<string>) {
    exists token :: token in tokens && Classify(token).Fault?
  }

  /** The message of the first faulty token. */
  function FirstFault(tokens: seq<string>): Option<string> {
    if tokens == [] then None
    else if Classify(tokens[0]).Fault? then Some(Classify(tokens[0]).message)
    else FirstFault(tokens[1..])
  }

  //// The program.

  /** The flags and the error of a scan are those of `tokens`. */
  ghost predicate Found(scan: Scan, tokens: seq<string>) {
    && scan.help == Occurs(tokens, Help)
    && scan.version == Occurs(tokens, Version)
    && scan.dryRun == Occurs(tokens, DryRun)
    && scan.resetData == Occurs(tokens, ResetData)
    && scan.error == FirstFault(tokens)
  }

  /** The scan has passed `index` option tokens. */
  ghost predicate Passed(argv: seq<string>, index: nat) {
    && index <= |argv|
    && Options(argv) == argv[..index] + Options(argv[index..])
    && Rest(argv) == Rest(argv[index..])
  }

  /** The mutating loop over the tokens. */
  method ScanArgv(argv: seq<string>) returns (scan: Scan)
    ensures Found(scan, Options(argv))
    ensures scan.forwarded == Rest(argv)
  {
    hide Classify, Found, Passed, Options, Rest;
    scan := Scan(false, false, false, false, None, []);
    var index := 0;
    NothingFound(scan, argv);
    while index < |argv|
      invariant 0 <= index <= |argv| && Passed(argv, index)
      invariant Found(scan, argv[..index]) && scan.forwarded == []
    {
      var token := argv[index];
      PassToken(argv, index);
      if token == "--" {
        scan := scan.(forwarded := argv[index + 1..]);
        SameFlags(scan.(forwarded := []), scan, argv[..index]);
        return;
      }
      FoundGrows(scan, argv[..index], token);
      match Classify(token) {
        case Ignored =>
        case Fault(message) => scan := scan.(error := if scan.error.None? then Some(message) else scan.error);
        case Help => scan := scan.(help := true);
        case Version => scan := scan.(version := true);
        case DryRun => scan := scan.(dryRun := true);
        case ResetData => scan := scan.(resetData := true);
      }
      index := index + 1;
    }
    PassedAll(argv);
  }

  lemma NothingFound(scan: Scan, argv: seq<string>)
    requires scan == Scan(false, false, false, false, None, [])
    ensures Found(scan, argv[..0]) && Passed(argv, 0)
  {
  }

  lemma SameFlags(a: Scan, b: Scan, tokens: seq<string>)
    requires Found(a, tokens) && b == a.(forwarded := b.forwarded)
    ensures Found(b, tokens)
  {
    hide Occurs, FirstFault;
  }

  lemma PassToken(argv: seq<string>, index: nat)
    requires index < |argv| && Passed(argv, index)
    ensures argv[..index + 1] == argv[..index] + [argv[index]]
    ensures if argv[index] == "--" then Options(argv) == argv[..index] && Rest(argv) == argv[index + 1..]
            else Passed(argv, index + 1)
  {
    hide Options, Rest;
    OptionsStep(argv, index);
    RestStep(argv, index);
    TakeOne(argv, index);
    if argv[index] == "--" {
      assert argv[..index] + [] == argv[..index];
    } else {
      Assoc(argv[..index], [argv[index]], Options(argv[index + 1..]));
    }
  }

  lemma TakeOne(argv: seq<string>, index: nat)
    requires index < |argv|
    ensures argv[..index + 1] == argv[..index] + [argv[index]]
  {
  }

  lemma OptionsStep(argv: seq<string>, index: nat)
    requires index < |argv|
    ensures Options(argv[index..]) == if argv[index] == "--" then [] else [argv[index]] + Options(argv[index + 1..])
  {
    assert argv[index..][1..] == argv[index + 1..];
  }

  lemma RestStep(argv: seq<string>, index: nat)
    requires index < |argv|
    ensures Rest(argv[index..]) == if argv[index] == "--" then argv[index + 1..] else Rest(argv[index + 1..])
  {
    assert argv[index..][1..] == argv[index + 1..];
  }

  lemma PassedAll(argv: seq<string>)
    requires Passed(argv, |argv|)
    ensures Options(argv) == argv[..|argv|] && Rest(argv) == []
  {
  }

  /** What one more token adds to a scan. */
  lemma FoundGrows(scan: Scan, tokens: seq<string>, token: string)
    requires Found(scan, tokens)
    ensures var e := Classify(token);
            Found(match e
                  case Ignored => scan
                  case Fault(message) => scan.(error := if scan.error.None? then Some(message) else scan.error)
                  case Help => scan.(help := true)
                  case Version => scan.(version := true)
                  case DryRun => scan.(dryRun := true)
                  case ResetData => scan.(resetData := true),
                  tokens + [token])
  {
    hide Classify, Occurs, FirstFault;
    OccursGrows(tokens, token);
    FirstFaultGrows(tokens, token);
  }

  lemma OccursGrows(tokens: seq<string>, token: string)
    ensures forall e :: Occurs(tokens + [token], e) <==> Occurs(tokens, e) || Classify(token) == e
  {
    hide Classify;
    forall e
      ensures Occurs(tokens + [token], e) <==> Occurs(tokens, e) || Classify(token) == e
    {
      assert token in tokens + [token];
    }
  }

  lemma {:induction false} FirstFaultGrows(tokens: seq<string>, token: string)
    ensures FirstFault(tokens + [token]) ==
            if FirstFault(tokens).Some? then FirstFault(tokens)
            else if Classify(token).Fault? then Some(Classify(token).message)
            else None
    decreases |tokens|
  {
    hide Classify;
    if tokens == [] {
      assert (tokens + [token])[0] == token && (tokens + [token])[1..] == [];
    } else {
      assert (tokens + [token])[1..] == tokens[1..] + [token];
      FirstFaultGrows(tokens[1..], token);
    }
  }

  method ParseCli(argv: seq<string>) returns (command: Command)
    ensures command == Parsed(argv)
  {
    hide Occurs, Options, Rest;
    var scan := ScanArgv(argv);
    command :=
      if scan.help then ShowHelp
      else if scan.version then ShowVersion
      else if scan.error.Some? then UsageError(scan.error.value)
      else if scan.dryRun then RunDryRun
      else if scan.resetData then RunReset
      else Gui(scan.forwarded);
  }

  ghost function Parsed(argv: seq<string>): Command {
    var options := Options(argv);
    if Occurs(options, Help) then ShowHelp
    else if Occurs(options, Version) then ShowVersion
    else if FirstFault(options).Some? then UsageError(FirstFault(options).value)
    else if Occurs(options, DryRun) then RunDryRun
    else if Occurs(options, ResetData) then RunReset
    else Gui(Rest(argv))
  }

  /** The loop that hands switches to Chromium; positionals, "-" and "--" are skipped. */
  method ForwardSwitches(forwarded: seq<string>) returns (switches: seq<(string, Option<string>)>)
    ensures switches == SwitchesOf(forwarded)
  {
    switches := [];
    var i := 0;
    while i < |forwarded|
      invariant 0 <= i <= |forwarded|
      invariant switches + SwitchesOf(forwarded[i..]) == SwitchesOf(forwarded)
    {
      var token := forwarded[i];
      assert forwarded[i..][0] == token && forwarded[i..][1..] == forwarded[i + 1..];
      i := i + 1;
      if !IsSwitch(token) {
        continue;
      }
      var separator := IndexOf(token, '=');
      var name := if separator == -1 then token else token[..separator];
      switches := switches + [(name, if separator == -1 then None else Some(token[separator + 1..]))];
    }
  }

  predicate IsSwitch(token: string) {
    "-" <= token && token != "-" && token != "--"
  }

  function SwitchesOf(tokens: seq<string>): seq<(string, Option<string>)> {
    if tokens == [] then []
    else (if IsSwitch(tokens[0]) then [(NameOf(tokens[0]), ValueOf(tokens[0]))] else []) + SwitchesOf(tokens[1..])
  }

  //// What the scan promises.

  function KindOf(c: Command): Kind {
    match c
    case ShowHelp => HelpKind
    case ShowVersion => VersionKind
    case UsageError(_) => ErrorKind
    case RunDryRun => DryRunKind
    case RunReset => ResetKind
    case Gui(_) => GuiKind
  }

  lemma {:induction false} FaultFound(tokens: seq<string>)
    ensures FirstFault(tokens).Some? <==> SomeFault(tokens)
  {
    hide Classify;
    if tokens != [] {
      FaultFound(tokens[1..]);
      assert tokens == [tokens[0]] + tokens[1..];
      assert tokens[0] in tokens;
    }
  }

  /** The command's kind depends only on which tokens come before "--", not on their order or number. */
  lemma KindIgnoresOrder(argv: seq<string>, argv': seq<string>)
    requires forall token :: token in Options(argv) <==> token in Options(argv')
    ensures KindOf(Parsed(argv)) == KindOf(Parsed(argv'))
  {
    hide Classify, Options;
    FaultFound(Options(argv));
    FaultFound(Options(argv'));
    var a, b := Options(argv), Options(argv');
    assert forall e :: Occurs(a, e) <==> Occurs(b, e);
    assert SomeFault(a) <==> SomeFault(b);
  }

  /** In particular under any permutation of those tokens. */
  lemma KindUnderPermutation(argv: seq<string>, argv': seq<string>)
    requires multiset(Options(argv)) == multiset(Options(argv'))
    ensures KindOf(Parsed(argv)) == KindOf(Parsed(argv'))
  {
    forall token
      ensures token in Options(argv) <==> token in Options(argv')
    {
      assert token in Options(argv) <==> token in multiset(Options(argv));
      assert token in Options(argv') <==> token in multiset(Options(argv'));
    }
    KindIgnoresOrder(argv, argv');
  }

  /** The reported error is that of the earliest faulty token. */
  lemma {:induction false} EarliestErrorIsReported(tokens: seq<string>) returns (i: nat)
    requires FirstFault(tokens).Some?
    ensures i < |tokens| && Classify(tokens[i]) == Fault(FirstFault(tokens).value)
    ensures forall j :: 0 <= j < i ==> !Classify(tokens[j]).Fault?
  {
    hide Classify;
    if Classify(tokens[0]).Fault? {
      i := 0;
    } else {
      var k := EarliestErrorIsReported(tokens[1..]);
      i := k + 1;
      forall j | 0 <= j < i
        ensures !Classify(tokens[j]).Fault?
      {
        assert j > 0 ==> tokens[j] == tokens[1..][j - 1];
      }
    }
  }

  //// What every command line means, from its tokens alone.

  predicate IsOption(token: string) {
    || token == "-h" || token == "--help" || token == "-v" || token == "--version"
    || token == "--dry-run" || token == "--reset-data"
  }

  /** The token is this name, alone or with a value. */
  predicate Names(token: string, name: string) {
    token == name || name + "=" <= token
  }

  /** A switch that launchers leave for Chromium. */
  predicate IsLaunchers(token: string) {
    || Names(token, "--no-sandbox") || Names(token, "--ozone-platform") || Names(token, "--force-device-scale-factor")
    || Names(token, "--use-fake-device-for-media-stream") || Names(token, "--disable-gpu")
  }

  /** A token that is neither an option nor meant for somebody else. */
  predicate IsFaulty(token: string) {
    "-" <= token && token != "-" && !IsOption(token) && !IsLaunchers(token)
  }

  /** What is said of a faulty token whose part before any "=" is `name`. */
  function Complaint(token: string, name: string): string {
    if token != name && IsOption(name) then "option '" + name + "' does not take a value"
    else "unknown option '" + name + "'"
  }

  lemma NameOfIs(token: string, name: string)
    requires '=' !in name
    ensures NameOf(token) == name <==> Names(token, name)
  {
    hide NameOf, ValueOf;
    if token == name {
      NameAlone(name);
    } else if name + "=" <= token {
      NameWithValue(token, name);
    } else {
      SwitchRejoins(token);
      assert ValueOf(token).Some? ==> NameOf(token) + "=" <= token by {
        if ValueOf(token).Some? {
          Assoc(NameOf(token), "=", ValueOf(token).value);
        }
      }
    }
  }

  lemma NameAlone(name: string)
    requires '=' !in name
    ensures NameOf(name) == name
  {
    IndexOfIsFirst(name, '=');
  }

  lemma NameWithValue(token: string, name: string)
    requires '=' !in name && name + "=" <= token
    ensures NameOf(token) == name
  {
    hide IndexOf;
    assert token[..|name| + 1] == name + "=";
    assert token[|name|] == '=' && token[..|name|] == name;
    FirstIs(token, '=', |name|);
  }

  lemma FirstIs(s: string, c: char, n: nat)
    requires n < |s| && s[n] == c && c !in s[..n]
    ensures IndexOf(s, c) == n
  {
    assert s == s[..n] + s[n..];
    IndexOfAppend(s[..n], s[n..], c);
    IndexOfIsFirst(s[..n], c);
  }

  lemma ClassifyLaunchers(token: string)
    ensures NameOf(token) in PASSTHROUGH_OPTIONS <==> IsLaunchers(token)
  {
    hide NameOf, Names;
    NoEquals();
    NameOfIs(token, "--no-sandbox");
    NameOfIs(token, "--ozone-platform");
    NameOfIs(token, "--force-device-scale-factor");
    NameOfIs(token, "--use-fake-device-for-media-stream");
    NameOfIs(token, "--disable-gpu");
  }

  lemma NoEquals()
    ensures '=' !in "--no-sandbox" && '=' !in "--ozone-platform" && '=' !in "--force-device-scale-factor"
    ensures '=' !in "--use-fake-device-for-media-stream" && '=' !in "--disable-gpu"
  {
  }

  /** What one token contributes. */
  lemma TokenMeans(token: string)
    ensures Classify(token) == Help <==> token == "-h" || token == "--help"
    ensures Classify(token) == Version <==> token == "-v" || token == "--version"
    ensures Classify(token) == DryRun <==> token == "--dry-run"
    ensures Classify(token) == ResetData <==> token == "--reset-data"
    ensures Classify(token).Fault? <==> IsFaulty(token)
    ensures IsFaulty(token) ==> Classify(token).message == Complaint(token, NameOf(token))
  {
    ClassifyLaunchers(token);
    SwitchRejoins(token);
    hide NameOf, ValueOf, IsLaunchers;
  }

  lemma OccursMeans(tokens: seq<string>)
    ensures Occurs(tokens, Help) <==> "-h" in tokens || "--help" in tokens
    ensures Occurs(tokens, Version) <==> "-v" in tokens || "--version" in tokens
    ensures Occurs(tokens, DryRun) <==> "--dry-run" in tokens
    ensures Occurs(tokens, ResetData) <==> "--reset-data" in tokens
    ensures FirstFault(tokens).Some? <==> exists token :: token in tokens && IsFaulty(token)
  {
    hide Classify, IsFaulty;
    FaultFound(tokens);
    forall token
      ensures Classify(token) == Help <==> token == "-h" || token == "--help"
      ensures Classify(token) == Version <==> token == "-v" || token == "--version"
      ensures Classify(token) == DryRun <==> token == "--dry-run"
      ensures Classify(token) == ResetData <==> token == "--reset-data"
      ensures Classify(token).Fault? <==> IsFaulty(token)
    {
      TokenMeans(token);
    }
  }

  /** Which command a command line is, for every command line: the tokens before "--" decide. */
  lemma CommandIsDecidedByTokens(argv: seq<string>)
    ensures var o, command := Options(argv), Parsed(argv);
            var help, version := "-h" in o || "--help" in o, "-v" in o || "--version" in o;
            var faulty := exists token :: token in o && IsFaulty(token);
            && (command == ShowHelp <==> help)
            && (command == ShowVersion <==> !help && version)
            && (command.UsageError? <==> !help && !version && faulty)
            && (command == RunDryRun <==> !help && !version && !faulty && "--dry-run" in o)
            && (command == RunReset <==> !help && !version && !faulty && "--dry-run" !in o && "--reset-data" in o)
            && (command == Gui(Rest(argv)) <==>
                  !help && !version && !faulty && "--dry-run" !in o && "--reset-data" !in o)
  {
    hide Options, Occurs, FirstFault, IsFaulty;
    OccursMeans(Options(argv));
  }

  /** The complaint is about the first faulty token, by its part before any "=". */
  lemma ErrorNamesTheFirstFault(argv: seq<string>) returns (i: nat, name: string)
    requires Parsed(argv).UsageError?
    ensures var o := Options(argv);
            && i < |o| && IsFaulty(o[i]) && (forall j :: 0 <= j < i ==> !IsFaulty(o[j]))
            && Names(o[i], name) && '=' !in name
            && Parsed(argv) == UsageError(Complaint(o[i], name))
  {
    hide Options, Occurs, Classify, IsFaulty, Names, NameOf, ValueOf;
    var o := Options(argv);
    i := EarliestErrorIsReported(o);
    forall j | 0 <= j <= i
      ensures Classify(o[j]).Fault? <==> IsFaulty(o[j])
    {
      TokenMeans(o[j]);
    }
    TokenMeans(o[i]);
    name := NameOf(o[i]);
    SwitchRejoins(o[i]);
    NameOfIs(o[i], name);
  }

  /** The options and the rest, around the first "--", make up the command line. */
  lemma {:induction false} NothingIsLost(argv: seq<string>)
    ensures "--" !in Options(argv)
    ensures if "--" in argv then argv == Options(argv) + ["--"] + Rest(argv)
            else Options(argv) == argv && Rest(argv) == []
  {
    if argv != [] {
      assert argv == [argv[0]] + argv[1..];
      if argv[0] != "--" {
        NothingIsLost(argv[1..]);
        assert "--" in argv <==> "--" in argv[1..];
      }
    }
  }

  /** A forwarded switch's name and value rejoin to the token. */
  lemma SwitchRejoins(token: string)
    ensures NameOf(token) + (if ValueOf(token).Some? then "=" + ValueOf(token).value else "") == token
    ensures '=' !in NameOf(token)
  {
    IndexOfIsFirst(token, '=');
  }

  function Rejoin(s: (string, Option<string>)): string {
    s.0 + (if s.1.Some? then "=" + s.1.value else "")
  }

  function RejoinAll(switches: seq<(string, Option<string>)>): seq<string> {
    if switches == [] then [] else [Rejoin(switches[0])] + RejoinAll(switches[1..])
  }

  /** The tokens that begin with a dash, without "-" and "--". */
  function OnlySwitches(tokens: seq<string>): seq<string> {
    if tokens == [] then []
    else if tokens[0] != "" && tokens[0][0] == '-' && tokens[0] != "-" && tokens[0] != "--" then
      [tokens[0]] + OnlySwitches(tokens[1..])
    else OnlySwitches(tokens[1..])
  }

  lemma SwitchMeans(token: string)
    ensures IsSwitch(token) <==> token != "" && token[0] == '-' && token != "-" && token != "--"
  {
  }

  /** What Chromium is handed is exactly the switches after "--", verbatim and in order. */
  lemma {:induction false} SwitchesForwardedVerbatim(tokens: seq<string>)
    ensures RejoinAll(SwitchesOf(tokens)) == OnlySwitches(tokens)
  {
    hide NameOf, ValueOf, IsSwitch;
    if tokens != [] {
      SwitchesForwardedVerbatim(tokens[1..]);
      SwitchRejoins(tokens[0]);
      SwitchMeans(tokens[0]);
      var first := (NameOf(tokens[0]), ValueOf(tokens[0]));
      var later := SwitchesOf(tokens[1..]);
      assert SwitchesOf(tokens) == if IsSwitch(tokens[0]) then [first] + later else [] + later;
      assert ([first] + later)[1..] == later && [] + later == later;
    }
  }
}
