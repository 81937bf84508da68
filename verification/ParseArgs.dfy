/**
 Parsing the command line into a command path and flags (src/cli/args.ts), read back through src/cli/flags.ts.
 */
module ParseArgs {
  import opened Wrappers
  import opened CliFlags

  const BOOLEAN_FLAGS := {
    "all", "attachments", "children", "comments", "connect", "current", "dry-run", "enter", "focus", "force", "full",
    "help", "inject", "include-archived", "include-visual-layouts", "interrupt", "json", "local", "messages", "me",
    "mobile", "mobile-pairing", "no-pairing", "parent-current", "provision", "ready", "recipe-json", "relations",
    "reinstall", "restore-window", "return-preamble", "run-hooks", "show-profile", "staged", "tab", "tasks",
    "text-stdin", "unread", "value-stdin", "wait"
  }
  const REPEATABLE_STRING_FLAGS := {"label", "skill"}

  datatype Parsed = Parsed(commandPath: seq<string>, flags: Flags)

  const NOTHING := Parsed([], map[])

  // ---------------------------------------------------------------- tokens

  predicate IsFlag(token: string) {
    |token| >= 2 && token[0] == '-' && token[1] == '-'
  }

  /** The length of the part before the first `=`. */
  function NameLength(assignment: string): (n: nat)
    ensures n <= |assignment| && '=' !in assignment[..n] && (n < |assignment| ==> assignment[n] == '=')
  {
    if assignment == "" || assignment[0] == '=' then 0
    else
      var n := NameLength(assignment[1..]);
      assert assignment[..n + 1] == [assignment[0]] + assignment[1..][..n];
      n + 1
  }

  lemma {:induction false} NameLengthOfAssignment(name: string, value: string)
    requires '=' !in name
    ensures NameLength(name + "=" + value) == |name|
  {
    if name != "" {
      assert (name + "=" + value)[1..] == name[1..] + "=" + value;
      NameLengthOfAssignment(name[1..], value);
    }
  }

  lemma {:induction false} NameLengthIsWhole(name: string)
    requires '=' !in name
    ensures NameLength(name) == |name|
  {
    if name != "" {
      NameLengthIsWhole(name[1..]);
    }
  }

  predicate IsAssignment(token: string) {
    IsFlag(token) && NameLength(token[2..]) < |token| - 2
  }

  function FlagName(token: string): string
    requires IsFlag(token)
  {
    token[2..2 + NameLength(token[2..])]
  }

  function AssignedValue(token: string): string
    requires IsAssignment(token)
  {
    token[2 + NameLength(token[2..]) + 1..]
  }

  predicate IsBooleanFlag(token: string) {
    IsFlag(token) && !IsAssignment(token) && FlagName(token) in BOOLEAN_FLAGS
  }

  lemma BooleanNamesAreWhole(name: string)
    requires name in BOOLEAN_FLAGS
    ensures '=' !in name
  {
  }

  /** The boolean flags are `--` and one of the known names, with nothing attached. */
  lemma BooleanFlagIff(token: string)
    ensures IsBooleanFlag(token) <==> |token| >= 2 && token[..2] == "--" && token[2..] in BOOLEAN_FLAGS
  {
    assert |token| >= 2 && NameLength(token[2..]) == |token| - 2 ==> token[2..2 + NameLength(token[2..])] == token[2..];
    if |token| >= 2 && token[..2] == "--" && token[2..] in BOOLEAN_FLAGS {
      assert token[0] == token[..2][0] && token[1] == token[..2][1];
      BooleanNamesAreWhole(token[2..]);
      NameLengthIsWhole(token[2..]);
    }
  }

  // ---------------------------------------------------------------- one token

  function SetFlagValue(flags: Flags, name: string, value: string): Flags {
    if name in flags && flags[name].Text? && name in REPEATABLE_STRING_FLAGS
    then flags[name := Text(flags[name].text + [REPEATED_FLAG_SEPARATOR] + value)]
    else flags[name := Text(value)]
  }

  /** The next token that is not passed over as a flag or the value of one. */
  function SkipFlags(argv: seq<string>, cursor: nat): nat
    decreases |argv| - cursor
  {
    if cursor < |argv| && IsFlag(argv[cursor])
    then SkipFlags(argv, cursor + if IsAssignment(argv[cursor]) || IsBooleanFlag(argv[cursor]) then 1 else 2)
    else cursor
  }

  predicate PathStartsAt(argv: seq<string>, cursor: nat, path: seq<string>)
    decreases |path|
  {
    path == []
    || (var at := SkipFlags(argv, cursor); at < |argv| && argv[at] == path[0] && PathStartsAt(argv, at + 1, path[1..]))
  }

  predicate StartsCommandAt(argv: seq<string>, cursor: nat, commandPaths: seq<seq<string>>) {
    exists k :: 0 <= k < |commandPaths| && PathStartsAt(argv, cursor, commandPaths[k])
  }

  /** A bare flag does not take the first word of a command for its value. */
  predicate StandsBeforeCommand(argv: seq<string>, i: nat, commandPaths: seq<seq<string>>) {
    StartsCommandAt(argv, i + 1, commandPaths) && !StartsCommandAt(argv, i + 2, commandPaths)
  }

  /** How many tokens the one at `i` takes. */
  function Taken(argv: seq<string>, i: nat, parsed: Parsed, commandPaths: seq<seq<string>>): nat
    requires i < |argv|
  {
    if !IsFlag(argv[i]) || IsAssignment(argv[i]) || IsBooleanFlag(argv[i]) then 1
    else if parsed.commandPath == [] && StandsBeforeCommand(argv, i, commandPaths) then 1
    else if i + 1 >= |argv| || IsFlag(argv[i + 1]) then 1
    else 2
  }

  function AfterToken(argv: seq<string>, i: nat, parsed: Parsed, commandPaths: seq<seq<string>>): Parsed
    requires i < |argv|
  {
    var token := argv[i];
    if !IsFlag(token) then parsed.(commandPath := parsed.commandPath + [token])
    else if IsAssignment(token) then parsed.(flags := SetFlagValue(parsed.flags, FlagName(token), AssignedValue(token)))
    else if Taken(argv, i, parsed, commandPaths) == 2
    then parsed.(flags := SetFlagValue(parsed.flags, FlagName(token), argv[i + 1]))
    else parsed.(flags := parsed.flags[FlagName(token) := Present])
  }

  function ParseFrom(argv: seq<string>, i: nat, parsed: Parsed, commandPaths: seq<seq<string>>): Parsed
    decreases |argv| - i
  {
    if i >= |argv| then parsed
    else ParseFrom(argv, i + Taken(argv, i, parsed, commandPaths), AfterToken(argv, i, parsed, commandPaths),
                   commandPaths)
  }

  function Parse(argv: seq<string>, commandPaths: seq<seq<string>>): Parsed {
    ParseFrom(argv, 0, NOTHING, commandPaths)
  }

  // ---------------------------------------------------------------- the loops

  method CommandPathStartsAt(argv: seq<string>, tokenIndex: nat, path: seq<string>) returns (starts: bool)
    ensures starts == PathStartsAt(argv, tokenIndex, path)
  {
    var cursor: nat := tokenIndex;
    for k := 0 to |path|
      invariant PathStartsAt(argv, tokenIndex, path) == PathStartsAt(argv, cursor, path[k..])
    {
      while cursor < |argv| && IsFlag(argv[cursor])
        invariant PathStartsAt(argv, tokenIndex, path) == PathStartsAt(argv, cursor, path[k..])
        decreases |argv| - cursor
      {
        cursor := cursor + if IsAssignment(argv[cursor]) || FlagName(argv[cursor]) in BOOLEAN_FLAGS then 1 else 2;
      }
      if cursor >= |argv| || argv[cursor] != path[k] {
        return false;
      }
      assert path[k..][1..] == path[k + 1..];
      cursor := cursor + 1;
    }
    return true;
  }

  method SomeCommandStartsAt(argv: seq<string>, tokenIndex: nat, commandPaths: seq<seq<string>>) returns (starts: bool)
    ensures starts == StartsCommandAt(argv, tokenIndex, commandPaths)
  {
    for k := 0 to |commandPaths|
      invariant forall j :: 0 <= j < k ==> !PathStartsAt(argv, tokenIndex, commandPaths[j])
    {
      var here := CommandPathStartsAt(argv, tokenIndex, commandPaths[k]);
      if here {
        return true;
      }
    }
    return false;
  }

  method ParseArgs(argv: seq<string>, commandPaths: seq<seq<string>>) returns (parsed: Parsed)
    ensures parsed == Parse(argv, commandPaths)
  {
    parsed := NOTHING;
    var i := 0;
    while i < |argv|
      invariant 0 <= i && Parse(argv, commandPaths) == ParseFrom(argv, i, parsed, commandPaths)
    {
      var token := argv[i];
      if !IsFlag(token) {
        parsed := parsed.(commandPath := parsed.commandPath + [token]);
        i := i + 1;
        continue;
      }
      var assignment := token[2..];
      var equalsIndex := NameLength(assignment);
      assert FlagName(token) == assignment[..equalsIndex];
      if equalsIndex < |assignment| {
        assert AssignedValue(token) == assignment[equalsIndex + 1..];
        var flags := SetFlagValue(parsed.flags, assignment[..equalsIndex], assignment[equalsIndex + 1..]);
        parsed := parsed.(flags := flags);
        i := i + 1;
        continue;
      }
      assert FlagName(token) == assignment;
      if assignment in BOOLEAN_FLAGS {
        parsed := parsed.(flags := parsed.flags[assignment := Present]);
        i := i + 1;
        continue;
      }
      var taken;
      parsed, taken := BareFlag(argv, i, parsed, commandPaths);
      i := i + taken;
    }
  }

  /** A flag with neither a value attached nor a known boolean name: the next token is its value, or it has none. */
  method BareFlag(argv: seq<string>, i: nat, parsed: Parsed, commandPaths: seq<seq<string>>)
      returns (after: Parsed, taken: nat)
    requires i < |argv| && IsFlag(argv[i]) && !IsAssignment(argv[i]) && !IsBooleanFlag(argv[i])
    ensures after == AfterToken(argv, i, parsed, commandPaths) && taken == Taken(argv, i, parsed, commandPaths)
  {
    var flag := argv[i][2..];
    assert FlagName(argv[i]) == flag;
    var nextStarts := SomeCommandStartsAt(argv, i + 1, commandPaths);
    var laterStarts := SomeCommandStartsAt(argv, i + 2, commandPaths);
    if (parsed.commandPath == [] && nextStarts && !laterStarts) || i + 1 >= |argv| || IsFlag(argv[i + 1]) {
      return parsed.(flags := parsed.flags[flag := Present]), 1;
    }
    return parsed.(flags := SetFlagValue(parsed.flags, flag, argv[i + 1])), 2;
  }

  // ---------------------------------------------------------------- tokens that stand for themselves

  /** A plain token, an assignment or a boolean flag, none of which takes anything from the next token. */
  predicate StandsAlone(token: string) {
    !IsFlag(token) || IsAssignment(token) || IsBooleanFlag(token)
  }

  predicate AllStandAlone(argv: seq<string>) {
    forall k :: 0 <= k < |argv| ==> StandsAlone(argv[k])
  }

  function Plain(argv: seq<string>): seq<string> {
    if argv == [] then [] else (if IsFlag(argv[0]) then [] else [argv[0]]) + Plain(argv[1..])
  }

  /** What a token says about a name. */
  function Given(token: string, name: string): Option<FlagValue> {
    if IsAssignment(token) && FlagName(token) == name then Some(Text(AssignedValue(token)))
    else if IsBooleanFlag(token) && FlagName(token) == name then Some(Present)
    else None
  }

  function LastGiven(argv: seq<string>, name: string): Option<FlagValue> {
    if argv == [] then None
    else
      var later := LastGiven(argv[1..], name);
      if later.Some? then later else Given(argv[0], name)
  }

  function LookUp(flags: Flags, name: string): Option<FlagValue> {
    if name in flags then Some(flags[name]) else None
  }

  /** The values assigned to a name, in order. */
  function Values(argv: seq<string>, name: string): seq<string> {
    if argv == [] then []
    else (if IsAssignment(argv[0]) && FlagName(argv[0]) == name then [AssignedValue(argv[0])] else [])
         + Values(argv[1..], name)
  }

  function Joined(values: seq<string>): string
    requires values != []
  {
    if |values| == 1 then values[0]
    else Joined(values[..|values| - 1]) + [REPEATED_FLAG_SEPARATOR] + values[|values| - 1]
  }

  /** What the flags hold of a repeatable name once these values have been assigned to it. */
  function JoinedValues(values: seq<string>): Option<FlagValue> {
    if values == [] then None else Some(Text(Joined(values)))
  }

  lemma {:induction false} PlainTokensFrom(argv: seq<string>, i: nat, parsed: Parsed, commandPaths: seq<seq<string>>)
    requires i <= |argv| && forall k :: i <= k < |argv| ==> StandsAlone(argv[k])
    ensures ParseFrom(argv, i, parsed, commandPaths).commandPath == parsed.commandPath + Plain(argv[i..])
    decreases |argv| - i
  {
    if i < |argv| {
      assert argv[i..][1..] == argv[i + 1..];
      PlainTokensFrom(argv, i + 1, AfterToken(argv, i, parsed, commandPaths), commandPaths);
    }
  }

  lemma {:induction false} LastGivenFrom(argv: seq<string>, i: nat, parsed: Parsed, commandPaths: seq<seq<string>>,
                                         name: string)
    requires i <= |argv| && AllStandAlone(argv) && name !in REPEATABLE_STRING_FLAGS
    ensures var last := LastGiven(argv[i..], name);
            LookUp(ParseFrom(argv, i, parsed, commandPaths).flags, name)
            == if last.Some? then last else LookUp(parsed.flags, name)
    decreases |argv| - i
  {
    if i < |argv| {
      assert argv[i..][1..] == argv[i + 1..];
      LastGivenFrom(argv, i + 1, AfterToken(argv, i, parsed, commandPaths), commandPaths, name);
    }
  }

  lemma TokenJoins(argv: seq<string>, i: nat, parsed: Parsed, commandPaths: seq<seq<string>>, name: string,
                   values: seq<string>)
    requires i < |argv| && StandsAlone(argv[i]) && name in REPEATABLE_STRING_FLAGS
    requires LookUp(parsed.flags, name) == JoinedValues(values)
    ensures LookUp(AfterToken(argv, i, parsed, commandPaths).flags, name)
         == JoinedValues(values + Values([argv[i]], name))
  {
    assert [argv[i]][1..] == [];
    if IsAssignment(argv[i]) && FlagName(argv[i]) == name {
      var value := AssignedValue(argv[i]);
      assert Values([argv[i]], name) == [value] && (values + [value])[..|values|] == values;
    } else {
      assert values + Values([argv[i]], name) == values;
    }
  }

  lemma ValuesFrom(argv: seq<string>, i: nat, name: string)
    requires i < |argv|
    ensures Values(argv[i..], name) == Values([argv[i]], name) + Values(argv[i + 1..], name)
  {
    assert argv[i..][1..] == argv[i + 1..];
    assert [argv[i]][1..] == [];
  }

  lemma {:induction false} ValuesJoinFrom(argv: seq<string>, i: nat, parsed: Parsed, commandPaths: seq<seq<string>>,
                                          name: string, values: seq<string>)
    requires i <= |argv| && AllStandAlone(argv) && name in REPEATABLE_STRING_FLAGS
    requires LookUp(parsed.flags, name) == JoinedValues(values)
    ensures LookUp(ParseFrom(argv, i, parsed, commandPaths).flags, name)
         == JoinedValues(values + Values(argv[i..], name))
    decreases |argv| - i
  {
    if i == |argv| {
      assert values + Values(argv[i..], name) == values;
    } else {
      var next := AfterToken(argv, i, parsed, commandPaths);
      var more := Values([argv[i]], name);
      TokenJoins(argv, i, parsed, commandPaths, name, values);
      ValuesJoinFrom(argv, i + 1, next, commandPaths, name, values + more);
      ValuesFrom(argv, i, name);
      assert values + more + Values(argv[i + 1..], name) == values + (more + Values(argv[i + 1..], name));
    }
  }

  /** However they are mixed: the plain tokens in order, and of each name what was given last, or if repeatable all. */
  lemma PlainTokensAndAssignments(argv: seq<string>, commandPaths: seq<seq<string>>, name: string)
    requires AllStandAlone(argv)
    ensures Parse(argv, commandPaths).commandPath == Plain(argv)
    ensures LookUp(Parse(argv, commandPaths).flags, name)
         == if name in REPEATABLE_STRING_FLAGS then JoinedValues(Values(argv, name)) else LastGiven(argv, name)
  {
    assert argv[0..] == argv;
    PlainTokensFrom(argv, 0, NOTHING, commandPaths);
    if name in REPEATABLE_STRING_FLAGS {
      ValuesJoinFrom(argv, 0, NOTHING, commandPaths, name, []);
      assert [] + Values(argv, name) == Values(argv, name);
    } else {
      LastGivenFrom(argv, 0, NOTHING, commandPaths, name);
    }
  }

  function Pieces(values: seq<string>): seq<string> {
    if values == [] then []
    else Pieces(values[..|values| - 1]) + Split(values[|values| - 1], REPEATED_FLAG_SEPARATOR)
  }

  lemma {:induction false} SplitOfJoined(values: seq<string>)
    requires values != []
    ensures Split(Joined(values), REPEATED_FLAG_SEPARATOR) == Pieces(values)
  {
    if |values| > 1 {
      var most := values[..|values| - 1];
      SplitOfJoined(most);
      SplitJoined(Joined(most), values[|values| - 1], REPEATED_FLAG_SEPARATOR);
    } else {
      assert values[..0] == [];
    }
  }

  lemma {:induction false} PiecesWithout(values: seq<string>)
    requires forall k :: 0 <= k < |values| ==> REPEATED_FLAG_SEPARATOR !in values[k]
    ensures Pieces(values) == values
  {
    if values != [] {
      PiecesWithout(values[..|values| - 1]);
      SplitWithout(values[|values| - 1], REPEATED_FLAG_SEPARATOR);
    }
  }

  /** A repeatable flag reads back as the non-empty pieces of its values; without NUL in them, as the values. */
  lemma RepeatedValuesReadBack(argv: seq<string>, commandPaths: seq<seq<string>>, name: string)
    requires AllStandAlone(argv) && name in REPEATABLE_STRING_FLAGS
    ensures var read := RepeatedStringFlag(Parse(argv, commandPaths).flags, name);
            && read == NonEmpty(Pieces(Values(argv, name)))
            && ((forall k :: 0 <= k < |Values(argv, name)| ==> REPEATED_FLAG_SEPARATOR !in Values(argv, name)[k]) ==>
                  read == NonEmpty(Values(argv, name)))
  {
    PlainTokensAndAssignments(argv, commandPaths, name);
    var values := Values(argv, name);
    if values != [] {
      SplitOfJoined(values);
    }
    if forall k :: 0 <= k < |values| ==> REPEATED_FLAG_SEPARATOR !in values[k] {
      PiecesWithout(values);
    }
  }

  // ---------------------------------------------------------------- a value after its flag, or joined to it

  /** With a command word behind it, parsing looks at nothing but the tokens still to come. */
  lemma {:induction false} OnlyTheRestMatters(argv: seq<string>, i: nat, parsed: Parsed, commandPaths: seq<seq<string>>)
    requires i <= |argv| && parsed.commandPath != []
    ensures ParseFrom(argv, i, parsed, commandPaths) == ParseFrom(argv[i..], 0, parsed, [])
    decreases |argv| - i
  {
    if i < |argv| {
      var rest := argv[i..];
      var n := Taken(argv, i, parsed, commandPaths);
      assert Taken(rest, 0, parsed, []) == n;
      var next := AfterToken(argv, i, parsed, commandPaths);
      assert AfterToken(rest, 0, parsed, []) == next;
      OnlyTheRestMatters(argv, i + n, next, commandPaths);
      OnlyTheRestMatters(rest, n, next, []);
      assert rest[n..] == argv[i + n..];
    }
  }

  /** A flag name that takes a value, and a value it takes from the next token. */
  predicate SeparateValue(name: string, value: string) {
    '=' !in name && name !in BOOLEAN_FLAGS && !IsFlag(value)
  }

  function Flag(name: string): string {
    "--" + name
  }

  lemma FlagTokens(name: string, value: string)
    requires SeparateValue(name, value)
    ensures var token := Flag(name);
            IsFlag(token) && !IsAssignment(token) && !IsBooleanFlag(token) && FlagName(token) == name
    ensures var token := Flag(name) + "=" + value;
            IsAssignment(token) && FlagName(token) == name && AssignedValue(token) == value
  {
    assert Flag(name)[2..] == name && Flag(name)[2..2 + |name|] == name;
    NameLengthIsWhole(name);
    var token := Flag(name) + "=" + value;
    assert token[2..] == name + "=" + value;
    NameLengthOfAssignment(name, value);
    assert token[2..2 + |name|] == name && token[2 + |name| + 1..] == value;
  }

  function Separate(before: seq<string>, name: string, value: string, after: seq<string>): seq<string> {
    before + [Flag(name), value] + after
  }

  function Attached(before: seq<string>, name: string, value: string, after: seq<string>): seq<string> {
    before + [Flag(name) + "=" + value] + after
  }

  lemma SeparateIsJoinedHere(parsed: Parsed, name: string, value: string, after: seq<string>)
    requires parsed.commandPath != [] && SeparateValue(name, value)
    ensures ParseFrom(Separate([], name, value, after), 0, parsed, [])
         == ParseFrom(Attached([], name, value, after), 0, parsed, [])
  {
    FlagTokens(name, value);
    var separate, joined := Separate([], name, value, after), Attached([], name, value, after);
    OnlyTheRestMatters(separate, 2, AfterToken(separate, 0, parsed, []), []);
    OnlyTheRestMatters(joined, 1, AfterToken(joined, 0, parsed, []), []);
    assert separate[2..] == after == joined[1..];
  }

  /** Behind any tokens whatever, once there is a command word. */
  lemma {:induction false} SeparateIsJoinedBehind(before: seq<string>, parsed: Parsed, name: string, value: string,
                                                  after: seq<string>)
    requires parsed.commandPath != [] && SeparateValue(name, value)
    ensures ParseFrom(Separate(before, name, value, after), 0, parsed, [])
         == ParseFrom(Attached(before, name, value, after), 0, parsed, [])
    decreases |before|
  {
    if before == [] {
      SeparateIsJoinedHere(parsed, name, value, after);
    } else {
      var separate, joined := Separate(before, name, value, after), Attached(before, name, value, after);
      WordedTokenAlike(before, parsed, name, value, after);
      var n := Taken(separate, 0, parsed, []);
      var next := AfterToken(separate, 0, parsed, []);
      OnlyTheRestMatters(separate, n, next, []);
      OnlyTheRestMatters(joined, n, next, []);
      assert separate[n..] == Separate(before[n..], name, value, after);
      assert joined[n..] == Attached(before[n..], name, value, after);
      SeparateIsJoinedBehind(before[n..], next, name, value, after);
    }
  }

  lemma WordedTokenAlike(before: seq<string>, parsed: Parsed, name: string, value: string, after: seq<string>)
    requires before != [] && parsed.commandPath != [] && SeparateValue(name, value)
    ensures var separate, joined := Separate(before, name, value, after), Attached(before, name, value, after);
            && Taken(separate, 0, parsed, []) == Taken(joined, 0, parsed, []) <= |before|
            && AfterToken(separate, 0, parsed, []) == AfterToken(joined, 0, parsed, [])
            && AfterToken(separate, 0, parsed, []).commandPath != []
  {
    FlagTokens(name, value);
    var separate, joined := Separate(before, name, value, after), Attached(before, name, value, after);
    assert separate[0] == before[0] == joined[0];
    assert |before| > 1 ==> separate[1] == before[1] == joined[1];
  }

  /** What a token that takes no value from the next one does depends on nothing else. */
  lemma AloneIsAlone(argv: seq<string>, other: seq<string>, i: nat, parsed: Parsed, commandPaths: seq<seq<string>>)
    requires i < |argv| && i < |other| && argv[i] == other[i]
    requires StandsAlone(argv[i])
    ensures Taken(argv, i, parsed, commandPaths) == 1 == Taken(other, i, parsed, commandPaths)
    ensures AfterToken(argv, i, parsed, commandPaths) == AfterToken(other, i, parsed, commandPaths)
  {
  }

  lemma SeparateIsJoinedAfterWord(before: seq<string>, i: nat, parsed: Parsed, name: string, value: string,
                                  after: seq<string>, commandPaths: seq<seq<string>>)
    requires i <= |before| && parsed.commandPath != [] && SeparateValue(name, value)
    ensures ParseFrom(Separate(before, name, value, after), i, parsed, commandPaths)
         == ParseFrom(Attached(before, name, value, after), i, parsed, commandPaths)
  {
    var separate := Separate(before, name, value, after);
    var joined := Attached(before, name, value, after);
    OnlyTheRestMatters(separate, i, parsed, commandPaths);
    OnlyTheRestMatters(joined, i, parsed, commandPaths);
    assert separate[i..] == Separate(before[i..], name, value, after);
    assert joined[i..] == Attached(before[i..], name, value, after);
    SeparateIsJoinedBehind(before[i..], parsed, name, value, after);
  }

  // ---------------------------------------------------------------- looking ahead across the value

  /** Behind the value the two lines are the same, one token apart. */
  lemma {:induction false} SkipsShifted(before: seq<string>, name: string, value: string, after: seq<string>, c: nat)
    requires c > |before|
    ensures SkipFlags(Separate(before, name, value, after), c + 1)
         == SkipFlags(Attached(before, name, value, after), c) + 1
    decreases |before| + |after| + 2 - c
  {
    var separate, joined := Separate(before, name, value, after), Attached(before, name, value, after);
    if c < |joined| {
      assert separate[c + 1] == joined[c];
      if IsFlag(joined[c]) {
        SkipsShifted(before, name, value, after,
                     c + if IsAssignment(joined[c]) || IsBooleanFlag(joined[c]) then 1 else 2);
      }
    }
  }

  /** A scan that starts before the flag does not step into the value if no bare flag stands right before. */
  lemma {:induction false} SkipsAlike(before: seq<string>, name: string, value: string, after: seq<string>, c: nat)
    requires c <= |before| && SeparateValue(name, value) && (before != [] ==> StandsAlone(before[|before| - 1]))
    ensures var s := SkipFlags(Separate(before, name, value, after), c);
            var j := SkipFlags(Attached(before, name, value, after), c);
            (s < |before| && j == s) || (s > |before| + 1 && j == s - 1)
    decreases |before| - c
  {
    var separate, joined := Separate(before, name, value, after), Attached(before, name, value, after);
    FlagTokens(name, value);
    if c == |before| {
      assert separate[c] == Flag(name) && joined[c] == Flag(name) + "=" + value;
      SkipsShifted(before, name, value, after, c + 1);
      SkipsForward(joined, c + 1);
    } else {
      assert separate[c] == before[c] == joined[c];
      if IsFlag(before[c]) {
        SkipsAlike(before, name, value, after,
                   c + if IsAssignment(before[c]) || IsBooleanFlag(before[c]) then 1 else 2);
      }
    }
  }

  lemma {:induction false} SkipsForward(argv: seq<string>, c: nat)
    ensures c <= SkipFlags(argv, c)
    decreases |argv| - c
  {
    if c < |argv| && IsFlag(argv[c]) {
      SkipsForward(argv, c + if IsAssignment(argv[c]) || IsBooleanFlag(argv[c]) then 1 else 2);
    }
  }

  lemma {:induction false} PathShifted(before: seq<string>, name: string, value: string, after: seq<string>, c: nat,
                                       path: seq<string>)
    requires c > |before|
    ensures PathStartsAt(Separate(before, name, value, after), c + 1, path)
         == PathStartsAt(Attached(before, name, value, after), c, path)
    decreases |path|
  {
    if path != [] {
      var separate, joined := Separate(before, name, value, after), Attached(before, name, value, after);
      SkipsShifted(before, name, value, after, c);
      SkipsForward(joined, c);
      var at := SkipFlags(joined, c);
      if at < |joined| {
        assert separate[at + 1] == joined[at];
        PathShifted(before, name, value, after, at + 1, path[1..]);
      }
    }
  }

  lemma {:induction false} PathAlike(before: seq<string>, name: string, value: string, after: seq<string>, c: nat,
                                     path: seq<string>)
    requires c <= |before| && SeparateValue(name, value) && (before != [] ==> StandsAlone(before[|before| - 1]))
    ensures PathStartsAt(Separate(before, name, value, after), c, path)
         == PathStartsAt(Attached(before, name, value, after), c, path)
    decreases |path|
  {
    if path != [] {
      var separate, joined := Separate(before, name, value, after), Attached(before, name, value, after);
      SkipsAlike(before, name, value, after, c);
      var at := SkipFlags(joined, c);
      if at < |before| {
        assert separate[at] == before[at] == joined[at];
        PathAlike(before, name, value, after, at + 1, path[1..]);
      } else if at < |joined| {
        assert separate[at + 1] == joined[at];
        PathShifted(before, name, value, after, at + 1, path[1..]);
      }
    }
  }

  lemma StandsAlike(before: seq<string>, name: string, value: string, after: seq<string>, i: nat,
                    commandPaths: seq<seq<string>>)
    requires i + 2 <= |before| && SeparateValue(name, value) && StandsAlone(before[|before| - 1])
    ensures StandsBeforeCommand(Separate(before, name, value, after), i, commandPaths)
         == StandsBeforeCommand(Attached(before, name, value, after), i, commandPaths)
  {
    forall c: nat, k | c <= |before| && 0 <= k < |commandPaths|
      ensures PathStartsAt(Separate(before, name, value, after), c, commandPaths[k])
           == PathStartsAt(Attached(before, name, value, after), c, commandPaths[k])
    {
      PathAlike(before, name, value, after, c, commandPaths[k]);
    }
  }

  /** What has been read when the parser comes to token `n`. */
  function ParseUpTo(argv: seq<string>, i: nat, n: nat, parsed: Parsed, commandPaths: seq<seq<string>>): Parsed
    decreases |argv| - i
  {
    if i >= n || i >= |argv| then parsed
    else ParseUpTo(argv, i + Taken(argv, i, parsed, commandPaths), n, AfterToken(argv, i, parsed, commandPaths),
                   commandPaths)
  }

  /** Told by the tokens alone: a plain token that no bare flag stands right before is a command word. */
  lemma {:induction false} PlainTokenIsWord(argv: seq<string>, i: nat, k: nat, n: nat, parsed: Parsed,
                                            commandPaths: seq<seq<string>>)
    requires i <= k < n <= |argv| && !IsFlag(argv[k]) && (k > i ==> StandsAlone(argv[k - 1]))
    ensures ParseUpTo(argv, i, n, parsed, commandPaths).commandPath != []
    decreases n - i
  {
    var next := AfterToken(argv, i, parsed, commandPaths);
    var taken := Taken(argv, i, parsed, commandPaths);
    if i < k {
      PlainTokenIsWord(argv, i + taken, k, n, next, commandPaths);
    } else {
      WordsStay(argv, i + taken, n, next, commandPaths);
    }
  }

  lemma {:induction false} WordsStay(argv: seq<string>, i: nat, n: nat, parsed: Parsed, commandPaths: seq<seq<string>>)
    requires parsed.commandPath != []
    ensures ParseUpTo(argv, i, n, parsed, commandPaths).commandPath != []
    decreases |argv| - i
  {
    if i < n && i < |argv| {
      WordsStay(argv, i + Taken(argv, i, parsed, commandPaths), n, AfterToken(argv, i, parsed, commandPaths),
                commandPaths);
    }
  }

  /**
   Up to the first command word, whether a bare flag before a plain token stands before a command is answered alike on
   the two lines.
   */
  predicate AnswersAgree(before: seq<string>, name: string, value: string, after: seq<string>, i: nat, parsed: Parsed,
                         commandPaths: seq<seq<string>>)
    decreases |before| - i
  {
    var separate, joined := Separate(before, name, value, after), Attached(before, name, value, after);
    i >= |before| || parsed.commandPath != [] ||
    (&& (!StandsAlone(before[i]) && i + 1 < |before| && !IsFlag(before[i + 1]) ==>
           StandsBeforeCommand(separate, i, commandPaths) == StandsBeforeCommand(joined, i, commandPaths))
     && AnswersAgree(before, name, value, after, i + Taken(separate, i, parsed, commandPaths),
                     AfterToken(separate, i, parsed, commandPaths), commandPaths))
  }

  lemma OneTokenAlike(before: seq<string>, i: nat, parsed: Parsed, name: string, value: string, after: seq<string>,
                      commandPaths: seq<seq<string>>)
    requires i < |before| && parsed.commandPath == [] && SeparateValue(name, value)
    requires AnswersAgree(before, name, value, after, i, parsed, commandPaths)
    ensures var separate, joined := Separate(before, name, value, after), Attached(before, name, value, after);
            && Taken(separate, i, parsed, commandPaths) == Taken(joined, i, parsed, commandPaths) <= |before| - i
            && AfterToken(separate, i, parsed, commandPaths) == AfterToken(joined, i, parsed, commandPaths)
  {
    var separate, joined := Separate(before, name, value, after), Attached(before, name, value, after);
    FlagTokens(name, value);
    assert separate[i] == before[i] == joined[i];
    if StandsAlone(before[i]) {
      AloneIsAlone(separate, joined, i, parsed, commandPaths);
    } else if i + 1 < |before| {
      assert separate[i + 1] == before[i + 1] == joined[i + 1];
    } else {
      assert separate[i + 1] == Flag(name) && joined[i + 1] == Flag(name) + "=" + value;
    }
  }

  lemma {:induction false} SeparateIsJoinedUpTo(before: seq<string>, i: nat, parsed: Parsed,
        name: string, value: string, after: seq<string>, commandPaths: seq<seq<string>>)
    requires i <= |before| && SeparateValue(name, value)
    requires AnswersAgree(before, name, value, after, i, parsed, commandPaths)
    requires ParseUpTo(Separate(before, name, value, after), i, |before|, parsed, commandPaths).commandPath != []
    ensures ParseFrom(Separate(before, name, value, after), i, parsed, commandPaths)
         == ParseFrom(Attached(before, name, value, after), i, parsed, commandPaths)
    decreases |before| - i
  {
    if parsed.commandPath != [] {
      SeparateIsJoinedAfterWord(before, i, parsed, name, value, after, commandPaths);
    } else {
      OneTokenAlike(before, i, parsed, name, value, after, commandPaths);
      var separate := Separate(before, name, value, after);
      SeparateIsJoinedUpTo(before, i + Taken(separate, i, parsed, commandPaths),
                           AfterToken(separate, i, parsed, commandPaths), name, value, after, commandPaths);
    }
  }

  /** Behind a command word `--name value` parses as `--name=value` whenever those answers agree. */
  lemma SeparateIsJoinedWhereAnswersAgree(before: seq<string>, name: string, value: string, after: seq<string>,
                                          commandPaths: seq<seq<string>>)
    requires SeparateValue(name, value) && AnswersAgree(before, name, value, after, 0, NOTHING, commandPaths)
    requires ParseUpTo(Separate(before, name, value, after), 0, |before|, NOTHING, commandPaths).commandPath != []
    ensures Parse(Separate(before, name, value, after), commandPaths)
         == Parse(Attached(before, name, value, after), commandPaths)
  {
    SeparateIsJoinedUpTo(before, 0, NOTHING, name, value, after, commandPaths);
  }

  lemma {:induction false} AloneAnswersAgree(before: seq<string>, name: string, value: string, after: seq<string>,
        i: nat, parsed: Parsed, commandPaths: seq<seq<string>>)
    requires SeparateValue(name, value) && before != [] && StandsAlone(before[|before| - 1])
    ensures AnswersAgree(before, name, value, after, i, parsed, commandPaths)
    decreases |before| - i
  {
    if i < |before| && parsed.commandPath == [] {
      var separate := Separate(before, name, value, after);
      if i + 1 < |before| {
        StandsAlike(before, name, value, after, i, commandPaths);
      }
      AloneAnswersAgree(before, name, value, after, i + Taken(separate, i, parsed, commandPaths),
                        AfterToken(separate, i, parsed, commandPaths), commandPaths);
    }
  }

  /** So whatever flags stand before that word, unless the token right before is a bare flag. */
  lemma SeparateIsJoined(before: seq<string>, name: string, value: string, after: seq<string>,
                         commandPaths: seq<seq<string>>)
    requires before != [] && SeparateValue(name, value)
    requires ParseUpTo(Separate(before, name, value, after), 0, |before|, NOTHING, commandPaths).commandPath != []
    requires StandsAlone(before[|before| - 1])
    ensures Parse(Separate(before, name, value, after), commandPaths)
         == Parse(Attached(before, name, value, after), commandPaths)
  {
    AloneAnswersAgree(before, name, value, after, 0, NOTHING, commandPaths);
    SeparateIsJoinedWhereAnswersAgree(before, name, value, after, commandPaths);
  }

  /** Before the command word there are only flags that take no value from the next token. */
  predicate CommandComesClear(before: seq<string>) {
    exists k :: 0 <= k < |before| && !IsFlag(before[k])
                && forall j :: 0 <= j < k ==> IsAssignment(before[j]) || IsBooleanFlag(before[j])
  }

  lemma {:induction false} ClearAnswersAgree(before: seq<string>, name: string, value: string, after: seq<string>,
        i: nat, k: nat, parsed: Parsed, commandPaths: seq<seq<string>>)
    requires i <= k < |before| && !IsFlag(before[k])
    requires forall j :: i <= j < k ==> IsAssignment(before[j]) || IsBooleanFlag(before[j])
    ensures AnswersAgree(before, name, value, after, i, parsed, commandPaths)
    decreases k - i
  {
    var separate := Separate(before, name, value, after);
    assert separate[i] == before[i];
    if i < k {
      ClearAnswersAgree(before, name, value, after, i + 1, k, AfterToken(separate, i, parsed, commandPaths),
                        commandPaths);
    }
  }

  /** And after a bare flag too, if no bare flag comes before the command word. */
  lemma SeparateIsJoinedBehindClear(before: seq<string>, name: string, value: string, after: seq<string>,
                                    commandPaths: seq<seq<string>>)
    requires CommandComesClear(before) && SeparateValue(name, value)
    ensures Parse(Separate(before, name, value, after), commandPaths)
         == Parse(Attached(before, name, value, after), commandPaths)
  {
    var k :| 0 <= k < |before| && !IsFlag(before[k])
             && forall j :: 0 <= j < k ==> IsAssignment(before[j]) || IsBooleanFlag(before[j]);
    var separate := Separate(before, name, value, after);
    assert separate[k] == before[k] && (k > 0 ==> separate[k - 1] == before[k - 1]);
    ClearAnswersAgree(before, name, value, after, 0, k, NOTHING, commandPaths);
    PlainTokenIsWord(separate, 0, k, |before|, NOTHING, commandPaths);
    SeparateIsJoinedWhereAnswersAgree(before, name, value, after, commandPaths);
  }

  /** Of `SeparateIsJoined`, with nothing to ask of the parser. */
  lemma SeparateIsJoinedAfterPlainToken(before: seq<string>, k: nat, name: string, value: string, after: seq<string>,
                                        commandPaths: seq<seq<string>>)
    requires k < |before| && !IsFlag(before[k]) && (k > 0 ==> StandsAlone(before[k - 1]))
    requires StandsAlone(before[|before| - 1]) && SeparateValue(name, value)
    ensures Parse(Separate(before, name, value, after), commandPaths)
         == Parse(Attached(before, name, value, after), commandPaths)
  {
    var separate := Separate(before, name, value, after);
    assert separate[k] == before[k] && (k > 0 ==> separate[k - 1] == before[k - 1]);
    PlainTokenIsWord(separate, 0, k, |before|, NOTHING, commandPaths);
    SeparateIsJoined(before, name, value, after, commandPaths);
  }

  lemma SkipsToEnd(argv: seq<string>, a: string, word: string, b: string)
    requires |argv| >= 4 && argv[..3] == [Flag(a), word, Flag(b)] && SeparateValue(a, word) && SeparateValue(b, word)
    ensures SkipFlags(argv, 1) == 1 && argv[1] == word && SkipFlags(argv, 2) == SkipFlags(argv, 4)
  {
    FlagTokens(b, word);
    assert argv[1] == argv[..3][1] && argv[2] == argv[..3][2];
  }

  lemma CommandSeenBehindFlags(argv: seq<string>, a: string, word: string, b: string, n: string, value: string)
    requires argv == [Flag(a), word, Flag(b), Flag(n), value]
    requires SeparateValue(a, word) && SeparateValue(b, value) && SeparateValue(n, value) && word != value
    ensures StandsBeforeCommand(argv, 0, [[word, value]])
  {
    var path := [word, value];
    SkipsToEnd(argv, a, word, b);
    assert argv[4] == value && SkipFlags(argv, 4) == 4;
    assert path[1..] == [value] && [value][1..] == [];
    assert PathStartsAt(argv, 5, []) && PathStartsAt(argv, 2, [value]);
    assert !PathStartsAt(argv, 2, path);
    assert PathStartsAt(argv, 1, path);
    assert [path][0] == path;
  }

  lemma CommandNotSeenBehindFlags(argv: seq<string>, a: string, word: string, b: string, n: string, value: string)
    requires argv == [Flag(a), word, Flag(b), Flag(n) + "=" + value]
    requires SeparateValue(a, word) && SeparateValue(b, value) && SeparateValue(n, value)
    ensures !StandsBeforeCommand(argv, 0, [[word, value]])
  {
    var path := [word, value];
    assert path[1..] == [value];
    SkipsToEnd(argv, a, word, b);
    assert SkipFlags(argv, 4) == 4;
    assert !PathStartsAt(argv, 2, path[1..]);
  }

  lemma {:induction false} FlagsAddNoWords(argv: seq<string>, i: nat, parsed: Parsed, commandPaths: seq<seq<string>>)
    requires forall k :: i <= k < |argv| ==> IsFlag(argv[k])
    ensures ParseFrom(argv, i, parsed, commandPaths).commandPath == parsed.commandPath
    decreases |argv| - i
  {
    if i < |argv| {
      FlagsAddNoWords(argv, i + Taken(argv, i, parsed, commandPaths), AfterToken(argv, i, parsed, commandPaths),
                      commandPaths);
    }
  }

  /**
   With a bare flag before the command word and one right before `--n`, the two can differ although a command word
   has been read: the command `word value` is seen from the first flag only if `--n value` is not joined.
   */
  lemma SeparateDiffersBefore(a: string, word: string, b: string, n: string, value: string)
    requires SeparateValue(a, word) && SeparateValue(b, value) && SeparateValue(n, value) && word != value
    ensures var before, commandPaths := [Flag(a), word, Flag(b)], [[word, value]];
            && ParseUpTo(Separate(before, n, value, []), 0, |before|, NOTHING, commandPaths).commandPath != []
            && Parse(Separate(before, n, value, []), commandPaths) !=
               Parse(Attached(before, n, value, []), commandPaths)
  {
    var before, commandPaths := [Flag(a), word, Flag(b)], [[word, value]];
    var separate := Separate(before, n, value, []);
    var joined := Attached(before, n, value, []);
    assert separate == [Flag(a), word, Flag(b), Flag(n), value];
    assert joined == [Flag(a), word, Flag(b), Flag(n) + "=" + value];
    CommandSeenBehindFlags(separate, a, word, b, n, value);
    FirstFlag(separate, a, commandPaths);
    CommandNotSeenBehindFlags(joined, a, word, b, n, value);
    FirstFlag(joined, a, commandPaths);
    FlagsAddNoWords(joined, 2, Parsed([], map[a := Text(word)]), commandPaths);
    WordAfterFirstFlag(separate, a, 3, commandPaths);
  }

  lemma WordAfterFirstFlag(argv: seq<string>, name: string, n: nat, commandPaths: seq<seq<string>>)
    requires '=' !in name && name !in BOOLEAN_FLAGS && 2 <= n <= |argv| && argv[0] == Flag(name) && !IsFlag(argv[1])
    requires StandsBeforeCommand(argv, 0, commandPaths)
    ensures ParseUpTo(argv, 0, n, NOTHING, commandPaths).commandPath != []
  {
    FlagTokens(name, argv[1]);
    PlainTokenIsWord(argv, 1, 1, n, AfterToken(argv, 0, NOTHING, commandPaths), commandPaths);
  }

  // ---------------------------------------------------------------- a flag before the command

  /** What a bare flag in front of everything does, seen from the result. */
  lemma FirstFlag(argv: seq<string>, name: string, commandPaths: seq<seq<string>>)
    requires '=' !in name && name !in BOOLEAN_FLAGS && |argv| > 1 && argv[0] == Flag(name) && !IsFlag(argv[1])
    ensures StandsBeforeCommand(argv, 0, commandPaths) ==>
              Parse(argv, commandPaths) == ParseFrom(argv, 1, Parsed([], map[name := Present]), commandPaths)
              && Parse(argv, commandPaths).commandPath != [] && Parse(argv, commandPaths).commandPath[0] == argv[1]
    ensures !StandsBeforeCommand(argv, 0, commandPaths) ==>
              Parse(argv, commandPaths) == ParseFrom(argv, 2, Parsed([], map[name := Text(argv[1])]), commandPaths)
  {
    FlagTokens(name, argv[1]);
    if StandsBeforeCommand(argv, 0, commandPaths) {
      var parsed := Parsed([], map[name := Present]);
      assert Parse(argv, commandPaths) == ParseFrom(argv, 1, parsed, commandPaths);
      PathOnlyGrows(argv, 2, AfterToken(argv, 1, parsed, commandPaths), commandPaths);
    }
  }

  lemma {:induction false} PathOnlyGrows(argv: seq<string>, i: nat, parsed: Parsed, commandPaths: seq<seq<string>>)
    ensures parsed.commandPath <= ParseFrom(argv, i, parsed, commandPaths).commandPath
    decreases |argv| - i
  {
    if i < |argv| {
      PathOnlyGrows(argv, i + Taken(argv, i, parsed, commandPaths), AfterToken(argv, i, parsed, commandPaths),
                    commandPaths);
    }
  }

  predicate AllPlain(words: seq<string>) {
    forall k :: 0 <= k < |words| ==> !IsFlag(words[k])
  }

  lemma {:induction false} PathStartsWhereItIs(argv: seq<string>, i: nat, path: seq<string>)
    requires AllPlain(path) && i <= |argv| && argv[i..] == path
    ensures PathStartsAt(argv, i, path)
    decreases |path|
  {
    if path != [] {
      assert argv[i] == path[0];
      assert argv[i + 1..] == argv[i..][1..];
      PathStartsWhereItIs(argv, i + 1, path[1..]);
    }
  }

  lemma {:induction false} PlainIsAll(words: seq<string>)
    requires AllPlain(words)
    ensures Plain(words) == words
  {
    if words != [] {
      PlainIsAll(words[1..]);
    }
  }

  /**
   A bare flag in front of a registered command leaves the command whole if and only if no registered command
   starts at its second word.
   */
  lemma BareFlagBeforeCommand(name: string, command: seq<string>, commandPaths: seq<seq<string>>)
    requires '=' !in name && name !in BOOLEAN_FLAGS
    requires command != [] && AllPlain(command) && command in commandPaths
    ensures var argv := [Flag(name)] + command;
            Parse(argv, commandPaths).commandPath == command <==> !StartsCommandAt(argv, 2, commandPaths)
  {
    var argv := [Flag(name)] + command;
    assert argv[1..] == command && argv[2..] == command[1..];
    PathStartsWhereItIs(argv, 1, command);
    FirstFlag(argv, name, commandPaths);
    PlainIsAll(command);
    PlainIsAll(command[1..]);
    if StandsBeforeCommand(argv, 0, commandPaths) {
      PlainTokensFrom(argv, 1, Parsed([], map[name := Present]), commandPaths);
    } else {
      PlainTokensFrom(argv, 2, Parsed([], map[name := Text(argv[1])]), commandPaths);
    }
  }

  /** A flag with its value in front of a registered command always leaves both as they are. */
  lemma ValueBeforeCommand(name: string, value: string, command: seq<string>, commandPaths: seq<seq<string>>)
    requires SeparateValue(name, value)
    requires command != [] && AllPlain(command) && command in commandPaths
    ensures Parse([Flag(name), value] + command, commandPaths) == Parsed(command, map[name := Text(value)])
  {
    var argv := [Flag(name), value] + command;
    assert argv[2..] == command;
    PathStartsWhereItIs(argv, 2, command);
    FirstFlag(argv, name, commandPaths);
    PlainIsAll(command);
    PlainTokensFrom(argv, 2, Parsed([], map[name := Text(value)]), commandPaths);
    PlainTokensSetNothing(argv, 2, Parsed([], map[name := Text(value)]), commandPaths);
  }

  lemma {:induction false} PlainTokensSetNothing(argv: seq<string>, i: nat, parsed: Parsed,
        commandPaths: seq<seq<string>>)
    requires i <= |argv| && forall k :: i <= k < |argv| ==> !IsFlag(argv[k])
    ensures ParseFrom(argv, i, parsed, commandPaths).flags == parsed.flags
    decreases |argv| - i
  {
    if i < |argv| {
      PlainTokensSetNothing(argv, i + 1, AfterToken(argv, i, parsed, commandPaths), commandPaths);
    }
  }
}
