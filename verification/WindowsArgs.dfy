/**
 Building a Windows command line whose parsing gives the arguments back
 (native/windows-cli-launcher/OrcaCliLauncher.cs).
 */
module WindowsArgs {

  // ---------------------------------------------------------------- how Windows splits a command line

  function Backslashes(n: nat): (r: string) {
    seq(n, _ => '\\')
  }

  predicate Separates(c: char) {
    c == ' ' || c == '\t'
  }

  /**
   The rules of CommandLineToArgvW and of the Microsoft C runtime for the arguments after the program name.
   `pending` backslashes have been read and not yet interpreted: before a quote 2n of them mean n and 2n+1
   mean n and a literal quote, elsewhere they stand for themselves.  Within quotes a doubled quote is one
   literal quote.  `begun` tells an argument that is empty so far from none.
   */
  function Split(s: string, quoted: bool, pending: nat, begun: bool, current: string): seq<string>
    decreases |s|
  {
    if s == "" then
      if begun then [current + Backslashes(pending)] else []
    else if s[0] == '\\' then Split(s[1..], quoted, pending + 1, true, current)
    else if s[0] == '"' then
      var current' := current + Backslashes(pending / 2);
      if pending % 2 == 1 then Split(s[1..], quoted, 0, true, current' + ['"'])
      else if quoted && |s| > 1 && s[1] == '"' then Split(s[2..], quoted, 0, true, current' + ['"'])
      else Split(s[1..], !quoted, 0, true, current')
    else if Separates(s[0]) && !quoted then
      (if begun then [current + Backslashes(pending)] else []) + Split(s[1..], false, 0, false, "")
    else Split(s[1..], quoted, 0, true, current + Backslashes(pending) + [s[0]])
  }

  function Argv(commandLine: string): seq<string> {
    Split(commandLine, false, 0, false, "")
  }

  // ---------------------------------------------------------------- what the launcher builds

  /** System.Char.IsWhiteSpace. */
  predicate IsWhiteSpace(c: char) {
    var u := c as int;
    || 0x09 <= u <= 0x0D || u == 0x20 || u == 0x85 || u == 0xA0 || u == 0x1680 || 0x2000 <= u <= 0x200A
    || u == 0x2028 || u == 0x2029 || u == 0x202F || u == 0x205F || u == 0x3000
  }

  predicate RequiresQuotes(value: string) {
    value == "" || exists i :: 0 <= i < |value| && (value[i] == '"' || IsWhiteSpace(value[i]))
  }

  /** What is appended for `value` and the closing quote, after `count` backslashes held back. */
  function Escape(value: string, count: nat): string
    decreases |value|
  {
    if value == "" then Backslashes(count * 2) + ['"']
    else if value[0] == '\\' then Escape(value[1..], count + 1)
    else if value[0] == '"' then Backslashes(count * 2 + 1) + ['"'] + Escape(value[1..], 0)
    else Backslashes(count) + [value[0]] + Escape(value[1..], 0)
  }

  function Quoted(value: string): string {
    if RequiresQuotes(value) then ['"'] + Escape(value, 0) else value
  }

  function Appended(args: seq<string>): string
    decreases |args|
  {
    if args == [] then "" else [' '] + Quoted(args[0]) + Appended(args[1..])
  }

  /** The twenty-five white space characters of Unicode that fit into one code unit. */
  lemma WhiteSpaceIs(c: char)
    ensures IsWhiteSpace(c) <==>
              c as int in {9, 10, 11, 12, 13, 32, 133, 160, 5760, 8192, 8193, 8194, 8195, 8196, 8197, 8198, 8199, 8200,
                           8201, 8202, 8232, 8233, 8239, 8287, 12288}
  {
  }

  /** A value is written as it is if and only if it is not empty and holds neither a quote nor white space. */
  lemma WrittenAsIsIff(value: string)
    ensures Quoted(value) == value <==>
              value != "" && forall c :: c in value ==> c != '"' && !IsWhiteSpace(c)
  {
    EscapeIsLonger(value, 0);
    if i :| 0 <= i < |value| && (value[i] == '"' || IsWhiteSpace(value[i])) {
      assert value[i] in value;
    }
  }

  lemma {:induction false} EscapeIsLonger(value: string, count: nat)
    ensures |Escape(value, count)| > |value| + count
    decreases |value|
  {
    if value != "" {
      EscapeIsLonger(value[1..], if value[0] == '\\' then count + 1 else 0);
    }
  }

  method QuoteArgument(value: string) returns (r: string)
    ensures r == Quoted(value)
  {
    var requiresQuotes := |value| == 0;
    var index := 0;
    while index < |value| && !requiresQuotes
      invariant index <= |value|
      invariant requiresQuotes ==> RequiresQuotes(value)
      invariant !requiresQuotes ==> |value| > 0
      invariant !requiresQuotes ==> forall i :: 0 <= i < index ==> value[i] != '"' && !IsWhiteSpace(value[i])
    {
      requiresQuotes := value[index] == '"' || IsWhiteSpace(value[index]);
      index := index + 1;
    }
    if !requiresQuotes {
      return value;
    }
    var quoted, backslashCount := ['"'], 0;
    for k := 0 to |value|
      invariant quoted + Escape(value[k..], backslashCount) == ['"'] + Escape(value, 0)
    {
      var character := value[k];
      assert value[k..][0] == character && value[k..][1..] == value[k + 1..];
      if character == '\\' {
        backslashCount := backslashCount + 1;
      } else {
        if character == '"' {
          quoted := quoted + Backslashes(backslashCount * 2 + 1);
          quoted := quoted + ['"'];
        } else {
          quoted := quoted + Backslashes(backslashCount);
          quoted := quoted + [character];
        }
        backslashCount := 0;
      }
    }
    quoted := quoted + Backslashes(backslashCount * 2);
    quoted := quoted + ['"'];
    return quoted;
  }

  method BuildArguments(cliPath: string, args: seq<string>) returns (commandLine: string)
    ensures commandLine == Quoted(cliPath) + Appended(args)
    ensures Argv(commandLine) == [cliPath] + args
  {
    commandLine := QuoteArgument(cliPath);
    for k := 0 to |args|
      invariant commandLine + Appended(args[k..]) == Quoted(cliPath) + Appended(args)
    {
      assert args[k..][0] == args[k] && args[k..][1..] == args[k + 1..];
      commandLine := commandLine + [' '];
      var quoted := QuoteArgument(args[k]);
      commandLine := commandLine + quoted;
    }
    RoundTrip(cliPath, args);
  }

  // ---------------------------------------------------------------- the round trip

  lemma {:induction false} BackslashRun(n: nat, s: string, quoted: bool, pending: nat, current: string)
    ensures Split(Backslashes(n) + s, quoted, pending, true, current) == Split(s, quoted, pending + n, true, current)
    decreases n
  {
    if n == 0 {
      assert Backslashes(0) + s == s;
    } else {
      assert (Backslashes(n) + s)[1..] == Backslashes(n - 1) + s;
      BackslashRun(n - 1, s, quoted, pending + 1, current);
    }
  }

  lemma EscapedQuoteReadsBack(count: nat, tail: string, current: string)
    ensures Split(Backslashes(count * 2 + 1) + (['"'] + tail), true, 0, true, current)
         == Split(tail, true, 0, true, current + Backslashes(count) + ['"'])
  {
    BackslashRun(count * 2 + 1, ['"'] + tail, true, 0, current);
    assert (['"'] + tail)[1..] == tail;
  }

  lemma PlainCharacterReadsBack(c: char, count: nat, tail: string, current: string)
    requires c != '\\' && c != '"'
    ensures Split(Backslashes(count) + ([c] + tail), true, 0, true, current)
         == Split(tail, true, 0, true, current + Backslashes(count) + [c])
  {
    BackslashRun(count, [c] + tail, true, 0, current);
    assert ([c] + tail)[1..] == tail;
  }

  /** An escaped value inside quotes reads back as itself, and its closing quote closes. */
  lemma {:induction false} EscapeReadsBack(value: string, count: nat, rest: string, current: string)
    requires rest == "" || rest[0] == ' '
    ensures Split(Escape(value, count) + rest, true, 0, true, current)
         == Split(rest, false, 0, true, current + Backslashes(count) + value)
    decreases |value|
  {
    if value == "" {
      assert Escape(value, count) + rest == Backslashes(count * 2) + (['"'] + rest);
      BackslashRun(count * 2, ['"'] + rest, true, 0, current);
      assert (['"'] + rest)[1..] == rest;
      assert current + Backslashes(count) + value == current + Backslashes(count);
    } else if value[0] == '\\' {
      EscapeReadsBack(value[1..], count + 1, rest, current);
      assert current + Backslashes(count + 1) + value[1..] == current + Backslashes(count) + value;
    } else if value[0] == '"' {
      EscapedQuoteReadsBack(count, Escape(value[1..], 0) + rest, current);
      assert Escape(value, count) + rest == Backslashes(count * 2 + 1) + (['"'] + (Escape(value[1..], 0) + rest));
      EscapeReadsBack(value[1..], 0, rest, current + Backslashes(count) + ['"']);
      assert current + Backslashes(count) + ['"'] + Backslashes(0) + value[1..] == current + Backslashes(count) + value;
    } else {
      PlainCharacterReadsBack(value[0], count, Escape(value[1..], 0) + rest, current);
      assert Escape(value, count) + rest == Backslashes(count) + ([value[0]] + (Escape(value[1..], 0) + rest));
      EscapeReadsBack(value[1..], 0, rest, current + Backslashes(count) + [value[0]]);
      assert current + Backslashes(count) + [value[0]] + Backslashes(0) + value[1..]
          == current + Backslashes(count) + value;
    }
  }

  /** A value that needs no quotes reads back as itself, trailing backslashes included. */
  lemma {:induction false} PlainReadsBack(value: string, pending: nat, rest: string, current: string)
    requires rest == "" || rest[0] == ' '
    requires forall i :: 0 <= i < |value| ==> value[i] != '"' && !IsWhiteSpace(value[i])
    ensures Split(value + rest, false, pending, true, current)
         == Split(rest, false, 0, true, current + Backslashes(pending) + value)
    decreases |value|
  {
    if value == "" {
      assert value + rest == rest;
      assert current + Backslashes(pending) + value + Backslashes(0) == current + Backslashes(pending);
    } else {
      assert (value + rest)[1..] == value[1..] + rest;
      if value[0] == '\\' {
        PlainReadsBack(value[1..], pending + 1, rest, current);
        assert current + Backslashes(pending + 1) + value[1..] == current + Backslashes(pending) + value;
      } else {
        PlainReadsBack(value[1..], 0, rest, current + Backslashes(pending) + [value[0]]);
        assert current + Backslashes(pending) + [value[0]] + Backslashes(0) + value[1..]
            == current + Backslashes(pending) + value;
      }
    }
  }

  /** One argument, with whatever the launcher appends after it. */
  lemma ArgumentReadsBack(value: string, rest: string)
    requires rest == "" || rest[0] == ' '
    ensures Argv(Quoted(value) + rest) == [value] + (if rest == "" then [] else Argv(rest[1..]))
  {
    if RequiresQuotes(value) {
      assert (['"'] + Escape(value, 0) + rest)[1..] == Escape(value, 0) + rest;
      EscapeReadsBack(value, 0, rest, "");
      assert "" + Backslashes(0) + value == value;
    } else {
      FirstCharacterBegins(value, rest);
      PlainReadsBack(value, 0, rest, "");
      assert "" + Backslashes(0) + value == value;
    }
    assert value + Backslashes(0) == value;
  }

  lemma FirstCharacterBegins(value: string, rest: string)
    requires value != "" && value[0] != '"' && !IsWhiteSpace(value[0])
    ensures Argv(value + rest) == Split(value + rest, false, 0, true, "")
  {
  }

  /** Every CLI path and all arguments come back, empty ones, quotes and trailing backslashes included. */
  lemma {:induction false} RoundTrip(cliPath: string, args: seq<string>)
    ensures Argv(Quoted(cliPath) + Appended(args)) == [cliPath] + args
    decreases |args|
  {
    ArgumentReadsBack(cliPath, Appended(args));
    if args != [] {
      assert Appended(args)[1..] == Quoted(args[0]) + Appended(args[1..]);
      RoundTrip(args[0], args[1..]);
      assert [args[0]] + args[1..] == args;
    } else {
      assert [cliPath] + args == [cliPath];
    }
  }
}
