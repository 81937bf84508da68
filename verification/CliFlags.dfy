/** The map of parsed flags and its readers (src/cli/flags.ts). */
module CliFlags {
  import opened Wrappers

  /** A flag's text, or the `true` of a flag given without one. */
  datatype FlagValue = Text(text: string) | Present

  type Flags = map<string, FlagValue>

  const REPEATED_FLAG_SEPARATOR := '\0'

  function OptionalStringFlag(flags: Flags, name: string): Option<string> {
    if name in flags && flags[name].Text? && flags[name].text != "" then Some(flags[name].text) else None
  }

  function Split(s: string, separator: char): (parts: seq<string>)
    ensures |parts| > 0
  {
    if s == "" then [""]
    else
      var rest := Split(s[1..], separator);
      if s[0] == separator then [""] + rest else Longer(s[0], rest)
  }

  /** The first part gains a character in front. */
  function Longer(c: char, parts: seq<string>): (longer: seq<string>)
    requires |parts| > 0
    ensures |longer| == |parts|
  {
    [[c] + parts[0]] + parts[1..]
  }

  function NonEmpty(parts: seq<string>): seq<string> {
    if parts == [] then [] else (if parts[0] == "" then [] else [parts[0]]) + NonEmpty(parts[1..])
  }

  function RepeatedStringFlag(flags: Flags, name: string): seq<string> {
    var value := OptionalStringFlag(flags, name);
    if value.None? then [] else NonEmpty(Split(value.value, REPEATED_FLAG_SEPARATOR))
  }

  lemma LongerAppend(c: char, parts: seq<string>, more: seq<string>)
    requires |parts| > 0
    ensures Longer(c, parts + more) == Longer(c, parts) + more
  {
    assert (parts + more)[0] == parts[0] && (parts + more)[1..] == parts[1..] + more;
  }

  lemma {:induction false} SplitJoined(a: string, b: string, separator: char)
    ensures Split(a + [separator] + b, separator) == Split(a, separator) + Split(b, separator)
  {
    var s := a + [separator] + b;
    if a == "" {
      assert s[1..] == b;
    } else {
      assert s[0] == a[0] && s[1..] == a[1..] + [separator] + b;
      SplitJoined(a[1..], b, separator);
      var rest, more := Split(a[1..], separator), Split(b, separator);
      if a[0] == separator {
        assert [""] + (rest + more) == [""] + rest + more;
      } else {
        LongerAppend(a[0], rest, more);
      }
    }
  }

  lemma {:induction false} SplitWithout(s: string, separator: char)
    requires separator !in s
    ensures Split(s, separator) == [s]
  {
    if s != "" {
      SplitWithout(s[1..], separator);
      assert [s[0]] + s[1..] == s;
    }
  }
}
