/** Ranking near misses and suggesting commands (src/cli/command-suggestion.ts). */
module Suggestions {
  import opened EditDistance

  const SUGGESTION_THRESHOLD := 3
  const MAX_SUGGESTIONS := 3
  const DESTRUCTIVE_INTENT_THRESHOLD := 1
  const SPACE: CodeUnit := 0x20

  datatype Scored = Scored(name: Text, distance: int)

  /** `localeCompare` is taken as any total preorder on labels. */
  type Collation = (Text, Text) -> bool

  ghost predicate TotalPreorder(notAfter: Collation) {
    && (forall x, y :: notAfter(x, y) || notAfter(y, x))
    && (forall x, y, z :: notAfter(x, y) && notAfter(y, z) ==> notAfter(x, z))
  }

  predicate Precedes(a: Scored, b: Scored, notAfter: Collation) {
    a.distance < b.distance || (a.distance == b.distance && notAfter(a.name, b.name))
  }

  predicate Qualifies(e: Scored) {
    0 < e.distance <= SUGGESTION_THRESHOLD
  }

  function Qualifying(scored: seq<Scored>): seq<Scored> {
    if scored == [] then []
    else (if Qualifies(scored[0]) then [scored[0]] else []) + Qualifying(scored[1..])
  }

  function Place(e: Scored, sorted: seq<Scored>, notAfter: Collation): seq<Scored>
    decreases |sorted|
  {
    if sorted == [] || Precedes(e, sorted[0], notAfter) then [e] + sorted
    else [sorted[0]] + Place(e, sorted[1..], notAfter)
  }

  /** Stable sort by distance, then collation. */
  function Sort(entries: seq<Scored>, notAfter: Collation): seq<Scored>
    decreases |entries|
  {
    if entries == [] then [] else Place(entries[0], Sort(entries[1..], notAfter), notAfter)
  }

  function Best(scored: seq<Scored>, notAfter: Collation): seq<Scored> {
    var sorted := Sort(Qualifying(scored), notAfter);
    if |sorted| <= MAX_SUGGESTIONS then sorted else sorted[..MAX_SUGGESTIONS]
  }

  function RankByDistance(scored: seq<Scored>, notAfter: Collation): seq<Text> {
    var best := Best(scored, notAfter);
    seq(|best|, i requires 0 <= i < |best| => best[i].name)
  }

  ghost predicate Sorted(s: seq<Scored>, notAfter: Collation) {
    forall i, j :: 0 <= i < j < |s| ==> Precedes(s[i], s[j], notAfter)
  }

  lemma {:induction false} PlaceKeeps(e: Scored, sorted: seq<Scored>, notAfter: Collation)
    requires TotalPreorder(notAfter) && Sorted(sorted, notAfter)
    ensures multiset(Place(e, sorted, notAfter)) == multiset(sorted) + multiset{e}
    ensures Sorted(Place(e, sorted, notAfter), notAfter)
    decreases |sorted|
  {
    if sorted != [] && !Precedes(e, sorted[0], notAfter) {
      PlaceKeeps(e, sorted[1..], notAfter);
      var placed := Place(e, sorted[1..], notAfter);
      assert sorted == [sorted[0]] + sorted[1..];
      FirstPrecedesPlaced(e, sorted, placed, notAfter);
    }
  }

  lemma FirstPrecedesPlaced(e: Scored, sorted: seq<Scored>, placed: seq<Scored>, notAfter: Collation)
    requires TotalPreorder(notAfter) && sorted != [] && Sorted(sorted, notAfter) && !Precedes(e, sorted[0], notAfter)
    requires multiset(placed) == multiset(sorted[1..]) + multiset{e}
    ensures forall j :: 0 <= j < |placed| ==> Precedes(sorted[0], placed[j], notAfter)
  {
    forall j | 0 <= j < |placed| ensures Precedes(sorted[0], placed[j], notAfter) {
      assert placed[j] in multiset(placed);
      if placed[j] != e {
        assert placed[j] in sorted[1..];
      }
    }
  }

  lemma {:induction false} SortSorts(entries: seq<Scored>, notAfter: Collation)
    requires TotalPreorder(notAfter)
    ensures multiset(Sort(entries, notAfter)) == multiset(entries)
    ensures Sorted(Sort(entries, notAfter), notAfter)
    decreases |entries|
  {
    if entries != [] {
      SortSorts(entries[1..], notAfter);
      PlaceKeeps(entries[0], Sort(entries[1..], notAfter), notAfter);
      assert entries == [entries[0]] + entries[1..];
    }
  }

  lemma {:induction false} QualifyingExactly(scored: seq<Scored>, e: Scored)
    ensures multiset(Qualifying(scored))[e] == if Qualifies(e) then multiset(scored)[e] else 0
    decreases |scored|
  {
    if scored != [] {
      QualifyingExactly(scored[1..], e);
      assert scored == [scored[0]] + scored[1..];
    }
  }

  /** `best` are at most three of `all`, in order, and none left out belongs before one that is kept. */
  ghost predicate BestOf(best: seq<Scored>, all: multiset<Scored>, notAfter: Collation) {
    && multiset(best) <= all && Sorted(best, notAfter) && |best| == Min(MAX_SUGGESTIONS, |all|)
    && (forall kept, other | kept in multiset(best) && other in all - multiset(best) :: Precedes(kept, other, notAfter))
  }

  /** The ranking is the best at most three of the candidates at distance one to three. */
  lemma RankingIsBest(scored: seq<Scored>, notAfter: Collation)
    requires TotalPreorder(notAfter)
    ensures BestOf(Best(scored, notAfter), multiset(Qualifying(scored)), notAfter)
    ensures forall e :: e in multiset(Qualifying(scored)) <==> e in scored && Qualifies(e)
  {
    SortSorts(Qualifying(scored), notAfter);
    StartIsBest(Sort(Qualifying(scored), notAfter), notAfter);
    forall e ensures e in multiset(Qualifying(scored)) <==> e in scored && Qualifies(e) {
      QualifyingExactly(scored, e);
      assert e in scored <==> e in multiset(scored);
    }
  }

  lemma StartIsBest(sorted: seq<Scored>, notAfter: Collation)
    requires Sorted(sorted, notAfter)
    ensures BestOf(if |sorted| <= MAX_SUGGESTIONS then sorted else sorted[..MAX_SUGGESTIONS], multiset(sorted),
                   notAfter)
  {
    var n := Min(MAX_SUGGESTIONS, |sorted|);
    SplitSorted(sorted, n, notAfter);
    assert |sorted| <= MAX_SUGGESTIONS ==> sorted[..n] == sorted;
  }

  /** What a sorted sequence starts with precedes what is cut off. */
  lemma SplitSorted(sorted: seq<Scored>, n: nat, notAfter: Collation)
    requires Sorted(sorted, notAfter) && n <= |sorted|
    ensures multiset(sorted[..n]) <= multiset(sorted)
    ensures |multiset(sorted)| == |sorted|
    ensures forall kept, other | kept in multiset(sorted[..n]) && other in multiset(sorted) - multiset(sorted[..n]) ::
              Precedes(kept, other, notAfter)
  {
    var best, rest := sorted[..n], sorted[n..];
    assert sorted == best + rest;
    assert multiset(sorted) == multiset(best) + multiset(rest);
    forall kept, other | kept in multiset(best) && other in multiset(sorted) - multiset(best)
      ensures Precedes(kept, other, notAfter)
    {
      assert other in multiset(rest);
      StartPrecedesRest(sorted, n, kept, other, notAfter);
    }
  }

  lemma StartPrecedesRest(sorted: seq<Scored>, n: nat, kept: Scored, other: Scored, notAfter: Collation)
    requires Sorted(sorted, notAfter) && n <= |sorted| && kept in sorted[..n] && other in sorted[n..]
    ensures Precedes(kept, other, notAfter)
  {
    var i :| 0 <= i < n && sorted[i] == kept;
    var j :| n <= j < |sorted| && sorted[j] == other;
  }

  // ---------------------------------------------------------------- commands

  type CommandPath = seq<Text>
  datatype CommandSpec = CommandSpec(path: CommandPath, aliases: seq<CommandPath>, destructive: bool)

  function SpecPaths(spec: CommandSpec): seq<CommandPath> {
    [spec.path] + spec.aliases
  }

  function FinalToken(path: CommandPath): Text {
    if path == [] then [] else path[|path| - 1]
  }

  function Join(path: CommandPath): Text
    decreases |path|
  {
    if path == [] then [] else if |path| == 1 then path[0] else path[0] + [SPACE] + Join(path[1..])
  }

  /** The part of a registered path that is compared with what was typed. */
  function Shown(path: CommandPath, typed: CommandPath): CommandPath {
    if |typed| == 1 && |path| > 1 then path[..1] else path
  }

  /** `path` of `spec` may be suggested as `name`. */
  predicate Offers(spec: CommandSpec, path: CommandPath, typed: CommandPath, allowDestructive: bool, name: Text) {
    && (spec.destructive ==> allowDestructive)
    && |Shown(path, typed)| == |typed| && name == Join(Shown(path, typed))
  }

  predicate Offered(specs: seq<CommandSpec>, typed: CommandPath, allowDestructive: bool, name: Text) {
    exists i, k :: 0 <= i < |specs| && 0 <= k < |SpecPaths(specs[i])|
                   && Offers(specs[i], SpecPaths(specs[i])[k], typed, allowDestructive, name)
  }

  /** The last word typed is at most one edit away from the last word of some destructive command. */
  predicate MeansDestruction(specs: seq<CommandSpec>, typed: CommandPath) {
    exists i, k :: 0 <= i < |specs| && 0 <= k < |SpecPaths(specs[i])| && specs[i].destructive
                   && Dist(FinalToken(typed), FinalToken(SpecPaths(specs[i])[k])) <= DESTRUCTIVE_INTENT_THRESHOLD
  }

  method DestructiveVerbs(specs: seq<CommandSpec>) returns (verbs: set<Text>)
    ensures forall verb :: verb in verbs <==>
              exists i, k :: 0 <= i < |specs| && 0 <= k < |SpecPaths(specs[i])| && specs[i].destructive
                             && verb == FinalToken(SpecPaths(specs[i])[k])
  {
    verbs := {};
    for n := 0 to |specs|
      invariant forall verb :: verb in verbs <==>
                  exists i, k :: 0 <= i < n && 0 <= k < |SpecPaths(specs[i])| && specs[i].destructive
                                 && verb == FinalToken(SpecPaths(specs[i])[k])
    {
      if specs[n].destructive {
        var paths := SpecPaths(specs[n]);
        verbs := verbs + set k | 0 <= k < |paths| :: FinalToken(paths[k]);
      }
    }
  }

  method IntendsDestruction(inputToken: Text, verbs: set<Text>) returns (r: bool)
    ensures r <==> exists verb | verb in verbs :: Dist(inputToken, verb) <= DESTRUCTIVE_INTENT_THRESHOLD
  {
    var left := verbs;
    while left != {}
      invariant left <= verbs
      invariant forall verb | verb in verbs - left :: Dist(inputToken, verb) > DESTRUCTIVE_INTENT_THRESHOLD
      decreases |left|
    {
      var verb :| verb in left;
      var d := Levenshtein(inputToken, verb);
      if d <= DESTRUCTIVE_INTENT_THRESHOLD {
        return true;
      }
      left := left - {verb};
    }
    return false;
  }

  /** The names scored so far: distinct, with their distances, and exactly those that `upTo` describes. */
  ghost predicate Scores(scored: seq<Scored>, seen: set<Text>, input: Text) {
    && (forall k :: 0 <= k < |scored| ==> scored[k].distance == Dist(input, scored[k].name) && scored[k].name in seen)
    && (forall name | name in seen :: exists k :: 0 <= k < |scored| && scored[k].name == name)
    && (forall j, k :: 0 <= j < k < |scored| ==> scored[j].name != scored[k].name)
  }

  /** One more name, unless it has been scored already. */
  method Score(name: Text, input: Text, seen: set<Text>, scored: seq<Scored>)
    returns (seen': set<Text>, scored': seq<Scored>)
    requires Scores(scored, seen, input)
    ensures Scores(scored', seen', input) && seen' == seen + {name}
  {
    if name in seen {
      return seen, scored;
    }
    var d := Levenshtein(input, name);
    seen', scored' := seen + {name}, scored + [Scored(name, d)];
    assert scored'[|scored|].name == name;
    forall other | other in seen ensures exists k :: 0 <= k < |scored'| && scored'[k].name == other {
      var k :| 0 <= k < |scored| && scored[k].name == other;
      assert scored'[k].name == other;
    }
  }

  /** The names that one spec offers. */
  method ScoreSpec(spec: CommandSpec, typed: CommandPath, allowDestructive: bool, seen: set<Text>, scored: seq<Scored>)
    returns (seen': set<Text>, scored': seq<Scored>)
    requires Scores(scored, seen, Join(typed))
    ensures Scores(scored', seen', Join(typed))
    ensures forall name :: name in seen' <==>
              name in seen || exists k :: 0 <= k < |SpecPaths(spec)|
                                          && Offers(spec, SpecPaths(spec)[k], typed, allowDestructive, name)
  {
    seen', scored' := seen, scored;
    if spec.destructive && !allowDestructive {
      return;
    }
    var paths := SpecPaths(spec);
    for n := 0 to |paths|
      invariant Scores(scored', seen', Join(typed))
      invariant forall name :: name in seen' <==>
                  name in seen || exists k :: 0 <= k < n && Offers(spec, paths[k], typed, allowDestructive, name)
    {
      var candidate := Shown(paths[n], typed);
      if |candidate| == |typed| {
        seen', scored' := Score(Join(candidate), Join(typed), seen', scored');
      }
    }
  }

  /** The paths of a spec are its own and its aliases. */
  lemma PathsOfSpec(spec: CommandSpec, path: CommandPath)
    ensures (exists k :: 0 <= k < |SpecPaths(spec)| && SpecPaths(spec)[k] == path) <==>
              path == spec.path || path in spec.aliases
  {
    assert SpecPaths(spec)[0] == spec.path;
    if k :| 0 <= k < |spec.aliases| && spec.aliases[k] == path {
      assert SpecPaths(spec)[k + 1] == path;
    }
  }

  /** A single word is compared with first words, anything longer with whole paths of the same length. */
  lemma OffersIff(spec: CommandSpec, path: CommandPath, typed: CommandPath, allowDestructive: bool, name: Text)
    ensures Offers(spec, path, typed, allowDestructive, name) <==>
              && (spec.destructive ==> allowDestructive)
              && (if |typed| == 1 then |path| >= 1 && name == path[0] else |path| == |typed| && name == Join(path))
  {
    if |typed| == 1 && |path| > 1 {
      assert path[..1] == [path[0]];
    }
  }

  /** Words are joined by single spaces. */
  lemma {:induction false} JoinSpaces(first: CommandPath, second: CommandPath)
    ensures Join([]) == [] && (|first| == 1 ==> Join(first) == first[0])
    ensures first != [] && second != [] ==> Join(first + second) == Join(first) + [SPACE] + Join(second)
    decreases |first|
  {
    if |first| > 1 {
      JoinSpaces(first[1..], second);
      assert (first + second)[1..] == first[1..] + second;
    } else if |first| == 1 {
      assert (first + second)[1..] == second;
    }
  }

  /** The last word, if there is one. */
  lemma FinalIsLast(words: CommandPath, last: Text)
    ensures FinalToken(words + [last]) == last && FinalToken([]) == []
  {
  }

  /** Some command that does not destroy goes by that name. */
  predicate OfferedHarmlessly(specs: seq<CommandSpec>, typed: CommandPath, name: Text) {
    exists i, k :: 0 <= i < |specs| && 0 <= k < |SpecPaths(specs[i])| && !specs[i].destructive
                   && Offers(specs[i], SpecPaths(specs[i])[k], typed, false, name)
  }

  /** Without destructive intent every suggestion comes from some command that is not destructive. */
  lemma SuggestionsAreHarmless(specs: seq<CommandSpec>, typed: CommandPath, scored: seq<Scored>, notAfter: Collation,
                               name: Text)
    requires TotalPreorder(notAfter) && !MeansDestruction(specs, typed)
    requires forall k :: 0 <= k < |scored| ==> Offered(specs, typed, false, scored[k].name)
    requires name in RankByDistance(scored, notAfter)
    ensures OfferedHarmlessly(specs, typed, name)
  {
    var best := Best(scored, notAfter);
    var i :| 0 <= i < |best| && best[i].name == name;
    RankingIsBest(scored, notAfter);
    assert best[i] in multiset(best);
    assert best[i] in multiset(Qualifying(scored));
  }

  /** Names in order of their distance from what was typed, those at one distance in collation order. */
  predicate Before(input: Text, a: Text, b: Text, notAfter: Collation) {
    Dist(input, a) < Dist(input, b) || (Dist(input, a) == Dist(input, b) && notAfter(a, b))
  }

  /** `names` are, in order, the best at most three of the names on offer that are one to three edits away. */
  ghost predicate BestNames(names: seq<Text>, input: Text, offered: set<Text>, notAfter: Collation) {
    && |names| <= 3
    && (forall i :: 0 <= i < |names| ==> names[i] in offered && 1 <= Dist(input, names[i]) <= 3)
    && (forall i, j :: 0 <= i < j < |names| ==> names[i] != names[j] && Before(input, names[i], names[j], notAfter))
    && (forall name :: name in offered && 1 <= Dist(input, name) <= 3 && name !in names ==>
          |names| == 3 && forall i :: 0 <= i < |names| ==> Before(input, names[i], name, notAfter))
  }

  lemma RankedAreBest(scored: seq<Scored>, input: Text, offered: set<Text>, notAfter: Collation)
    requires TotalPreorder(notAfter) && Scores(scored, offered, input)
    ensures BestNames(RankByDistance(scored, notAfter), input, offered, notAfter)
  {
    var names := RankByDistance(scored, notAfter);
    RankedQualify(scored, offered, input, notAfter);
    RankedInOrder(scored, offered, input, notAfter);
    forall name | name in offered && 1 <= Dist(input, name) <= 3 && name !in names
      ensures |names| == 3 && forall i :: 0 <= i < |names| ==> Before(input, names[i], name, notAfter)
    {
      LeftOutIsBehind(scored, offered, input, notAfter, name);
    }
  }

  lemma RankedQualify(scored: seq<Scored>, offered: set<Text>, input: Text, notAfter: Collation)
    requires TotalPreorder(notAfter) && Scores(scored, offered, input)
    ensures var names := RankByDistance(scored, notAfter);
            |names| <= 3 && forall i :: 0 <= i < |names| ==> names[i] in offered && 1 <= Dist(input, names[i]) <= 3
  {
    var best, names := Best(scored, notAfter), RankByDistance(scored, notAfter);
    RankingIsBest(scored, notAfter);
    forall i | 0 <= i < |names|
      ensures names[i] in offered && 1 <= Dist(input, names[i]) <= 3
    {
      assert best[i] in multiset(best) && best[i] in multiset(Qualifying(scored));
    }
  }

  lemma RankedInOrder(scored: seq<Scored>, offered: set<Text>, input: Text, notAfter: Collation)
    requires TotalPreorder(notAfter) && Scores(scored, offered, input)
    ensures var names := RankByDistance(scored, notAfter);
            forall i, j :: 0 <= i < j < |names| ==>
              names[i] != names[j] && Before(input, names[i], names[j], notAfter)
  {
    var best, names := Best(scored, notAfter), RankByDistance(scored, notAfter);
    RankingIsBest(scored, notAfter);
    forall i, j | 0 <= i < j < |names|
      ensures names[i] != names[j] && Before(input, names[i], names[j], notAfter)
    {
      assert best[i] in multiset(best) && best[j] in multiset(best) && Precedes(best[i], best[j], notAfter);
      RankedApart(scored, offered, input, notAfter, i, j);
    }
  }

  /** A name is kept once. */
  lemma RankedApart(scored: seq<Scored>, offered: set<Text>, input: Text, notAfter: Collation, i: nat, j: nat)
    requires TotalPreorder(notAfter) && Scores(scored, offered, input) && i < j < |Best(scored, notAfter)|
    ensures Best(scored, notAfter)[i].name != Best(scored, notAfter)[j].name
  {
    var best := Best(scored, notAfter);
    RankingIsBest(scored, notAfter);
    var e, f := best[i], best[j];
    assert e in multiset(best) && f in multiset(best);
    if e == f {
      CountsTwice(best, i, j);
      QualifyingExactly(scored, e);
      OnceScored(scored, offered, input, e);
    }
  }

  lemma CountsTwice(s: seq<Scored>, i: nat, j: nat)
    requires i < j < |s| && s[i] == s[j]
    ensures multiset(s)[s[i]] >= 2
  {
    var left, right := s[..j], s[j..];
    assert s == left + right && left[i] == s[i] == right[0];
    assert multiset(s) == multiset(left) + multiset(right);
    assert s[i] in multiset(left) && s[i] in multiset(right);
  }

  lemma {:induction false} OnceScored(scored: seq<Scored>, offered: set<Text>, input: Text, e: Scored)
    requires Scores(scored, offered, input)
    ensures multiset(scored)[e] <= 1
  {
    if k :| 0 <= k < |scored| && scored[k] == e {
      var rest := scored[..k] + scored[k + 1..];
      assert scored == scored[..k] + [e] + scored[k + 1..];
      assert multiset(scored) == multiset(rest) + multiset{e};
      assert e !in rest;
    }
  }

  lemma LeftOutIsBehind(scored: seq<Scored>, offered: set<Text>, input: Text, notAfter: Collation, name: Text)
    requires TotalPreorder(notAfter) && Scores(scored, offered, input)
    requires name in offered && 1 <= Dist(input, name) <= 3 && name !in RankByDistance(scored, notAfter)
    ensures |Best(scored, notAfter)| == 3
    ensures forall i :: 0 <= i < |Best(scored, notAfter)| ==>
              Before(input, RankByDistance(scored, notAfter)[i], name, notAfter)
  {
    var best, names := Best(scored, notAfter), RankByDistance(scored, notAfter);
    var all := multiset(Qualifying(scored));
    RankingIsBest(scored, notAfter);
    var k :| 0 <= k < |scored| && scored[k].name == name;
    var e := scored[k];
    assert e in scored && e in all;
    forall i | 0 <= i < |best|
      ensures best[i] != e
    {
      assert names[i] == best[i].name && names[i] in names;
    }
    assert e in all - multiset(best);
    assert |all| == |multiset(best)| + |all - multiset(best)| && |multiset(best)| == |best|;
    forall i | 0 <= i < |best|
      ensures Before(input, names[i], name, notAfter)
    {
      assert best[i] in multiset(best);
      assert Precedes(best[i], e, notAfter);
    }
  }

  /**
   The suggestions are the best at most three of exactly the names on offer, in order of their edit distance from what
   was typed; unless destruction is meant, each of them belongs to some command that does not destroy.
   */
  method SuggestCommands(specs: seq<CommandSpec>, typed: CommandPath, notAfter: Collation)
    returns (names: seq<Text>, ghost scored: seq<Scored>)
    ensures names == RankByDistance(scored, notAfter)
    ensures TotalPreorder(notAfter) ==>
              exists offered: set<Text> ::
                && (forall name :: name in offered <==> Offered(specs, typed, MeansDestruction(specs, typed), name))
                && BestNames(names, Join(typed), offered, notAfter)
    ensures forall k :: 0 <= k < |scored| ==> scored[k].distance == Dist(Join(typed), scored[k].name)
    ensures forall j, k :: 0 <= j < k < |scored| ==> scored[j].name != scored[k].name
    ensures forall name :: (exists k :: 0 <= k < |scored| && scored[k].name == name)
                           <==> Offered(specs, typed, MeansDestruction(specs, typed), name)
    ensures TotalPreorder(notAfter) && !MeansDestruction(specs, typed) ==>
              forall name | name in names :: OfferedHarmlessly(specs, typed, name)
  {
    var verbs := DestructiveVerbs(specs);
    var allowDestructive := IntendsDestruction(FinalToken(typed), verbs);
    IntentByVerbs(specs, typed, verbs);
    var seen, list: seq<Scored> := {}, [];
    for n := 0 to |specs|
      invariant Scores(list, seen, Join(typed))
      invariant forall name :: name in seen <==> Offered(specs[..n], typed, allowDestructive, name)
    {
      seen, list := ScoreSpec(specs[n], typed, allowDestructive, seen, list);
      forall name ensures name in seen <==> Offered(specs[..n + 1], typed, allowDestructive, name) {
        OfferedOneMore(specs, n, typed, allowDestructive, name);
      }
    }
    assert specs[..|specs|] == specs;
    scored := list;
    names := RankByDistance(list, notAfter);
    if TotalPreorder(notAfter) {
      RankedAreBest(list, Join(typed), seen, notAfter);
    }
    if TotalPreorder(notAfter) && !MeansDestruction(specs, typed) {
      forall name | name in names ensures OfferedHarmlessly(specs, typed, name) {
        SuggestionsAreHarmless(specs, typed, list, notAfter, name);
      }
    }
  }

  lemma IntentByVerbs(specs: seq<CommandSpec>, typed: CommandPath, verbs: set<Text>)
    requires forall verb :: verb in verbs <==>
               exists i, k :: 0 <= i < |specs| && 0 <= k < |SpecPaths(specs[i])| && specs[i].destructive
                              && verb == FinalToken(SpecPaths(specs[i])[k])
    ensures MeansDestruction(specs, typed) <==>
            exists verb | verb in verbs :: Dist(FinalToken(typed), verb) <= DESTRUCTIVE_INTENT_THRESHOLD
  {
    if MeansDestruction(specs, typed) {
      var i, k :| 0 <= i < |specs| && 0 <= k < |SpecPaths(specs[i])| && specs[i].destructive
                  && Dist(FinalToken(typed), FinalToken(SpecPaths(specs[i])[k])) <= DESTRUCTIVE_INTENT_THRESHOLD;
      assert FinalToken(SpecPaths(specs[i])[k]) in verbs;
    }
  }

  lemma OfferedOneMore(specs: seq<CommandSpec>, n: nat, typed: CommandPath, allowDestructive: bool, name: Text)
    requires n < |specs|
    ensures Offered(specs[..n + 1], typed, allowDestructive, name) <==>
            Offered(specs[..n], typed, allowDestructive, name)
            || exists k :: 0 <= k < |SpecPaths(specs[n])|
                           && Offers(specs[n], SpecPaths(specs[n])[k], typed, allowDestructive, name)
  {
    var longer, shorter := specs[..n + 1], specs[..n];
    if Offered(shorter, typed, allowDestructive, name) {
      var i, k :| 0 <= i < |shorter| && 0 <= k < |SpecPaths(shorter[i])|
                  && Offers(shorter[i], SpecPaths(shorter[i])[k], typed, allowDestructive, name);
      assert longer[i] == shorter[i];
    } else if k :| 0 <= k < |SpecPaths(specs[n])|
                   && Offers(specs[n], SpecPaths(specs[n])[k], typed, allowDestructive, name) {
      assert longer[n] == specs[n];
    }
  }
}
