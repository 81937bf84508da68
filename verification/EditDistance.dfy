/** The edit distance behind command suggestions (src/cli/command-suggestion.ts). */
module EditDistance {

  /** A UTF-16 code unit, which is what the code compares. */
  type CodeUnit = x: int | 0 <= x < 0x1_0000
  type Text = seq<CodeUnit>

  function Min(x: int, y: int): int {
    if x <= y then x else y
  }

  function Init(s: Text): Text
    requires s != []
  {
    s[..|s| - 1]
  }

  function Last(s: Text): CodeUnit
    requires s != []
  {
    s[|s| - 1]
  }

  function Cost(x: CodeUnit, y: CodeUnit): int {
    if x == y then 0 else 1
  }

  /** The recurrence that the rows of the table fill in. */
  function Dist(a: Text, b: Text): int
    decreases |a| + |b|
  {
    if a == [] then |b|
    else if b == [] then |a|
    else Min(Min(Dist(Init(a), b) + 1, Dist(a, Init(b)) + 1), Dist(Init(a), Init(b)) + Cost(Last(a), Last(b)))
  }

  method Levenshtein(a: Text, b: Text) returns (d: int)
    ensures d == Dist(a, b)
  {
    var m, n := |a|, |b|;
    if m == 0 {
      return n;
    }
    if n == 0 {
      return m;
    }
    var prev := new int[n + 1](index => index);
    var curr := new int[n + 1](_ => 0);
    assert a[..0] == [];
    var i := 1;
    while i <= m
      invariant 1 <= i <= m + 1 && prev != curr && prev.Length == curr.Length == n + 1
      invariant fresh(prev) && fresh(curr)
      invariant forall j :: 0 <= j <= n ==> prev[j] == Dist(a[..i - 1], b[..j])
    {
      FillRow(a, b, i, prev, curr);
      prev, curr := curr, prev;
      i := i + 1;
    }
    assert a[..m] == a && b[..n] == b;
    return prev[n];
  }

  method FillRow(a: Text, b: Text, i: nat, prev: array<int>, curr: array<int>)
    requires 1 <= i <= |a| && b != [] && prev != curr && prev.Length == curr.Length == |b| + 1
    requires forall j :: 0 <= j <= |b| ==> prev[j] == Dist(a[..i - 1], b[..j])
    modifies curr
    ensures forall j :: 0 <= j <= |b| ==> curr[j] == Dist(a[..i], b[..j])
  {
    curr[0] := i;
    var j := 1;
    while j <= |b|
      invariant 1 <= j <= |b| + 1
      invariant forall k :: 0 <= k < j ==> curr[k] == Dist(a[..i], b[..k])
    {
      var cost := if a[i - 1] == b[j - 1] then 0 else 1;
      curr[j] := Min(Min(prev[j] + 1, curr[j - 1] + 1), prev[j - 1] + cost);
      TableEntry(a, b, i, j);
      j := j + 1;
    }
  }

  lemma TableEntry(a: Text, b: Text, i: nat, j: nat)
    requires 1 <= i <= |a| && 1 <= j <= |b|
    ensures Dist(a[..i], b[..j])
         == Min(Min(Dist(a[..i - 1], b[..j]) + 1, Dist(a[..i], b[..j - 1]) + 1),
                Dist(a[..i - 1], b[..j - 1]) + Cost(a[i - 1], b[j - 1]))
  {
    PrefixEnds(a, i);
    PrefixEnds(b, j);
  }

  lemma PrefixEnds(s: Text, i: nat)
    requires 1 <= i <= |s|
    ensures Init(s[..i]) == s[..i - 1] && Last(s[..i]) == s[i - 1]
  {
  }

  // ---------------------------------------------------------------- a metric

  lemma {:induction false} Symmetric(a: Text, b: Text)
    ensures Dist(a, b) == Dist(b, a)
    decreases |a| + |b|
  {
    if a != [] && b != [] {
      Symmetric(Init(a), b);
      Symmetric(a, Init(b));
      Symmetric(Init(a), Init(b));
    }
  }

  lemma {:induction false} LengthBounds(a: Text, b: Text)
    ensures |a| - |b| <= Dist(a, b) && |b| - |a| <= Dist(a, b) && Dist(a, b) <= |a| + |b|
    decreases |a| + |b|
  {
    if a != [] && b != [] {
      LengthBounds(Init(a), b);
      LengthBounds(a, Init(b));
      LengthBounds(Init(a), Init(b));
    }
  }

  lemma {:induction false} ZeroOnlyOnEquals(a: Text, b: Text)
    ensures Dist(a, b) == 0 <==> a == b
    decreases |a| + |b|
  {
    if a != [] && b != [] {
      LengthBounds(Init(a), b);
      LengthBounds(a, Init(b));
      LengthBounds(Init(a), Init(b));
      ZeroOnlyOnEquals(Init(a), Init(b));
      EqualByInit(a, b);
    }
  }

  lemma EqualByInit(a: Text, b: Text)
    requires a != [] && b != []
    ensures a == b <==> Init(a) == Init(b) && Last(a) == Last(b)
  {
    assert a == Init(a) + [Last(a)] && b == Init(b) + [Last(b)];
  }

  lemma {:induction false} Triangle(a: Text, b: Text, c: Text)
    ensures Dist(a, c) <= Dist(a, b) + Dist(b, c)
    decreases |a| + |b| + |c|
  {
    LengthBounds(a, b);
    LengthBounds(b, c);
    LengthBounds(a, c);
    if a != [] && b != [] && c != [] {
      if Dist(a, b) == Dist(Init(a), b) + 1 {
        Triangle(Init(a), b, c);
      } else if Dist(b, c) == Dist(b, Init(c)) + 1 {
        Triangle(a, b, Init(c));
      } else if Dist(a, b) == Dist(a, Init(b)) + 1 {
        if Dist(b, c) == Dist(Init(b), c) + 1 {
          Triangle(a, Init(b), c);
        } else {
          Triangle(a, Init(b), Init(c));
        }
      } else {
        if Dist(b, c) == Dist(Init(b), c) + 1 {
          Triangle(Init(a), Init(b), c);
        } else {
          Triangle(Init(a), Init(b), Init(c));
        }
      }
    }
  }

  // ---------------------------------------------------------------- the least number of edits

  datatype Edit = Insert(at: nat, c: CodeUnit) | Delete(at: nat) | Substitute(at: nat, c: CodeUnit)

  predicate Fits(e: Edit, s: Text) {
    if e.Insert? then e.at <= |s| else e.at < |s|
  }

  function ApplyEdit(e: Edit, s: Text): Text
    requires Fits(e, s)
  {
    match e
    case Insert(at, c) => s[..at] + [c] + s[at..]
    case Delete(at) => s[..at] + s[at + 1..]
    case Substitute(at, c) => s[..at] + [c] + s[at + 1..]
  }

  /** The edits, applied in order, turn `a` into `b`. */
  predicate Turns(script: seq<Edit>, a: Text, b: Text)
    decreases |script|
  {
    if script == [] then a == b
    else Fits(script[0], a) && Turns(script[1..], ApplyEdit(script[0], a), b)
  }

  lemma {:induction false} CommonSuffix(a: Text, b: Text, suffix: Text)
    ensures Dist(a + suffix, b + suffix) <= Dist(a, b)
    decreases |suffix|
  {
    if suffix == [] {
      assert a + suffix == a && b + suffix == b;
    } else {
      CommonSuffix(a, b, Init(suffix));
      assert Init(a + suffix) == a + Init(suffix) && Init(b + suffix) == b + Init(suffix);
    }
  }

  /** One edit moves a text by at most one. */
  lemma OneEdit(e: Edit, s: Text)
    requires Fits(e, s)
    ensures Dist(s, ApplyEdit(e, s)) <= 1
  {
    var before := s[..e.at];
    ZeroOnlyOnEquals(before, before);
    var rest := if e.Insert? then s[e.at..] else s[e.at + 1..];
    var left := if e.Insert? then before else before + [s[e.at]];
    var right := if e.Delete? then before else before + [e.c];
    assert s == left + rest && ApplyEdit(e, s) == right + rest;
    assert left != [] ==> Init(before + [Last(left)]) == before;
    assert right != [] ==> Init(before + [Last(right)]) == before;
    assert Dist(left, right) <= 1;
    CommonSuffix(left, right, rest);
  }

  lemma {:induction false} NoShorterScript(script: seq<Edit>, a: Text, b: Text)
    requires Turns(script, a, b)
    ensures Dist(a, b) <= |script|
    decreases |script|
  {
    if script == [] {
      ZeroOnlyOnEquals(a, b);
    } else {
      OneEdit(script[0], a);
      NoShorterScript(script[1..], ApplyEdit(script[0], a), b);
      Triangle(a, ApplyEdit(script[0], a), b);
    }
  }

  lemma {:induction false} TurnsThen(script: seq<Edit>, a: Text, b: Text, e: Edit)
    requires Turns(script, a, b) && Fits(e, b)
    ensures Turns(script + [e], a, ApplyEdit(e, b))
    decreases |script|
  {
    var all := script + [e];
    if script == [] {
      assert all[1..] == [];
    } else {
      assert all[0] == script[0] && all[1..] == script[1..] + [e];
      TurnsThen(script[1..], ApplyEdit(script[0], a), b, e);
    }
  }

  lemma {:induction false} TurnsBefore(script: seq<Edit>, a: Text, b: Text, x: CodeUnit)
    requires Turns(script, a, b)
    ensures Turns(script, a + [x], b + [x])
    decreases |script|
  {
    if script != [] {
      assert ApplyEdit(script[0], a + [x]) == ApplyEdit(script[0], a) + [x];
      TurnsBefore(script[1..], ApplyEdit(script[0], a), b, x);
    }
  }

  lemma InitThenLast(s: Text)
    requires s != []
    ensures Init(s) + [Last(s)] == s
  {
  }

  lemma DeleteLast(script: seq<Edit>, a: Text, b: Text)
    requires a != [] && Turns(script, Init(a), b)
    ensures Turns([Delete(|a| - 1)] + script, a, b)
  {
    var e := Delete(|a| - 1);
    assert ApplyEdit(e, a) == Init(a);
    assert ([e] + script)[1..] == script;
  }

  lemma InsertLast(script: seq<Edit>, a: Text, b: Text)
    requires b != [] && Turns(script, a, Init(b))
    ensures Turns(script + [Insert(|b| - 1, Last(b))], a, b)
  {
    TurnsThen(script, a, Init(b), Insert(|b| - 1, Last(b)));
    assert ApplyEdit(Insert(|b| - 1, Last(b)), Init(b)) == b;
  }

  lemma KeepLast(script: seq<Edit>, a: Text, b: Text)
    requires a != [] && b != [] && Last(a) == Last(b) && Turns(script, Init(a), Init(b))
    ensures Turns(script, a, b)
  {
    TurnsBefore(script, Init(a), Init(b), Last(a));
    InitThenLast(a);
    InitThenLast(b);
  }

  lemma SubstituteLast(script: seq<Edit>, a: Text, b: Text)
    requires a != [] && b != [] && Turns(script, Init(a), Init(b))
    ensures Turns(script + [Substitute(|b| - 1, Last(b))], a, b)
  {
    var e := Substitute(|b| - 1, Last(b));
    TurnsBefore(script, Init(a), Init(b), Last(a));
    InitThenLast(a);
    TurnsThen(script, a, Init(b) + [Last(a)], e);
    SubstitutesAtEnd(b, Last(a));
  }

  lemma SubstitutesAtEnd(b: Text, x: CodeUnit)
    requires b != []
    ensures ApplyEdit(Substitute(|b| - 1, Last(b)), Init(b) + [x]) == b
  {
    InitThenLast(b);
    assert (Init(b) + [x])[..|b| - 1] == Init(b);
  }

  lemma {:induction false} ShortestScript(a: Text, b: Text) returns (script: seq<Edit>)
    ensures Turns(script, a, b) && |script| == Dist(a, b)
    decreases |a| + |b|
  {
    if a == [] && b == [] {
      script := [];
    } else if b == [] || (a != [] && Dist(a, b) == Dist(Init(a), b) + 1) {
      var rest := ShortestScript(Init(a), b);
      DeleteLast(rest, a, b);
      script := [Delete(|a| - 1)] + rest;
    } else if a == [] || Dist(a, b) == Dist(a, Init(b)) + 1 {
      var first := ShortestScript(a, Init(b));
      InsertLast(first, a, b);
      script := first + [Insert(|b| - 1, Last(b))];
    } else {
      var first := ShortestScript(Init(a), Init(b));
      if Last(a) == Last(b) {
        KeepLast(first, a, b);
        script := first;
      } else {
        SubstituteLast(first, a, b);
        script := first + [Substitute(|b| - 1, Last(b))];
      }
    }
  }

  /** The distance is the least number of insertions, deletions and substitutions that do it. */
  lemma DistIsLeast(a: Text, b: Text)
    ensures exists script :: Turns(script, a, b) && |script| == Dist(a, b)
    ensures forall script :: Turns(script, a, b) ==> Dist(a, b) <= |script|
  {
    var script := ShortestScript(a, b);
    forall other | Turns(other, a, b) ensures Dist(a, b) <= |other| {
      NoShorterScript(other, a, b);
    }
  }
}
