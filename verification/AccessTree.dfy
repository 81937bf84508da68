/**
 Rendering an accessibility tree under a node budget and a depth limit, and finding a rendered element again by
 its path (native/computer-use-linux/runtime.py).
 */
module AccessTree {
  import opened Wrappers

  const MAX_NODES := 1200
  const MAX_DEPTH := 64

  /** `key` is the label stripped and in lower case. */
  datatype Action = Action(name: string, key: string)

  /**
   A node with what its getters return.  `roleKey` is the role in lower case, `cleanValue` the sanitized value,
   `plainText` the joined text pieces below the node where there are at least two and the subtree is plain text.
   A child is None where the bus returns nothing for its index.
   */
  datatype Node = Node(
    role: string,
    roleKey: string,
    name: string,
    automationId: string,
    value: string,
    cleanValue: string,
    actions: seq<Action>,
    plainText: Option<string>,
    children: seq<Option<Node>>
  )

  const GENERIC_ROLES := {"panel", "filler", "unknown", "section"}
  const COMPACT_ROLES := {
    "button", "check box", "checkbox", "combo box", "heading", "link", "menu item", "page tab", "push button",
    "radio button"
  }
  const NOISY_ACTIONS := {
    "click", "press", "show default ui", "show alternate ui", "show menu", "scroll to visible", "raise"
  }

  function PresentCount(children: seq<Option<Node>>): nat {
    if children == [] then 0 else (if children[0].Some? then 1 else 0) + PresentCount(children[1..])
  }

  function Title(node: Node): string {
    if node.name != "" then node.name else node.automationId
  }

  function GenericSummary(node: Node): Option<string> {
    if node.roleKey in GENERIC_ROLES && node.name == "" && node.value == "" then node.plainText else None
  }

  predicate HasMeaningfulAction(node: Node) {
    exists k :: 0 <= k < |node.actions| && node.actions[k].key !in NOISY_ACTIONS
  }

  predicate Elided(node: Node) {
    && node.roleKey in GENERIC_ROLES
    && node.name == "" && node.automationId == "" && node.value == ""
    && !HasMeaningfulAction(node)
    && GenericSummary(node).None?
    && PresentCount(node.children) <= 1
  }

  /** The children of such a node are not shown. */
  predicate Closed(node: Node) {
    || (GenericSummary(node).Some? && GenericSummary(node).value != "")
    || ((Title(node) != "" || node.cleanValue != "") && node.roleKey in COMPACT_ROLES)
  }

  /** One rendered node: where it stands and how deep it is indented. */
  datatype Shown = Shown(node: Node, depth: nat, path: seq<int>)

  /** The preorder of a subtree under the depth limit, without a node budget. */
  function Whole(node: Node, depth: nat, path: seq<int>): seq<Shown>
    decreases node, |node.children| + 1
  {
    if depth > MAX_DEPTH then []
    else if Elided(node) then WholeBelow(node, 0, depth, path)
    else [Shown(node, depth, path)] + if Closed(node) then [] else WholeBelow(node, 0, depth + 1, path)
  }

  function WholeBelow(node: Node, i: nat, depth: nat, path: seq<int>): seq<Shown>
    requires i <= |node.children|
    decreases node, |node.children| - i
  {
    if i == |node.children| then []
    else if node.children[i].None? then WholeBelow(node, i + 1, depth, path)
    else Whole(node.children[i].value, depth, path + [i]) + WholeBelow(node, i + 1, depth, path)
  }

  /** The same preorder without any limit. */
  function Full(node: Node, depth: nat, path: seq<int>): seq<Shown>
    decreases node, |node.children| + 1
  {
    if Elided(node) then FullBelow(node, 0, depth, path)
    else [Shown(node, depth, path)] + if Closed(node) then [] else FullBelow(node, 0, depth + 1, path)
  }

  function FullBelow(node: Node, i: nat, depth: nat, path: seq<int>): seq<Shown>
    requires i <= |node.children|
    decreases node, |node.children| - i
  {
    if i == |node.children| then []
    else if node.children[i].None? then FullBelow(node, i + 1, depth, path)
    else Full(node.children[i].value, depth, path + [i]) + FullBelow(node, i + 1, depth, path)
  }

  // ---------------------------------------------------------------- what is shown

  lemma {:induction false} TwoPresent(children: seq<Option<Node>>)
    ensures PresentCount(children) == 0 <==> forall i :: 0 <= i < |children| ==> children[i].None?
    ensures PresentCount(children) >= 2 <==>
              exists i, j :: 0 <= i < j < |children| && children[i].Some? && children[j].Some?
    decreases |children|
  {
    if children != [] {
      var rest := children[1..];
      TwoPresent(rest);
      assert forall i :: 0 <= i < |rest| ==> rest[i] == children[i + 1];
      if i :| 0 <= i < |rest| && rest[i].Some? && children[0].Some? {
        assert children[0].Some? && children[i + 1].Some?;
      }
      if i, j :| 0 <= i < j < |rest| && rest[i].Some? && rest[j].Some? {
        assert children[i + 1].Some? && children[j + 1].Some?;
      }
      if i, j :| 0 <= i < j < |children| && children[i].Some? && children[j].Some? {
        assert rest[j - 1].Some? && (i > 0 ==> rest[i - 1].Some?);
      }
    }
  }

  /** A node is passed over if and only if it is a mere container around at most one child and tells nothing itself. */
  lemma ElidedIff(node: Node)
    ensures Elided(node) <==>
              && (node.roleKey == "panel" || node.roleKey == "filler" || node.roleKey == "unknown"
                  || node.roleKey == "section")
              && node.name == "" && node.automationId == "" && node.value == "" && node.plainText.None?
              && (forall a :: a in node.actions ==>
                    a.key in {"click", "press", "show default ui", "show alternate ui", "show menu",
                              "scroll to visible", "raise"})
              && !(exists i, j :: 0 <= i < j < |node.children| && node.children[i].Some? && node.children[j].Some?)
  {
    TwoPresent(node.children);
  }

  /** What is below a node goes unshown if and only if its line says it all: a text, or the label of a small control. */
  lemma ClosedIff(node: Node)
    ensures Closed(node) <==>
              || (node.roleKey in {"panel", "filler", "unknown", "section"} && node.name == "" && node.value == ""
                  && node.plainText.Some? && node.plainText != Some(""))
              || ((node.name != "" || node.automationId != "" || node.cleanValue != "")
                  && node.roleKey in {"button", "check box", "checkbox", "combo box", "heading", "link", "menu item",
                                      "page tab", "push button", "radio button"})
  {
  }

  /** The node that the path leads to is not elided, and no node above it hides what is below it. */
  predicate Visible(node: Node, path: seq<int>) {
    if path == [] then !Elided(node)
    else
      && 0 <= path[0] < |node.children| && node.children[path[0]].Some?
      && (Elided(node) || !Closed(node))
      && Visible(node.children[path[0]].value, path[1..])
  }

  function NodeAt(node: Node, path: seq<int>): Node
    requires Visible(node, path)
  {
    if path == [] then node else NodeAt(node.children[path[0]].value, path[1..])
  }

  /** How many nodes above it are shown. */
  function ShownAbove(node: Node, path: seq<int>): nat
    requires Visible(node, path)
  {
    if path == [] then 0
    else (if Elided(node) then 0 else 1) + ShownAbove(node.children[path[0]].value, path[1..])
  }

  predicate ShowsAt(node: Node, depth: nat, path: seq<int>, s: Shown) {
    && path <= s.path && Visible(node, s.path[|path|..])
    && s.node == NodeAt(node, s.path[|path|..]) && s.depth == depth + ShownAbove(node, s.path[|path|..])
  }

  /** Without limits exactly the visible nodes are shown, under their paths and as deep as they have shown ancestors. */
  lemma {:induction false} FullShowsExactly(node: Node, depth: nat, path: seq<int>, s: Shown)
    ensures s in Full(node, depth, path) <==> ShowsAt(node, depth, path, s)
    decreases node, |node.children| + 1
  {
    var q := if path <= s.path then s.path[|path|..] else [];
    var d := if Elided(node) then depth else depth + 1;
    FullBelowShowsExactly(node, 0, d, path, s);
    if path <= s.path && q == [] {
      assert s.path == path;
    }
  }

  lemma {:induction false} FullBelowShowsExactly(node: Node, i: nat, depth: nat, path: seq<int>, s: Shown)
    requires i <= |node.children|
    ensures s in FullBelow(node, i, depth, path) <==>
              && path < s.path && i <= s.path[|path|] < |node.children| && node.children[s.path[|path|]].Some?
              && ShowsAt(node.children[s.path[|path|]].value, depth, path + [s.path[|path|]], s)
    decreases node, |node.children| - i
  {
    if i < |node.children| {
      FullBelowShowsExactly(node, i + 1, depth, path, s);
      if node.children[i].Some? {
        FullShowsExactly(node.children[i].value, depth, path + [i], s);
        if path + [i] <= s.path {
          assert (path + [i])[|path|] == s.path[|path|];
        }
      }
    }
  }

  function Capped(s: seq<Shown>): seq<Shown> {
    if |s| <= MAX_NODES then s else s[..MAX_NODES]
  }

  lemma CappedAppend(s: seq<Shown>, t: seq<Shown>)
    ensures Capped(Capped(s) + t) == Capped(s + t)
  {
    if |s| > MAX_NODES {
      assert (s[..MAX_NODES] + t)[..MAX_NODES] == s[..MAX_NODES] == (s + t)[..MAX_NODES];
    }
  }

  datatype Truncation = Truncation(truncated: bool, maxDepthReached: bool)

  function Either(a: Truncation, b: Truncation): Truncation {
    Truncation(a.truncated || b.truncated, a.maxDepthReached || b.maxDepthReached)
  }

  /** Which refusals a walk meets that begins with `n` records. */
  function Refusals(node: Node, depth: nat, path: seq<int>, n: nat): Truncation
    decreases node, |node.children| + 1
  {
    if n >= MAX_NODES || depth > MAX_DEPTH then Truncation(true, depth > MAX_DEPTH)
    else if Elided(node) then RefusalsBelow(node, 0, depth, path, n)
    else if Closed(node) then Truncation(false, false)
    else RefusalsBelow(node, 0, depth + 1, path, n + 1)
  }

  function RefusalsBelow(node: Node, i: nat, depth: nat, path: seq<int>, n: nat): Truncation
    requires i <= |node.children|
    decreases node, |node.children| - i
  {
    if i == |node.children| then Truncation(false, false)
    else if node.children[i].None? then RefusalsBelow(node, i + 1, depth, path, n)
    else
      var child := node.children[i].value;
      var after := n + |Whole(child, depth, path + [i])|;
      Either(Refusals(child, depth, path + [i], n),
             RefusalsBelow(node, i + 1, depth, path, if after <= MAX_NODES then after else MAX_NODES))
  }

  /** A walk that refuses nothing has stayed within its budget and has shown everything there is. */
  lemma {:induction false} NothingRefused(node: Node, depth: nat, path: seq<int>, n: nat)
    requires n <= MAX_NODES && !Refusals(node, depth, path, n).truncated
    ensures n + |Whole(node, depth, path)| <= MAX_NODES && Whole(node, depth, path) == Full(node, depth, path)
    decreases node, |node.children| + 1
  {
    if Elided(node) {
      NothingRefusedBelow(node, 0, depth, path, n);
    } else if !Closed(node) {
      NothingRefusedBelow(node, 0, depth + 1, path, n + 1);
    }
  }

  lemma {:induction false} NothingRefusedBelow(node: Node, i: nat, depth: nat, path: seq<int>, n: nat)
    requires i <= |node.children| && n <= MAX_NODES && !RefusalsBelow(node, i, depth, path, n).truncated
    ensures n + |WholeBelow(node, i, depth, path)| <= MAX_NODES
    ensures WholeBelow(node, i, depth, path) == FullBelow(node, i, depth, path)
    decreases node, |node.children| - i
  {
    if i < |node.children| {
      if node.children[i].None? {
        NothingRefusedBelow(node, i + 1, depth, path, n);
      } else {
        NothingRefused(node.children[i].value, depth, path + [i], n);
        NothingRefusedBelow(node, i + 1, depth, path, n + |Whole(node.children[i].value, depth, path + [i])|);
      }
    }
  }

  /** A node shown at the last depth there is, with something to show below it. */
  predicate AtTheBottom(s: Shown) {
    s.depth == MAX_DEPTH && !Closed(s.node) && exists i :: 0 <= i < |s.node.children| && s.node.children[i].Some?
  }

  predicate BottomWithin(s: seq<Shown>, budget: int) {
    exists k :: 0 <= k < |s| && k < budget && AtTheBottom(s[k])
  }

  lemma BottomAppend(s: seq<Shown>, t: seq<Shown>, budget: int)
    ensures BottomWithin(s + t, budget) <==> BottomWithin(s, budget) || BottomWithin(t, budget - |s|)
  {
    if k :| 0 <= k < |t| && k < budget - |s| && AtTheBottom(t[k]) {
      assert (s + t)[|s| + k] == t[k];
    }
    if k :| 0 <= k < |s| && k < budget && AtTheBottom(s[k]) {
      assert (s + t)[k] == s[k];
    }
    if k :| 0 <= k < |s + t| && k < budget && AtTheBottom((s + t)[k]) {
      assert k < |s| || (s + t)[k] == t[k - |s|];
    }
  }

  /**
   The other flag says exactly that some node within the budget was shown at the last depth and has something below it
   to show.
   */
  lemma {:induction false} DepthReachedIff(node: Node, depth: nat, path: seq<int>, n: nat)
    requires depth <= MAX_DEPTH && n <= MAX_NODES
    ensures Refusals(node, depth, path, n).maxDepthReached <==>
            BottomWithin(Whole(node, depth, path), MAX_NODES - n)
    decreases node, |node.children| + 2
  {
    if n < MAX_NODES {
      if Elided(node) {
        DepthReachedBelowIff(node, 0, depth, path, n);
      } else if Closed(node) {
        BottomFirst(Shown(node, depth, path), [], MAX_NODES - n);
        assert Whole(node, depth, path) == [Shown(node, depth, path)] + [];
      } else {
        DepthReachedOpenIff(node, depth, path, n);
      }
    }
  }

  lemma BottomFirst(s: Shown, t: seq<Shown>, budget: int)
    requires budget > 0
    ensures BottomWithin([s] + t, budget) <==> AtTheBottom(s) || BottomWithin(t, budget - 1)
  {
    BottomAppend([s], t, budget);
    assert AtTheBottom(s) ==> AtTheBottom([s][0]);
  }

  lemma {:induction false} DepthReachedOpenIff(node: Node, depth: nat, path: seq<int>, n: nat)
    requires depth <= MAX_DEPTH && n < MAX_NODES && !Closed(node)
    ensures RefusalsBelow(node, 0, depth + 1, path, n + 1).maxDepthReached <==>
            BottomWithin([Shown(node, depth, path)] + WholeBelow(node, 0, depth + 1, path), MAX_NODES - n)
    decreases node, |node.children| + 1
  {
    DepthReachedBelowIff(node, 0, depth + 1, path, n + 1);
    BottomFirst(Shown(node, depth, path), WholeBelow(node, 0, depth + 1, path), MAX_NODES - n);
    if depth == MAX_DEPTH {
      NothingBelowBottom(node, 0, depth + 1, path);
    }
  }

  lemma {:induction false} NothingBelowBottom(node: Node, i: nat, depth: nat, path: seq<int>)
    requires i <= |node.children| && depth > MAX_DEPTH
    ensures WholeBelow(node, i, depth, path) == []
    decreases |node.children| - i
  {
    if i < |node.children| {
      NothingBelowBottom(node, i + 1, depth, path);
    }
  }

  lemma {:induction false} DepthReachedBelowIff(node: Node, i: nat, depth: nat, path: seq<int>, n: nat)
    requires i <= |node.children| && depth <= MAX_DEPTH + 1 && n <= MAX_NODES
    ensures RefusalsBelow(node, i, depth, path, n).maxDepthReached <==>
              if depth > MAX_DEPTH then exists j :: i <= j < |node.children| && node.children[j].Some?
              else BottomWithin(WholeBelow(node, i, depth, path), MAX_NODES - n)
    decreases node, |node.children| - i
  {
    if i < |node.children| {
      if node.children[i].None? {
        DepthReachedBelowIff(node, i + 1, depth, path, n);
      } else if depth > MAX_DEPTH {
        assert node.children[i].Some?;
      } else {
        var first := Whole(node.children[i].value, depth, path + [i]);
        var rest := WholeBelow(node, i + 1, depth, path);
        DepthReachedIff(node.children[i].value, depth, path + [i], n);
        DepthReachedBelowIff(node, i + 1, depth, path, if n + |first| <= MAX_NODES then n + |first| else MAX_NODES);
        BottomAppend(first, rest, MAX_NODES - n);
      }
    }
  }

  // ---------------------------------------------------------------- the renderer

  /** `actions` are the action labels; the other fields of a record are copied from the node the same way. */
  datatype Record = Record(index: nat, runtimeId: seq<int>, controlType: string, name: string, automationId: string,
                           value: string, actions: seq<string>)

  /** A line's indentation and the index it starts with; the rest of its text is not modelled. */
  datatype Line = Line(tabs: nat, index: nat)

  function Labels(actions: seq<Action>): seq<string> {
    seq(|actions|, k requires 0 <= k < |actions| => actions[k].name)
  }

  function RecordOf(shown: Shown, index: nat): Record {
    var node := shown.node;
    Record(index, shown.path, node.role, node.name, node.automationId, node.value, Labels(node.actions))
  }

  predicate Rendered(shown: seq<Shown>, records: seq<Record>, lines: seq<Line>) {
    && |records| == |lines| == |shown|
    && (forall k :: 0 <= k < |shown| ==> records[k] == RecordOf(shown[k], k) && lines[k] == Line(shown[k].depth, k))
  }

  /** What is shown and what is refused in the end, with the children from `i` on still to be walked. */
  function StillToShow(node: Node, i: nat, depth: nat, path: seq<int>, before: seq<Shown>, t: Truncation)
      : (seq<Shown>, Truncation)
    requires i <= |node.children|
  {
    (Capped(before + WholeBelow(node, i, depth, path)), Either(t, RefusalsBelow(node, i, depth, path, |before|)))
  }

  lemma ShownStep(node: Node, i: nat, depth: nat, path: seq<int>, before: seq<Shown>)
    requires i < |node.children| && node.children[i].Some?
    ensures Capped(before + WholeBelow(node, i, depth, path)) ==
            Capped(Capped(before + Whole(node.children[i].value, depth, path + [i]))
                   + WholeBelow(node, i + 1, depth, path))
  {
    var first, rest := Whole(node.children[i].value, depth, path + [i]), WholeBelow(node, i + 1, depth, path);
    CappedAppend(before + first, rest);
    assert before + first + rest == before + (first + rest);
  }

  lemma RefusedStep(node: Node, i: nat, depth: nat, path: seq<int>, before: seq<Shown>)
    requires i < |node.children| && node.children[i].Some? && |before| <= MAX_NODES
    ensures var now := Capped(before + Whole(node.children[i].value, depth, path + [i]));
            RefusalsBelow(node, i, depth, path, |before|) ==
            Either(Refusals(node.children[i].value, depth, path + [i], |before|),
                   RefusalsBelow(node, i + 1, depth, path, |now|))
  {
  }

  lemma OpenStep(node: Node, depth: nat, path: seq<int>, before: seq<Shown>)
    requires depth <= MAX_DEPTH && !Elided(node) && !Closed(node)
    ensures before + Whole(node, depth, path)
         == before + [Shown(node, depth, path)] + WholeBelow(node, 0, depth + 1, path)
  {
  }

  /** Walking one child leaves the outcome as it will be. */
  lemma ChildStep(node: Node, i: nat, depth: nat, path: seq<int>, before: seq<Shown>, t: Truncation)
    requires i < |node.children| && |before| <= MAX_NODES
    ensures StillToShow(node, i, depth, path, before, t) ==
            if node.children[i].None? then StillToShow(node, i + 1, depth, path, before, t)
            else StillToShow(node, i + 1, depth, path,
                             Capped(before + Whole(node.children[i].value, depth, path + [i])),
                             Either(t, Refusals(node.children[i].value, depth, path + [i], |before|)))
  {
    if node.children[i].Some? {
      ShownStep(node, i, depth, path, before);
      RefusedStep(node, i, depth, path, before);
    }
  }

  class TreeRenderer {
    var records: seq<Record>
    var lines: seq<Line>
    var truncation: Truncation
    ghost var shown: seq<Shown>

    ghost predicate Valid()
      reads this
    {
      |shown| <= MAX_NODES && Rendered(shown, records, lines)
    }

    constructor ()
      ensures Valid() && shown == [] && truncation == Truncation(false, false)
    {
      records, lines, truncation, shown := [], [], Truncation(false, false), [];
    }

    method Walk(node: Node, depth: nat, path: seq<int>)
      requires Valid()
      modifies this
      ensures Valid() && shown == Capped(old(shown) + Whole(node, depth, path))
      ensures truncation == Either(old(truncation), Refusals(node, depth, path, |old(shown)|))
      decreases node, |node.children| + 1
    {
      if |records| >= MAX_NODES || depth > MAX_DEPTH {
        truncation := truncation.(truncated := true);
        if depth > MAX_DEPTH {
          truncation := truncation.(maxDepthReached := true);
        }
        return;
      }
      if Elided(node) {
        WalkChildren(node, depth, path);
        return;
      }
      Append(node, depth, path);
      if Closed(node) {
        return;
      }
      OpenStep(node, depth, path, old(shown));
      WalkChildren(node, depth + 1, path);
    }

    method Append(node: Node, depth: nat, path: seq<int>)
      requires Valid() && |shown| < MAX_NODES
      modifies `records, `lines, `shown
      ensures Valid() && shown == old(shown) + [Shown(node, depth, path)]
    {
      var index := |records|;
      records := records + [RecordOf(Shown(node, depth, path), index)];
      lines := lines + [Line(depth, index)];
      shown := shown + [Shown(node, depth, path)];
    }

    method WalkChildren(node: Node, depth: nat, path: seq<int>)
      requires Valid()
      modifies this
      ensures Valid() && shown == Capped(old(shown) + WholeBelow(node, 0, depth, path))
      ensures truncation == Either(old(truncation), RefusalsBelow(node, 0, depth, path, |old(shown)|))
      decreases node, |node.children|
    {
      ghost var start := StillToShow(node, 0, depth, path, shown, truncation);
      for i := 0 to |node.children|
        invariant Valid() && StillToShow(node, i, depth, path, shown, truncation) == start
      {
        ChildStep(node, i, depth, path, shown, truncation);
        if node.children[i].Some? {
          Walk(node.children[i].value, depth, path + [i]);
        }
      }
    }
  }

  /**
   The records are the first MAX_NODES of the depth-limited preorder, each one's index is its position and it has
   exactly one line; when nothing is reported truncated they are all there is.
   */
  method RenderAccessibilityTree(root: Node, rootPath: seq<int>)
      returns (records: seq<Record>, lines: seq<Line>, truncation: Truncation)
    ensures Rendered(Capped(Whole(root, 0, rootPath)), records, lines)
    ensures truncation == Refusals(root, 0, rootPath, 0)
    ensures !truncation.truncated ==> Rendered(Full(root, 0, rootPath), records, lines)
  {
    var renderer := new TreeRenderer();
    renderer.Walk(root, 0, rootPath);
    records, lines, truncation := renderer.records, renderer.lines, renderer.truncation;
    assert [] + Whole(root, 0, rootPath) == Whole(root, 0, rootPath);
    if !truncation.truncated {
      NothingRefused(root, 0, rootPath, 0);
    }
  }

  // ---------------------------------------------------------------- finding an element again

  function Descend(node: Node, path: seq<int>): Option<Node> {
    if path == [] then Some(node)
    else if 0 <= path[0] < |node.children| && node.children[path[0]].Some?
    then Descend(node.children[path[0]].value, path[1..])
    else None
  }

  method FindByPath(app: Node, path: seq<int>) returns (found: Option<Node>)
    ensures found == Descend(app, path)
  {
    var node := app;
    var i := 0;
    while i < |path|
      invariant 0 <= i <= |path| && Descend(app, path) == Descend(node, path[i..])
    {
      assert path[i..][1..] == path[i + 1..];
      if !(0 <= path[i] < |node.children|) || node.children[path[i]].None? {
        return None;
      }
      node := node.children[path[i]].value;
      i := i + 1;
    }
    return Some(node);
  }

  predicate SameElementSignature(node: Node, saved: Record) {
    && node.role == saved.controlType
    && node.name == saved.name
    && node.automationId == saved.automationId
    && Labels(node.actions) == saved.actions
  }

  /** Each of these nodes is the child of the one before it that the path names. */
  ghost predicate IsWay(way: seq<Node>, path: seq<int>) {
    && |way| == |path| + 1
    && forall k :: 0 <= k < |path| ==>
         0 <= path[k] < |way[k].children| && way[k].children[path[k]] == Some(way[k + 1])
  }

  lemma {:induction false} WayDescends(node: Node, path: seq<int>, way: seq<Node>)
    requires IsWay(way, path) && way[0] == node
    ensures Descend(node, path) == Some(way[|path|])
    decreases |path|
  {
    if path != [] {
      forall k | 0 <= k < |path[1..]|
        ensures 0 <= path[1..][k] < |way[1..][k].children|
                && way[1..][k].children[path[1..][k]] == Some(way[1..][k + 1])
      {
        assert way[k + 1].children[path[k + 1]] == Some(way[k + 2]);
      }
      WayDescends(way[1], path[1..], way[1..]);
    }
  }

  lemma {:induction false} DescentHasWay(node: Node, path: seq<int>) returns (way: seq<Node>)
    requires Descend(node, path).Some?
    ensures IsWay(way, path) && way[0] == node && Some(way[|path|]) == Descend(node, path)
    decreases |path|
  {
    if path == [] {
      way := [node];
    } else {
      var rest := DescentHasWay(node.children[path[0]].value, path[1..]);
      way := [node] + rest;
      forall k | 0 <= k < |path|
        ensures 0 <= path[k] < |way[k].children| && way[k].children[path[k]] == Some(way[k + 1])
      {
        if k > 0 {
          assert path[1..][k - 1] == path[k] && rest[k - 1] == way[k] && rest[k] == way[k + 1];
        }
      }
    }
  }

  /** A path leads from node to node by child numbers, and nowhere where there is no such child. */
  lemma DescendIff(node: Node, path: seq<int>, found: Node)
    ensures Descend(node, path) == Some(found) <==>
              exists way :: IsWay(way, path) && way[0] == node && way[|path|] == found
  {
    if Descend(node, path) == Some(found) {
      var way := DescentHasWay(node, path);
    }
    if way :| IsWay(way, path) && way[0] == node && way[|path|] == found {
      WayDescends(node, path, way);
    }
  }

  /** Whatever the tree is now: the node at the saved path if it still looks the same, and otherwise nothing. */
  method FindElement(app: Node, saved: Record) returns (found: Option<Node>)
    ensures found.Some? <==>
            exists node ::
              && Descend(app, saved.runtimeId) == Some(node)
              && node.role == saved.controlType && node.name == saved.name && node.automationId == saved.automationId
              && |node.actions| == |saved.actions|
              && forall k :: 0 <= k < |saved.actions| ==> node.actions[k].name == saved.actions[k]
    ensures found.Some? ==> Descend(app, saved.runtimeId) == found && SameElementSignature(found.value, saved)
  {
    var byPath := FindByPath(app, saved.runtimeId);
    if byPath.Some? && SameElementSignature(byPath.value, saved) {
      return byPath;
    }
    return None;
  }

  /** Every rendered node, also one below elided nodes, is the node its path leads to. */
  lemma {:induction false} PathsLeadBack(node: Node, depth: nat, path: seq<int>, shown: Shown)
    requires shown in Whole(node, depth, path)
    ensures path <= shown.path && Descend(node, shown.path[|path|..]) == Some(shown.node)
    decreases node, |node.children| + 1
  {
    if shown == Shown(node, depth, path) && !Elided(node) {
    } else {
      var i := PathsLeadBackBelow(node, 0, if Elided(node) then depth else depth + 1, path, shown);
    }
  }

  lemma {:induction false} PathsLeadBackBelow(node: Node, from: nat, depth: nat, path: seq<int>, shown: Shown)
      returns (i: nat)
    requires from <= |node.children| && shown in WholeBelow(node, from, depth, path)
    ensures from <= i < |node.children| && node.children[i].Some?
    ensures path + [i] <= shown.path && Descend(node, shown.path[|path|..]) == Some(shown.node)
    decreases node, |node.children| - from
  {
    if node.children[from].Some? && shown in Whole(node.children[from].value, depth, path + [from]) {
      i := from;
      PathsLeadBack(node.children[i].value, depth, path + [i], shown);
      assert shown.path[|path|] == (path + [i])[|path|];
      assert shown.path[|path|..][1..] == shown.path[|path + [i]|..];
    } else {
      i := PathsLeadBackBelow(node, from + 1, depth, path, shown);
    }
  }

  /** On the tree it was rendered from, every record is found again, as the very node it was made from. */
  lemma EveryRecordIsFound(app: Node, window: nat, root: Node, records: seq<Record>, lines: seq<Line>, k: nat)
    requires window < |app.children| && app.children[window] == Some(root)
    requires Rendered(Capped(Whole(root, 0, [window])), records, lines) && k < |records|
    ensures Descend(app, records[k].runtimeId) == Some(Whole(root, 0, [window])[k].node)
    ensures SameElementSignature(Whole(root, 0, [window])[k].node, records[k])
  {
    var shown := Whole(root, 0, [window])[k];
    PathsLeadBack(root, 0, [window], shown);
    assert shown.path[0] == [window][0];
    assert shown.path[1..] == shown.path[|[window]|..];
  }

  // ---------------------------------------------------------------- document order

  /** `p` comes before `q` in the tree: above it, or left of it at the first place where they part. */
  predicate Before(p: seq<int>, q: seq<int>) {
    q != [] && (p == [] || p[0] < q[0] || (p[0] == q[0] && Before(p[1..], q[1..])))
  }

  predicate InOrder(s: seq<Shown>) {
    forall i, j :: 0 <= i < j < |s| ==> Before(s[i].path, s[j].path)
  }

  lemma {:induction false} BeforePrefixed(path: seq<int>, p: seq<int>, q: seq<int>)
    requires path <= p && path <= q
    ensures Before(p, q) <==> Before(p[|path|..], q[|path|..])
    decreases |path|
  {
    if path != [] {
      BeforePrefixed(path[1..], p[1..], q[1..]);
      assert p[1..][|path| - 1..] == p[|path|..] && q[1..][|path| - 1..] == q[|path|..];
    } else {
      assert p[0..] == p && q[0..] == q;
    }
  }

  lemma {:induction false} BeforeIsIrreflexive(p: seq<int>)
    ensures !Before(p, p)
  {
    if p != [] {
      BeforeIsIrreflexive(p[1..]);
    }
  }

  /** The preorder runs in document order, so no two records carry the same path. */
  lemma {:induction false} WholeInOrder(node: Node, depth: nat, path: seq<int>)
    ensures InOrder(Whole(node, depth, path))
    decreases node, |node.children| + 1
  {
    if depth <= MAX_DEPTH {
      var d := if Elided(node) then depth else depth + 1;
      WholeBelowInOrder(node, 0, d, path);
      var below := WholeBelow(node, 0, d, path);
      forall j | 0 <= j < |below|
        ensures Before(path, below[j].path)
      {
        var i := PathsLeadBackBelow(node, 0, d, path, below[j]);
        BeforePrefixed(path, path, below[j].path);
        assert path[|path|..] == [];
      }
    }
  }

  lemma {:induction false} WholeBelowInOrder(node: Node, from: nat, depth: nat, path: seq<int>)
    requires from <= |node.children|
    ensures InOrder(WholeBelow(node, from, depth, path))
    decreases node, |node.children| - from
  {
    if from < |node.children| {
      var rest := WholeBelow(node, from + 1, depth, path);
      WholeBelowInOrder(node, from + 1, depth, path);
      if node.children[from].Some? {
        var child := node.children[from].value;
        var first := Whole(child, depth, path + [from]);
        WholeInOrder(child, depth, path + [from]);
        forall i, j | 0 <= i < |first| && 0 <= j < |rest|
          ensures Before(first[i].path, rest[j].path)
        {
          PathsLeadBack(child, depth, path + [from], first[i]);
          var next := PathsLeadBackBelow(node, from + 1, depth, path, rest[j]);
          PathsPart(path, from, next, first[i].path, rest[j].path);
        }
      }
    }
  }

  lemma PathsPart(path: seq<int>, i: int, j: int, p: seq<int>, q: seq<int>)
    requires i < j && path + [i] <= p && path + [j] <= q
    ensures Before(p, q)
  {
    BeforePrefixed(path, p, q);
    assert p[|path|] == (path + [i])[|path|] && q[|path|] == (path + [j])[|path|];
  }

  lemma PathsAreDistinct(root: Node, rootPath: seq<int>, records: seq<Record>, lines: seq<Line>, i: nat, j: nat)
    requires Rendered(Capped(Whole(root, 0, rootPath)), records, lines) && i < j < |records|
    ensures records[i].runtimeId != records[j].runtimeId
  {
    WholeInOrder(root, 0, rootPath);
    BeforeIsIrreflexive(records[i].runtimeId);
  }

  // ---------------------------------------------------------------- exactly when something is missing

  function Shallow(s: seq<Shown>): seq<Shown> {
    if s == [] then []
    else if s[0].depth <= MAX_DEPTH then [s[0]] + Shallow(s[1..])
    else Shallow(s[1..])
  }

  lemma {:induction false} ShallowAppend(s: seq<Shown>, t: seq<Shown>)
    ensures Shallow(s + t) == Shallow(s) + Shallow(t)
  {
    if s == [] {
      assert s + t == t;
    } else {
      var rest := Shallow(s[1..]);
      ShallowAppend(s[1..], t);
      assert (s + t)[1..] == s[1..] + t && (s + t)[0] == s[0];
      assert Shallow(s + t) == if s[0].depth <= MAX_DEPTH then [s[0]] + (rest + Shallow(t)) else rest + Shallow(t);
      assert [s[0]] + (rest + Shallow(t)) == [s[0]] + rest + Shallow(t);
    }
  }

  lemma {:induction false} ShallowIsShorter(s: seq<Shown>)
    ensures |Shallow(s)| <= |s| && (|Shallow(s)| == |s| ==> Shallow(s) == s)
    ensures Shallow(s) == s <==> forall k :: 0 <= k < |s| ==> s[k].depth <= MAX_DEPTH
  {
    if s != [] {
      ShallowIsShorter(s[1..]);
      assert forall k :: 1 <= k < |s| ==> s[k] == s[1..][k - 1];
      assert s == [s[0]] + s[1..];
    }
  }

  lemma {:induction false} ShallowOfDeep(s: seq<Shown>)
    requires forall k :: 0 <= k < |s| ==> s[k].depth > MAX_DEPTH
    ensures Shallow(s) == []
  {
    if s != [] {
      ShallowOfDeep(s[1..]);
    }
  }

  lemma {:induction false} DepthsBelow(node: Node, depth: nat, path: seq<int>, k: nat)
    requires k < |Full(node, depth, path)|
    ensures Full(node, depth, path)[k].depth >= depth
    decreases node, |node.children| + 1
  {
    if Elided(node) {
      DepthsBelowFrom(node, 0, depth, path, k);
    } else if k > 0 {
      DepthsBelowFrom(node, 0, depth + 1, path, k - 1);
    }
  }

  lemma {:induction false} DepthsBelowFrom(node: Node, i: nat, depth: nat, path: seq<int>, k: nat)
    requires i <= |node.children| && k < |FullBelow(node, i, depth, path)|
    ensures FullBelow(node, i, depth, path)[k].depth >= depth
    decreases node, |node.children| - i
  {
    if node.children[i].None? {
      DepthsBelowFrom(node, i + 1, depth, path, k);
    } else {
      var first := Full(node.children[i].value, depth, path + [i]);
      if k < |first| {
        DepthsBelow(node.children[i].value, depth, path + [i], k);
      } else {
        DepthsBelowFrom(node, i + 1, depth, path, k - |first|);
      }
    }
  }

  /** The depth limit leaves out the nodes too deep and no others. */
  lemma {:induction false} WholeIsShallow(node: Node, depth: nat, path: seq<int>)
    ensures Whole(node, depth, path) == Shallow(Full(node, depth, path))
    decreases node, |node.children| + 1
  {
    if depth > MAX_DEPTH {
      forall k | 0 <= k < |Full(node, depth, path)| ensures Full(node, depth, path)[k].depth > MAX_DEPTH {
        DepthsBelow(node, depth, path, k);
      }
      ShallowOfDeep(Full(node, depth, path));
    } else if Elided(node) {
      WholeBelowIsShallow(node, 0, depth, path);
    } else if !Closed(node) {
      WholeBelowIsShallow(node, 0, depth + 1, path);
    }
  }

  lemma {:induction false} WholeBelowIsShallow(node: Node, i: nat, depth: nat, path: seq<int>)
    requires i <= |node.children|
    ensures WholeBelow(node, i, depth, path) == Shallow(FullBelow(node, i, depth, path))
    decreases node, |node.children| - i
  {
    if i < |node.children| {
      WholeBelowIsShallow(node, i + 1, depth, path);
      if node.children[i].Some? {
        WholeIsShallow(node.children[i].value, depth, path + [i]);
        ShallowAppend(Full(node.children[i].value, depth, path + [i]), FullBelow(node, i + 1, depth, path));
      }
    }
  }

  /** The records are everything there is to show. */
  predicate Complete(root: Node, rootPath: seq<int>) {
    Capped(Whole(root, 0, rootPath)) == Full(root, 0, rootPath)
  }

  predicate WithinLimits(s: seq<Shown>) {
    |s| <= MAX_NODES && forall k :: 0 <= k < |s| ==> s[k].depth <= MAX_DEPTH
  }

  /** The rendering is complete if and only if what there is to show keeps within both limits. */
  lemma CompleteIff(root: Node, rootPath: seq<int>)
    ensures Complete(root, rootPath) <==> WithinLimits(Full(root, 0, rootPath))
  {
    WholeIsShallow(root, 0, rootPath);
    ShallowIsShorter(Full(root, 0, rootPath));
  }

  // ---------------------------------------------------------------- exactly when the flag is raised

  /** A node met by an unlimited walk; an elided one is not shown. */
  datatype Meeting = Meeting(depth: nat, shown: bool)

  function Meetings(node: Node, depth: nat): seq<Meeting>
    decreases node, |node.children| + 1
  {
    if Elided(node) then [Meeting(depth, false)] + MeetingsBelow(node, 0, depth)
    else [Meeting(depth, true)] + if Closed(node) then [] else MeetingsBelow(node, 0, depth + 1)
  }

  function MeetingsBelow(node: Node, i: nat, depth: nat): seq<Meeting>
    requires i <= |node.children|
    decreases node, |node.children| - i
  {
    if i == |node.children| then []
    else if node.children[i].None? then MeetingsBelow(node, i + 1, depth)
    else Meetings(node.children[i].value, depth) + MeetingsBelow(node, i + 1, depth)
  }

  function ShownCount(meetings: seq<Meeting>): nat {
    if meetings == [] then 0 else (if meetings[0].shown then 1 else 0) + ShownCount(meetings[1..])
  }

  lemma {:induction false} ShownCountAppend(a: seq<Meeting>, b: seq<Meeting>)
    ensures ShownCount(a + b) == ShownCount(a) + ShownCount(b)
  {
    if a == [] {
      assert a + b == b;
    } else {
      ShownCountAppend(a[1..], b);
      assert (a + b)[1..] == a[1..] + b;
    }
  }

  /** The walk, begun with `n` records, meets meeting `k` with its budget used up or beyond the depth limit. */
  predicate Refused(meetings: seq<Meeting>, n: nat, k: nat) {
    k < |meetings| && (n + ShownCount(meetings[..k]) >= MAX_NODES || meetings[k].depth > MAX_DEPTH)
  }

  predicate SomeRefused(meetings: seq<Meeting>, n: nat) {
    exists k: nat :: k < |meetings| && Refused(meetings, n, k)
  }

  lemma RefusedAppend(a: seq<Meeting>, b: seq<Meeting>, n: nat)
    ensures SomeRefused(a + b, n) <==> SomeRefused(a, n) || SomeRefused(b, n + ShownCount(a))
  {
    forall k: nat | k < |a + b|
      ensures Refused(a + b, n, k) <==>
              if k < |a| then Refused(a, n, k) else Refused(b, n + ShownCount(a), k - |a|)
    {
      if k < |a| {
        assert (a + b)[..k] == a[..k];
      } else {
        assert (a + b)[..k] == a + b[..k - |a|];
        ShownCountAppend(a, b[..k - |a|]);
      }
    }
    if k: nat :| k < |a| && Refused(a, n, k) {
      assert Refused(a + b, n, k);
    }
    var m := n + ShownCount(a);
    if k: nat :| k < |b| && Refused(b, m, k) {
      assert Refused(a + b, n, |a| + k);
    }
  }

  lemma RefusedOne(meeting: Meeting, n: nat)
    ensures SomeRefused([meeting], n) <==> n >= MAX_NODES || meeting.depth > MAX_DEPTH
    ensures ShownCount([meeting]) == if meeting.shown then 1 else 0
  {
    assert [meeting][..0] == [] && [meeting][1..] == [];
    if n >= MAX_NODES || meeting.depth > MAX_DEPTH {
      assert Refused([meeting], n, 0);
    }
  }

  lemma {:induction false} ShownCountIsFull(node: Node, depth: nat, path: seq<int>)
    ensures ShownCount(Meetings(node, depth)) == |Full(node, depth, path)|
    decreases node, |node.children| + 1
  {
    var d := if Elided(node) then depth else depth + 1;
    ShownCountIsFullBelow(node, 0, d, path);
    ShownCountAppend([Meeting(depth, !Elided(node))], MeetingsBelow(node, 0, d));
    RefusedOne(Meeting(depth, !Elided(node)), 0);
  }

  lemma {:induction false} ShownCountIsFullBelow(node: Node, i: nat, depth: nat, path: seq<int>)
    requires i <= |node.children|
    ensures ShownCount(MeetingsBelow(node, i, depth)) == |FullBelow(node, i, depth, path)|
    decreases node, |node.children| - i
  {
    if i < |node.children| {
      ShownCountIsFullBelow(node, i + 1, depth, path);
      if node.children[i].Some? {
        ShownCountIsFull(node.children[i].value, depth, path + [i]);
        ShownCountAppend(Meetings(node.children[i].value, depth), MeetingsBelow(node, i + 1, depth));
      }
    }
  }

  lemma {:induction false} TruncatedIffRefused(node: Node, depth: nat, path: seq<int>, n: nat)
    requires n <= MAX_NODES
    ensures Refusals(node, depth, path, n).truncated <==> SomeRefused(Meetings(node, depth), n)
    decreases node, |node.children| + 1
  {
    var here := Meeting(depth, !Elided(node));
    var d := if Elided(node) then depth else depth + 1;
    RefusedAppend([here], if here.shown && Closed(node) then [] else MeetingsBelow(node, 0, d), n);
    RefusedOne(here, n);
    if n < MAX_NODES && depth <= MAX_DEPTH {
      TruncatedIffRefusedBelow(node, 0, d, path, if here.shown then n + 1 else n);
    }
  }

  lemma {:induction false} TruncatedIffRefusedBelow(node: Node, i: nat, depth: nat, path: seq<int>, n: nat)
    requires i <= |node.children| && n <= MAX_NODES
    ensures RefusalsBelow(node, i, depth, path, n).truncated <==> SomeRefused(MeetingsBelow(node, i, depth), n)
    decreases node, |node.children| - i
  {
    if i < |node.children| {
      if node.children[i].None? {
        TruncatedIffRefusedBelow(node, i + 1, depth, path, n);
      } else {
        var child := node.children[i].value;
        RefusedAppend(Meetings(child, depth), MeetingsBelow(node, i + 1, depth), n);
        TruncatedIffRefused(child, depth, path + [i], n);
        if !Refusals(child, depth, path + [i], n).truncated {
          NothingRefused(child, depth, path + [i], n);
          ShownCountIsFull(child, depth, path + [i]);
          TruncatedIffRefusedBelow(node, i + 1, depth, path, n + |Whole(child, depth, path + [i])|);
        }
      }
    }
  }

  /**
   The flag is raised if and only if some node, elided ones included, is met with the budget used up or beyond the
   depth limit; so it is raised on a complete rendering if and only if what is shown keeps within the limits and an
   elided node is met in this way.
   */
  lemma TruncatedIff(root: Node, rootPath: seq<int>)
    ensures Refusals(root, 0, rootPath, 0).truncated <==> SomeRefused(Meetings(root, 0), 0)
    ensures Refusals(root, 0, rootPath, 0).truncated && Complete(root, rootPath) <==>
            WithinLimits(Full(root, 0, rootPath))
            && exists k: nat ::
              k < |Meetings(root, 0)| && !Meetings(root, 0)[k].shown && Refused(Meetings(root, 0), 0, k)
  {
    TruncatedIffRefused(root, 0, rootPath, 0);
    CompleteIff(root, rootPath);
    if WithinLimits(Full(root, 0, rootPath)) {
      ShownCountIsFull(root, 0, rootPath);
      forall k: nat | k < |Meetings(root, 0)| && Meetings(root, 0)[k].shown
        ensures !Refused(Meetings(root, 0), 0, k)
      {
        ShownIsNotRefused(root, rootPath, k);
      }
    }
  }

  lemma ShownIsNotRefused(root: Node, rootPath: seq<int>, k: nat)
    requires WithinLimits(Full(root, 0, rootPath)) && k < |Meetings(root, 0)| && Meetings(root, 0)[k].shown
    ensures !Refused(Meetings(root, 0), 0, k)
  {
    var meetings := Meetings(root, 0);
    ShownCountIsFull(root, 0, rootPath);
    assert meetings == meetings[..k] + meetings[k..];
    ShownCountAppend(meetings[..k], meetings[k..]);
    ShownMeetingIsShown(root, 0, rootPath, k);
    var j := ShownCount(meetings[..k]);
    assert Full(root, 0, rootPath)[j].depth == meetings[k].depth;
  }

  /** Each shown meeting is the entry of the preorder with as many shown ones before it. */
  lemma {:induction false} ShownMeetingIsShown(node: Node, depth: nat, path: seq<int>, k: nat)
    requires k < |Meetings(node, depth)| && Meetings(node, depth)[k].shown
    ensures var j := ShownCount(Meetings(node, depth)[..k]);
            j < |Full(node, depth, path)| && Full(node, depth, path)[j].depth == Meetings(node, depth)[k].depth
    decreases node, |node.children| + 1
  {
    var meetings := Meetings(node, depth);
    if k > 0 {
      var d := if Elided(node) then depth else depth + 1;
      var here := Meeting(depth, !Elided(node));
      ShownMeetingIsShownBelow(node, 0, d, path, k - 1);
      assert meetings[..k] == [here] + MeetingsBelow(node, 0, d)[..k - 1];
      ShownCountAppend([here], MeetingsBelow(node, 0, d)[..k - 1]);
      RefusedOne(here, 0);
    }
  }

  lemma {:induction false} ShownMeetingIsShownBelow(node: Node, i: nat, depth: nat, path: seq<int>, k: nat)
    requires i <= |node.children| && k < |MeetingsBelow(node, i, depth)| && MeetingsBelow(node, i, depth)[k].shown
    ensures var j := ShownCount(MeetingsBelow(node, i, depth)[..k]);
            && j < |FullBelow(node, i, depth, path)|
            && FullBelow(node, i, depth, path)[j].depth == MeetingsBelow(node, i, depth)[k].depth
    decreases node, |node.children| - i
  {
    if node.children[i].None? {
      ShownMeetingIsShownBelow(node, i + 1, depth, path, k);
    } else {
      var child := node.children[i].value;
      var first, rest := Meetings(child, depth), MeetingsBelow(node, i + 1, depth);
      if k < |first| {
        ShownMeetingIsShown(child, depth, path + [i], k);
        assert (first + rest)[..k] == first[..k];
      } else {
        ShownMeetingIsShownBelow(node, i + 1, depth, path, k - |first|);
        assert (first + rest)[..k] == first + rest[..k - |first|];
        ShownCountAppend(first, rest[..k - |first|]);
        ShownCountIsFull(child, depth, path + [i]);
      }
    }
  }

  // ---------------------------------------------------------------- a tree rendered whole and flagged

  const BLANK_PANEL := Node("panel", "panel", "", "", "", "", [], None, [])

  /** `n` nested lists around a blank panel. */
  function Nest(n: nat): Node {
    if n == 0 then BLANK_PANEL else Node("list", "list", "", "", "", "", [], None, [Some(Nest(n - 1))])
  }

  lemma {:induction false} NestIsFlagged(n: nat, depth: nat, path: seq<int>, k: nat)
    requires depth + n == MAX_DEPTH + 1 && k <= depth
    ensures Refusals(Nest(n), depth, path, k).truncated
    ensures Whole(Nest(n), depth, path) == Full(Nest(n), depth, path) && |Whole(Nest(n), depth, path)| == n
    decreases n
  {
    if n > 0 {
      NestIsFlagged(n - 1, depth + 1, path + [0], k + 1);
      assert WholeBelow(Nest(n), 1, depth + 1, path) == [] == FullBelow(Nest(n), 1, depth + 1, path);
    }
  }

  /** The flag may be raised although nothing is missing: what was refused would have been elided. */
  lemma TruncatedMayBeComplete()
    ensures exists root :: Refusals(root, 0, [], 0).truncated && Complete(root, [])
  {
    NestIsFlagged(MAX_DEPTH + 1, 0, [], 0);
  }
}
