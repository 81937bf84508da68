/**
 The build guard that keeps electron out of every chunk an entry without electron can reach
 (config/build-plugins/plain-node-entry-guard.ts).
 */
module EntryGuard {
  import opened Wrappers

  /** `requiresElectron` says whether the guard's pattern matches the chunk's code. */
  datatype Chunk = Chunk(fileName: string, name: string, isEntry: bool, requiresElectron: bool,
                         imports: seq<string>, dynamicImports: seq<string>)

  type Bundle = map<string, Chunk>

  predicate WellNamed(bundle: Bundle) {
    forall f :: f in bundle ==> bundle[f].fileName == f
  }

  predicate Imports(bundle: Bundle, f: string, g: string) {
    f in bundle && g in bundle[f].imports + bundle[f].dynamicImports
  }

  ghost predicate IsPath(bundle: Bundle, path: seq<string>) {
    path != [] && forall i :: 0 <= i < |path| - 1 ==> Imports(bundle, path[i], path[i + 1])
  }

  /** There is a chain of static and dynamic imports from one file to the other. */
  ghost predicate Reachable(bundle: Bundle, from: string, to: string) {
    exists path :: IsPath(bundle, path) && path[0] == from && path[|path| - 1] == to
  }

  lemma ReachesItself(bundle: Bundle, from: string)
    ensures Reachable(bundle, from, from)
  {
    assert IsPath(bundle, [from]);
  }

  lemma ReachesImports(bundle: Bundle, from: string, f: string, g: string)
    requires Reachable(bundle, from, f) && Imports(bundle, f, g)
    ensures Reachable(bundle, from, g)
  {
    var path :| IsPath(bundle, path) && path[0] == from && path[|path| - 1] == f;
    assert IsPath(bundle, path + [g]);
  }

  /** `done` holds `from` and everything that a file in it imports. */
  ghost predicate ClosedUnder(bundle: Bundle, from: string, done: set<string>) {
    from in done && forall f, g :: f in done && Imports(bundle, f, g) ==> g in done
  }

  lemma {:induction false} PathStaysInside(bundle: Bundle, path: seq<string>, done: set<string>)
    requires IsPath(bundle, path) && ClosedUnder(bundle, path[0], done)
    ensures path[|path| - 1] in done
    decreases |path|
  {
    if |path| > 1 {
      assert Imports(bundle, path[0], path[1]);
      assert IsPath(bundle, path[1..]);
      PathStaysInside(bundle, path[1..], done);
    }
  }

  lemma ClosedHoldsReachable(bundle: Bundle, from: string, done: set<string>)
    requires ClosedUnder(bundle, from, done)
    ensures forall f :: Reachable(bundle, from, f) ==> f in done
  {
    forall f | Reachable(bundle, from, f)
      ensures f in done
    {
      var path :| IsPath(bundle, path) && path[0] == from && path[|path| - 1] == f;
      PathStaysInside(bundle, path, done);
    }
  }

  predicate Lists(reachable: seq<Chunk>, f: string) {
    exists k :: 0 <= k < |reachable| && reachable[k].fileName == f
  }

  predicate NoRepeats(reachable: seq<Chunk>) {
    forall i, j :: 0 <= i < j < |reachable| ==> reachable[i].fileName != reachable[j].fileName
  }

  predicate FromBundle(bundle: Bundle, reachable: seq<Chunk>) {
    forall k :: 0 <= k < |reachable| ==>
      reachable[k].fileName in bundle && bundle[reachable[k].fileName] == reachable[k]
  }

  /** What is visited or waits is reachable; the entry and every import of a visited file is visited or waits. */
  ghost predicate Pending(bundle: Bundle, entry: string, seen: set<string>, stack: seq<string>) {
    && (forall f :: f in seen || f in stack ==> Reachable(bundle, entry, f))
    && (entry in seen || entry in stack)
    && (forall f, g :: f in seen && Imports(bundle, f, g) ==> g in seen || g in stack)
  }

  function StackAfter(bundle: Bundle, seen: set<string>, stack: seq<string>): seq<string>
    requires stack != []
  {
    var f := stack[|stack| - 1];
    var popped := stack[..|stack| - 1];
    if f in seen || f !in bundle then popped else popped + (bundle[f].imports + bundle[f].dynamicImports)
  }

  lemma VisitKeepsPending(bundle: Bundle, entry: string, seen: set<string>, stack: seq<string>)
    requires Pending(bundle, entry, seen, stack) && stack != []
    ensures Pending(bundle, entry, seen + {stack[|stack| - 1]}, StackAfter(bundle, seen, stack))
  {
    var f := stack[|stack| - 1];
    var popped := stack[..|stack| - 1];
    assert stack == popped + [f];
    assert f in stack;
    forall g | Imports(bundle, f, g)
      ensures Reachable(bundle, entry, g)
    {
      ReachesImports(bundle, entry, f, g);
    }
    forall g | g in StackAfter(bundle, seen, stack)
      ensures Reachable(bundle, entry, g)
    {
      assert g in popped || Imports(bundle, f, g);
    }
  }

  /** The chunks collected are the known ones among the files visited, each once. */
  ghost predicate Collected(bundle: Bundle, seen: set<string>, reachable: seq<Chunk>) {
    && FromBundle(bundle, reachable) && NoRepeats(reachable)
    && (forall f :: Lists(reachable, f) <==> f in seen && f in bundle)
  }

  lemma CollectsNothingUnknown(bundle: Bundle, seen: set<string>, reachable: seq<Chunk>, f: string)
    requires Collected(bundle, seen, reachable) && (f in seen || f !in bundle)
    ensures Collected(bundle, seen + {f}, reachable)
    ensures bundle.Keys - (seen + {f}) == bundle.Keys - seen
  {
  }

  lemma CollectsOneMore(bundle: Bundle, seen: set<string>, reachable: seq<Chunk>, f: string)
    requires WellNamed(bundle) && Collected(bundle, seen, reachable) && f !in seen && f in bundle
    ensures Collected(bundle, seen + {f}, reachable + [bundle[f]])
    ensures bundle.Keys - (seen + {f}) < bundle.Keys - seen
  {
    ListsOneMore(bundle, reachable, bundle[f]);
    assert f in bundle.Keys - seen;
  }

  lemma EverythingCollected(bundle: Bundle, entry: string, seen: set<string>, reachable: seq<Chunk>)
    requires Pending(bundle, entry, seen, []) && Collected(bundle, seen, reachable)
    ensures FromBundle(bundle, reachable) && NoRepeats(reachable)
    ensures forall f :: Lists(reachable, f) <==> f in bundle && Reachable(bundle, entry, f)
  {
    ClosedHoldsReachable(bundle, entry, seen);
  }

  /** Each known chunk the entry reaches, exactly once, and nothing else; also with cyclic or repeated imports. */
  method CollectReachableChunks(entry: Chunk, byFileName: Bundle) returns (reachable: seq<Chunk>)
    requires WellNamed(byFileName)
    ensures FromBundle(byFileName, reachable) && NoRepeats(reachable)
    ensures forall f :: Lists(reachable, f) <==> f in byFileName && Reachable(byFileName, entry.fileName, f)
  {
    var seen: set<string> := {};
    reachable := [];
    var stack := [entry.fileName];
    ReachesItself(byFileName, entry.fileName);
    while |stack| > 0
      invariant Collected(byFileName, seen, reachable)
      invariant Pending(byFileName, entry.fileName, seen, stack)
      decreases byFileName.Keys - seen, |stack|
    {
      VisitKeepsPending(byFileName, entry.fileName, seen, stack);
      ghost var seen0 := seen;
      var fileName := stack[|stack| - 1];
      stack := stack[..|stack| - 1];
      if fileName in seen {
        assert seen + {fileName} == seen;
        continue;
      }
      seen := seen + {fileName};
      if fileName !in byFileName {
        CollectsNothingUnknown(byFileName, seen0, reachable, fileName);
        continue;
      }
      CollectsOneMore(byFileName, seen0, reachable, fileName);
      var chunk := byFileName[fileName];
      reachable := reachable + [chunk];
      stack := PushAll(stack, chunk.imports + chunk.dynamicImports);
    }
    EverythingCollected(byFileName, entry.fileName, seen, reachable);
  }

  method PushAll(stack: seq<string>, imported: seq<string>) returns (pushed: seq<string>)
    ensures pushed == stack + imported
  {
    pushed := stack;
    for i := 0 to |imported|
      invariant pushed == stack + imported[..i]
    {
      pushed := pushed + [imported[i]];
    }
  }

  lemma ListsOneMore(bundle: Bundle, reachable: seq<Chunk>, chunk: Chunk)
    requires FromBundle(bundle, reachable) && NoRepeats(reachable)
    requires !Lists(reachable, chunk.fileName) && chunk.fileName in bundle && bundle[chunk.fileName] == chunk
    ensures FromBundle(bundle, reachable + [chunk]) && NoRepeats(reachable + [chunk])
    ensures forall f :: Lists(reachable + [chunk], f) <==> Lists(reachable, f) || f == chunk.fileName
  {
    forall f | Lists(reachable, f) || f == chunk.fileName
      ensures Lists(reachable + [chunk], f)
    {
      var k := if f == chunk.fileName then |reachable| else IndexIn(reachable, f);
      assert (reachable + [chunk])[k].fileName == f;
    }
  }

  ghost function IndexIn(reachable: seq<Chunk>, f: string): (k: int)
    requires Lists(reachable, f)
    ensures 0 <= k < |reachable| && reachable[k].fileName == f
  {
    var k :| 0 <= k < |reachable| && reachable[k].fileName == f;
    k
  }

  /** An entry's way to electron: a chunk it reaches that requires it. */
  ghost predicate Leaks(bundle: Bundle, entry: Chunk, chunk: Chunk) {
    && chunk.fileName in bundle && bundle[chunk.fileName] == chunk && chunk.requiresElectron
    && Reachable(bundle, entry.fileName, chunk.fileName)
  }

  /** Reports a leak if and only if there is one. */
  method AssertNoElectronRequire(entry: Chunk, byFileName: Bundle) returns (leak: Option<Chunk>)
    requires WellNamed(byFileName)
    ensures leak.Some? ==> Leaks(byFileName, entry, leak.value)
    ensures leak.None? ==> forall chunk :: !Leaks(byFileName, entry, chunk)
  {
    var reachable := CollectReachableChunks(entry, byFileName);
    for k := 0 to |reachable|
      invariant forall j :: 0 <= j < k ==> !reachable[j].requiresElectron
    {
      if reachable[k].requiresElectron {
        assert Lists(reachable, reachable[k].fileName);
        return Some(reachable[k]);
      }
    }
    return None;
  }

  /** Of the chunks with its file name the last. */
  predicate IsLast(chunks: seq<Chunk>, k: nat) {
    k < |chunks| && forall j :: k < j < |chunks| ==> chunks[j].fileName != chunks[k].fileName
  }

  /** The map built from the list in order: of chunks with one file name the last stays. */
  function ByFileName(chunks: seq<Chunk>): (bundle: Bundle)
    ensures WellNamed(bundle)
  {
    if chunks == [] then map[]
    else
      var last := chunks[|chunks| - 1];
      ByFileName(chunks[..|chunks| - 1])[last.fileName := last]
  }

  /** Every chunk that is the last of its name, entry or not, is in the map under that name. */
  lemma {:induction false} IndexesLast(chunks: seq<Chunk>, k: nat)
    requires IsLast(chunks, k)
    ensures chunks[k].fileName in ByFileName(chunks) && ByFileName(chunks)[chunks[k].fileName] == chunks[k]
    decreases |chunks|
  {
    var n := |chunks| - 1;
    if k < n {
      assert IsLast(chunks[..n], k);
      IndexesLast(chunks[..n], k);
    }
  }

  /** And nothing else is. */
  lemma {:induction false} IndexedIsLast(chunks: seq<Chunk>, f: string) returns (k: nat)
    requires f in ByFileName(chunks)
    ensures IsLast(chunks, k) && chunks[k] == ByFileName(chunks)[f]
    decreases |chunks|
  {
    k := |chunks| - 1;
    if f != chunks[k].fileName {
      var n := k;
      k := IndexedIsLast(chunks[..n], f);
      assert chunks[..n][k] == chunks[k];
    }
  }

  predicate IsNamedEntry(chunk: Chunk) {
    chunk.isEntry && chunk.name != ""
  }

  /** Of the entry chunks with that name the last. */
  predicate IsEntryOf(chunks: seq<Chunk>, e: nat, name: string) {
    && e < |chunks| && chunks[e].isEntry && chunks[e].name == name != ""
    && forall j :: e < j < |chunks| ==> !(chunks[j].isEntry && chunks[j].name == name)
  }

  function EntryByName(chunks: seq<Chunk>): (entries: map<string, Chunk>)
    ensures forall name :: name in entries ==> entries[name].name == name
  {
    if chunks == [] then map[]
    else
      var last := chunks[|chunks| - 1];
      var entries := EntryByName(chunks[..|chunks| - 1]);
      if IsNamedEntry(last) then entries[last.name := last] else entries
  }

  /** The map holds the last entry chunk of every name that an entry chunk has, and nothing else. */
  lemma {:induction false} IndexesLastEntries(chunks: seq<Chunk>)
    ensures forall e: nat, name :: IsEntryOf(chunks, e, name) ==>
              name in EntryByName(chunks) && EntryByName(chunks)[name] == chunks[e]
    ensures forall name :: name in EntryByName(chunks) ==>
              exists e: nat :: IsEntryOf(chunks, e, name) && EntryByName(chunks)[name] == chunks[e]
    decreases |chunks|
  {
    if chunks != [] {
      var n := |chunks| - 1;
      IndexesLastEntries(chunks[..n]);
      forall e: nat, name | IsEntryOf(chunks, e, name)
        ensures name in EntryByName(chunks) && EntryByName(chunks)[name] == chunks[e]
      {
        assert e < n ==> IsEntryOf(chunks[..n], e, name);
      }
      forall name | name in EntryByName(chunks)
        ensures exists e: nat :: IsEntryOf(chunks, e, name) && EntryByName(chunks)[name] == chunks[e]
      {
        if IsNamedEntry(chunks[n]) && chunks[n].name == name {
          assert IsEntryOf(chunks, n, name);
        } else {
          var e: nat :| IsEntryOf(chunks[..n], e, name) && EntryByName(chunks[..n])[name] == chunks[..n][e];
          assert IsEntryOf(chunks, e, name);
        }
      }
    }
  }

  method IndexEntries(chunks: seq<Chunk>) returns (entries: map<string, Chunk>)
    ensures entries == EntryByName(chunks)
  {
    entries := map[];
    for i := 0 to |chunks|
      invariant entries == EntryByName(chunks[..i])
    {
      assert chunks[..i + 1][..i] == chunks[..i];
      if chunks[i].isEntry && chunks[i].name != "" {
        entries := entries[chunks[i].name := chunks[i]];
      }
    }
    assert chunks[..|chunks|] == chunks;
  }

  ghost predicate EntryLeaks(chunks: seq<Chunk>, name: string, chunk: Chunk) {
    name in EntryByName(chunks) && Leaks(ByFileName(chunks), EntryByName(chunks)[name], chunk)
  }

  // ---------------------------------------------------------------- told of the list of chunks alone

  /** Each of these chunks is the last of its file name, and each but the first is imported by the one before it. */
  ghost predicate Chain(chunks: seq<Chunk>, ks: seq<nat>) {
    && ks != []
    && (forall i :: 0 <= i < |ks| ==> IsLast(chunks, ks[i]))
    && (forall i :: 0 <= i < |ks| - 1 ==>
          chunks[ks[i + 1]].fileName in chunks[ks[i]].imports
          || chunks[ks[i + 1]].fileName in chunks[ks[i]].dynamicImports)
  }

  /** A chain of imports leads from the file of the entry called `name` to this chunk, which requires electron. */
  ghost predicate LeadsToElectron(chunks: seq<Chunk>, name: string, chunk: Chunk) {
    exists e: nat, ks ::
      && IsEntryOf(chunks, e, name) && Chain(chunks, ks)
      && chunks[ks[0]].fileName == chunks[e].fileName
      && chunks[ks[|ks| - 1]] == chunk && chunk.requiresElectron
  }

  ghost function LastIndex(chunks: seq<Chunk>, f: string): (k: nat)
    requires f in ByFileName(chunks)
    ensures IsLast(chunks, k) && chunks[k] == ByFileName(chunks)[f] && chunks[k].fileName == f
  {
    assert exists k: nat :: IsLast(chunks, k) && ByFileName(chunks)[f] == chunks[k] by {
      var k := IndexedIsLast(chunks, f);
    }
    var k: nat :| IsLast(chunks, k) && ByFileName(chunks)[f] == chunks[k];
    k
  }

  lemma PathIsChain(chunks: seq<Chunk>, path: seq<string>) returns (ks: seq<nat>)
    requires IsPath(ByFileName(chunks), path) && path[|path| - 1] in ByFileName(chunks)
    ensures Chain(chunks, ks) && |ks| == |path|
    ensures forall i :: 0 <= i < |ks| ==> chunks[ks[i]].fileName == path[i]
  {
    var bundle := ByFileName(chunks);
    forall i | 0 <= i < |path|
      ensures path[i] in bundle
    {
      assert i < |path| - 1 ==> Imports(bundle, path[i], path[i + 1]);
    }
    ks := seq(|path|, i requires 0 <= i < |path| => LastIndex(chunks, path[i]));
    forall i | 0 <= i < |ks| - 1
      ensures chunks[ks[i + 1]].fileName in chunks[ks[i]].imports
              || chunks[ks[i + 1]].fileName in chunks[ks[i]].dynamicImports
    {
      assert Imports(bundle, path[i], path[i + 1]);
    }
  }

  lemma ChainIsPath(chunks: seq<Chunk>, ks: seq<nat>)
    requires Chain(chunks, ks)
    ensures Reachable(ByFileName(chunks), chunks[ks[0]].fileName, chunks[ks[|ks| - 1]].fileName)
  {
    var bundle := ByFileName(chunks);
    var path: seq<string> := seq(|ks|, i requires 0 <= i < |ks| => chunks[ks[i]].fileName);
    forall i | 0 <= i < |path| - 1
      ensures Imports(bundle, path[i], path[i + 1])
    {
      assert IsLast(chunks, ks[i]);
      IndexesLast(chunks, ks[i]);
    }
    assert IsPath(bundle, path);
  }

  lemma LeakIsChain(chunks: seq<Chunk>, name: string, chunk: Chunk)
    requires EntryLeaks(chunks, name, chunk)
    ensures LeadsToElectron(chunks, name, chunk)
  {
    IndexesLastEntries(chunks);
    var e: nat :| IsEntryOf(chunks, e, name) && EntryByName(chunks)[name] == chunks[e];
    var path :| IsPath(ByFileName(chunks), path) && path[0] == chunks[e].fileName && path[|path| - 1] == chunk.fileName;
    var ks := PathIsChain(chunks, path);
    IndexesLast(chunks, ks[|ks| - 1]);
  }

  lemma ChainIsLeak(chunks: seq<Chunk>, name: string, chunk: Chunk)
    requires LeadsToElectron(chunks, name, chunk)
    ensures EntryLeaks(chunks, name, chunk)
  {
    IndexesLastEntries(chunks);
    var e: nat, ks :| IsEntryOf(chunks, e, name) && Chain(chunks, ks)
                      && chunks[ks[0]].fileName == chunks[e].fileName
                      && chunks[ks[|ks| - 1]] == chunk && chunk.requiresElectron;
    ChainIsPath(chunks, ks);
    IndexesLast(chunks, ks[|ks| - 1]);
  }

  ghost predicate StaysClear(chunks: seq<Chunk>, name: string) {
    forall chunk :: !LeadsToElectron(chunks, name, chunk)
  }

  method GuardEntry(chunks: seq<Chunk>, bundle: Bundle, entries: map<string, Chunk>, name: string)
      returns (leak: Option<Chunk>)
    requires bundle == ByFileName(chunks) && entries == EntryByName(chunks)
    ensures leak.Some? ==> LeadsToElectron(chunks, name, leak.value)
    ensures leak.None? <==> StaysClear(chunks, name)
  {
    leak := None;
    if name in entries {
      leak := AssertNoElectronRequire(entries[name], bundle);
    }
    if leak.Some? {
      LeakIsChain(chunks, name, leak.value);
    } else {
      forall chunk | LeadsToElectron(chunks, name, chunk)
        ensures false
      {
        ChainIsLeak(chunks, name, chunk);
      }
    }
  }

  datatype Verdict = Passes | Fails(entryName: string, chunk: Chunk)

  /** The build passes exactly when no guarded entry that is in the bundle reaches a chunk requiring electron. */
  method WriteBundle(chunks: seq<Chunk>, guarded: seq<string>) returns (verdict: Verdict)
    ensures verdict.Passes? <==> forall name :: name in guarded ==> StaysClear(chunks, name)
    ensures verdict.Fails? ==>
              verdict.entryName in guarded && LeadsToElectron(chunks, verdict.entryName, verdict.chunk)
  {
    var bundle := ByFileName(chunks);
    var entries := IndexEntries(chunks);
    for i := 0 to |guarded|
      invariant forall j :: 0 <= j < i ==> StaysClear(chunks, guarded[j])
    {
      var leak := GuardEntry(chunks, bundle, entries, guarded[i]);
      if leak.Some? {
        assert guarded[i] in guarded && !StaysClear(chunks, guarded[i]);
        return Fails(guarded[i], leak.value);
      }
    }
    return Passes;
  }
}
