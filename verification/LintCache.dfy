/**
  The clang-tidy result cache of scripts/lint-cache.py, as scripts/lint.sh
  drives it: a translation unit is left out of a lint pass when a file named
  after the hash of its salt and dependencies exists in the cache directory.
 */
module LintCache {
  import opened Outcomes
  import opened PyText
  import opened LintMessage

  // --- Keys ---------------------------------------------------------------------------

  /** The files, the dependency records of the last build, and the salt. */
  datatype Tree = Tree(root: string, files: map<string, string>, deps: map<string, seq<string>>, salt: string)

  /** The file a record's entry names, relative to the repository. */
  function Resolve(root: string, f: string): string
  {
    if f != [] && f[0] == '/' then f else root + "/" + f
  }

  function Lookup(files: map<string, string>, path: string): Option<string>
  {
    if path in files then Some(files[path]) else None
  }

  function Entries(tree: Tree, names: seq<string>): (view: View)
    ensures |view| == |names|
  {
    seq(|names|, k requires 0 <= k < |names| => Entry(names[k], Lookup(tree.files, Resolve(tree.root, names[k]))))
  }

  function Record(tree: Tree, tu: string): seq<string>
  {
    if tu in tree.deps then tree.deps[tu] else []
  }

  /** What the lint result of a unit depends on: the salt and its dependencies' contents. */
  datatype Snapshot = Snapshot(tu: string, salt: string, view: View)

  function SnapshotOf(tree: Tree, tu: string): Snapshot
  {
    Snapshot(tu, tree.salt, Entries(tree, Sorted(Record(tree, tu))))
  }

  function Message(sha: string -> string, snap: Snapshot): string
  {
    snap.salt + Body(sha, snap.view)
  }

  /** The key of a unit, or none when it must be linted regardless. */
  function Key(sha: string -> string, tree: Tree, tu: string): Option<string>
  {
    if Record(tree, tu) == [] then None else Some(sha(Message(sha, SnapshotOf(tree, tu))))
  }

  /** `_file_hashes`. */
  method FileHashes(sha: string -> string, tree: Tree, paths: set<string>) returns (out: map<string, string>)
    ensures out.Keys == paths
    ensures forall p :: p in paths ==> out[p] == HashOf(sha, Lookup(tree.files, p))
  {
    out := map[];
    var todo := paths;
    while todo != {}
      invariant todo <= paths && out.Keys == paths - todo
      invariant forall p :: p in out ==> out[p] == HashOf(sha, Lookup(tree.files, p))
    {
      var p :| p in todo;
      todo := todo - {p};
      if p in tree.files {
        out := out[p := sha(tree.files[p])];
      } else {
        out := out[p := MISSING];
      }
    }
  }

  /** The files named by the records of the units. */
  method Wanted(tree: Tree, tus: seq<string>) returns (wanted: set<string>)
    ensures forall tu, f :: tu in tus && f in Record(tree, tu) ==> Resolve(tree.root, f) in wanted
  {
    wanted := {};
    for i := 0 to |tus|
      invariant forall tu, f :: tu in tus[..i] && f in Record(tree, tu) ==> Resolve(tree.root, f) in wanted
    {
      var rec := Record(tree, tus[i]);
      ghost var before := wanted;
      for k := 0 to |rec|
        invariant before <= wanted
        invariant forall j :: 0 <= j < k ==> Resolve(tree.root, rec[j]) in wanted
      {
        wanted := wanted + {Resolve(tree.root, rec[k])};
      }
    }
    assert tus[..|tus|] == tus;
  }

  /** The text hashed for one unit, built piece by piece. */
  method KeyText(sha: string -> string, tree: Tree, names: seq<string>, hashes: map<string, string>)
    returns (text: string)
    requires forall p :: p in hashes ==> hashes[p] == HashOf(sha, Lookup(tree.files, p))
    requires forall k :: 0 <= k < |names| ==> Resolve(tree.root, names[k]) in hashes
    ensures text == tree.salt + Body(sha, Entries(tree, names))
  {
    text := tree.salt;
    for k := 0 to |names|
      invariant text + Body(sha, Entries(tree, names[k..])) == tree.salt + Body(sha, Entries(tree, names))
    {
      BodyAt(sha, tree, names, k, text);
      text := text + names[k] + hashes[Resolve(tree.root, names[k])];
    }
  }

  lemma BodyAt(sha: string -> string, tree: Tree, names: seq<string>, k: nat, text: string)
    requires k < |names|
    ensures text + Body(sha, Entries(tree, names[k..])) ==
      text + names[k] + HashOf(sha, Lookup(tree.files, Resolve(tree.root, names[k])))
      + Body(sha, Entries(tree, names[k + 1..]))
  {
    var view := Entries(tree, names[k..]);
    var h, rest := HashOf(sha, view[0].contents), Entries(tree, names[k + 1..]);
    assert view[1..] == rest;
    assert Body(sha, view) == names[k] + h + Body(sha, rest);
    assert text + (names[k] + h + Body(sha, rest)) == text + names[k] + h + Body(sha, rest);
  }

  /** `_keys`. */
  method Keys(sha: string -> string, tree: Tree, tus: seq<string>) returns (keys: map<string, Option<string>>)
    ensures forall tu :: tu in tus ==> tu in keys && keys[tu] == Key(sha, tree, tu)
  {
    var wanted := Wanted(tree, tus);
    var hashes := FileHashes(sha, tree, wanted);
    keys := map[];
    for i := 0 to |tus|
      invariant forall k :: 0 <= k < i ==> tus[k] in keys && keys[tus[k]] == Key(sha, tree, tus[k])
    {
      var tu := tus[i];
      assert tu in tus;
      var rec := Record(tree, tu);
      if rec == [] {
        keys := keys[tu := None];
      } else {
        var names := Sorted(rec);
        forall k | 0 <= k < |names|
          ensures Resolve(tree.root, names[k]) in hashes
        {
          assert names[k] in names;
        }
        var text := KeyText(sha, tree, names, hashes);
        keys := keys[tu := Some(sha(text))];
      }
    }
  }

  // --- The cache directory --------------------------------------------------------------

  predicate MustLint(sha: string -> string, tree: Tree, entries: set<string>, tu: string)
  {
    var key := Key(sha, tree, tu);
    key == None || key.value !in entries
  }

  /** The units a filter prints. */
  function Needed(sha: string -> string, tree: Tree, entries: set<string>, noCache: bool, tus: seq<string>): seq<string>
  {
    if tus == [] then []
    else if noCache || MustLint(sha, tree, entries, tus[0]) then
      [tus[0]] + Needed(sha, tree, entries, noCache, tus[1..])
    else Needed(sha, tree, entries, noCache, tus[1..])
  }

  lemma {:induction false} NeededMembers(sha: string -> string, tree: Tree, entries: set<string>, noCache: bool, tus: seq<string>)
    ensures forall tu ::
      tu in Needed(sha, tree, entries, noCache, tus) <==> tu in tus && (noCache || MustLint(sha, tree, entries, tu))
  {
    if tus != [] {
      NeededMembers(sha, tree, entries, noCache, tus[1..]);
      assert tus == [tus[0]] + tus[1..];
    }
  }

  /** One turn of the filter loop behind what is already printed. */
  lemma NeededAt(sha: string -> string, tree: Tree, entries: set<string>, tus: seq<string>, i: nat, need: seq<string>)
    requires i < |tus|
    ensures need + Needed(sha, tree, entries, false, tus[i..]) ==
      (if MustLint(sha, tree, entries, tus[i]) then need + [tus[i]] else need)
      + Needed(sha, tree, entries, false, tus[i + 1..])
  {
    assert tus[i..][1..] == tus[i + 1..];
  }

  /** The keys of the units that have one. */
  function KeySet(sha: string -> string, tree: Tree, tus: seq<string>): (r: set<string>)
    ensures forall key :: key in r ==> exists tu :: tu in tus && Key(sha, tree, tu) == Some(key)
  {
    if tus == [] then {}
    else
      (if Key(sha, tree, tus[0]).Some? then {Key(sha, tree, tus[0]).value} else {}) + KeySet(sha, tree, tus[1..])
  }

  lemma KeySetAt(sha: string -> string, tree: Tree, tus: seq<string>, i: nat, entries: set<string>)
    requires i < |tus|
    ensures entries + KeySet(sha, tree, tus[i..]) ==
      (if Key(sha, tree, tus[i]).Some? then entries + {Key(sha, tree, tus[i]).value} else entries)
      + KeySet(sha, tree, tus[i + 1..])
  {
    assert tus[i..][1..] == tus[i + 1..];
  }

  class CacheDir {
    var entries: set<string>

    constructor ()
      ensures entries == {}
    {
      entries := {};
    }

    /** `filter`. */
    method Filter(sha: string -> string, tree: Tree, noCache: bool, tus: seq<string>) returns (need: seq<string>)
      ensures need == Needed(sha, tree, entries, noCache, tus)
    {
      if noCache {
        AllNeeded(sha, tree, entries, tus);
        return tus;
      }
      var keys := Keys(sha, tree, tus);
      need := [];
      for i := 0 to |tus|
        invariant need + Needed(sha, tree, entries, false, tus[i..]) == Needed(sha, tree, entries, false, tus)
      {
        assert tus[i] in tus;
        NeededAt(sha, tree, entries, tus, i, need);
        var key := keys[tus[i]];
        if key == None || key.value !in entries {
          need := need + [tus[i]];
        }
      }
    }

    /** `record`. */
    method Record(sha: string -> string, tree: Tree, tus: seq<string>)
      modifies this
      ensures entries == old(entries) + KeySet(sha, tree, tus)
    {
      var keys := Keys(sha, tree, tus);
      for i := 0 to |tus|
        invariant entries + KeySet(sha, tree, tus[i..]) == old(entries) + KeySet(sha, tree, tus)
      {
        assert tus[i] in tus;
        KeySetAt(sha, tree, tus, i, entries);
        var key := keys[tus[i]];
        if key.Some? {
          entries := entries + {key.value};
        }
      }
    }
  }

  lemma {:induction false} AllNeeded(sha: string -> string, tree: Tree, entries: set<string>, tus: seq<string>)
    ensures Needed(sha, tree, entries, true, tus) == tus
  {
    if tus != [] {
      AllNeeded(sha, tree, entries, tus[1..]);
    }
  }

  // --- Whole runs -------------------------------------------------------------------------

  datatype World = World(tree: Tree, entries: set<string>)

  /**
    What happens between and during lint runs. A pass filters, lints what is
    needed and, if there is no finding, records it, with no edit in between.
   */
  datatype Step =
    | Edit(path: string, contents: Option<string>)
    | Rebuild(rule: seq<string>)
    | Resalt(salt: string)
    | Pass(tus: seq<string>, noCache: bool)

  /** Every unit linted in a pass is free of findings. */
  predicate BatchClean(tidy: Snapshot -> bool, tree: Tree, tus: seq<string>)
  {
    forall k :: 0 <= k < |tus| ==> tidy(SnapshotOf(tree, tus[k]))
  }

  /** `tidy` is the checker: whether a unit with that salt and those dependencies has no finding. */
  function Do(sha: string -> string, tidy: Snapshot -> bool, w: World, step: Step): World
  {
    match step
    case Edit(path, contents) =>
      var files := if contents.Some? then w.tree.files[path := contents.value] else w.tree.files - {path};
      w.(tree := w.tree.(files := files))
    case Rebuild(rule) =>
      // A record is filed under its first prerequisite, the source.
      if rule == [] then w else w.(tree := w.tree.(deps := w.tree.deps[rule[0] := rule]))
    case Resalt(salt) => w.(tree := w.tree.(salt := salt))
    case Pass(tus, noCache) =>
      var need := Needed(sha, w.tree, w.entries, noCache, tus);
      if BatchClean(tidy, w.tree, need) then w.(entries := w.entries + KeySet(sha, w.tree, need)) else w
  }

  function Run(sha: string -> string, tidy: Snapshot -> bool, w: World, steps: seq<Step>): World
  {
    if steps == [] then w else Do(sha, tidy, Run(sha, tidy, w, steps[..|steps| - 1]), steps[|steps| - 1])
  }

  // What each step does, and that linting is remembered.

  lemma EditChangesOneFile(sha: string -> string, tidy: Snapshot -> bool, w: World, path: string, contents: Option<string>, other: string)
    ensures var now := Do(sha, tidy, w, Edit(path, contents));
      && Lookup(now.tree.files, path) == contents && (other != path ==> Lookup(now.tree.files, other) == Lookup(w.tree.files, other))
      && now == World(Tree(w.tree.root, now.tree.files, w.tree.deps, w.tree.salt), w.entries)
  {
  }

  /** A build files its record under the source, the first prerequisite. */
  lemma RebuildFilesRecord(sha: string -> string, tidy: Snapshot -> bool, w: World, rule: seq<string>, other: string)
    requires rule != []
    ensures var now := Do(sha, tidy, w, Rebuild(rule));
      && Record(now.tree, rule[0]) == rule && (other != rule[0] ==> Record(now.tree, other) == Record(w.tree, other))
      && now.entries == w.entries && now.tree.files == w.tree.files && now.tree.salt == w.tree.salt
  {
  }

  lemma {:induction false} KeySetHas(sha: string -> string, tree: Tree, tus: seq<string>, tu: string)
    requires tu in tus && Key(sha, tree, tu).Some?
    ensures Key(sha, tree, tu).value in KeySet(sha, tree, tus)
  {
    if tus[0] != tu {
      assert tu in tus[1..];
      KeySetHas(sha, tree, tus[1..], tu);
    }
  }

  /** After a clean pass none of its units with a dependency record is linted again, as long as nothing changes. */
  lemma CleanPassIsRemembered(sha: string -> string, tidy: Snapshot -> bool, w: World, tus: seq<string>, noCache: bool, tu: string)
    requires tu in tus && Record(w.tree, tu) != [] && BatchClean(tidy, w.tree, Needed(sha, w.tree, w.entries, noCache, tus))
    ensures var now := Do(sha, tidy, w, Pass(tus, noCache));
      now.tree == w.tree && w.entries <= now.entries && tu !in Needed(sha, now.tree, now.entries, false, tus)
  {
    var need := Needed(sha, w.tree, w.entries, noCache, tus);
    var entries := w.entries + KeySet(sha, w.tree, need);
    assert Do(sha, tidy, w, Pass(tus, noCache)) == World(w.tree, entries);
    NeededMembers(sha, w.tree, w.entries, noCache, tus);
    LintedIsRemembered(sha, w.tree, w.entries, need, tu);
    NeededMembers(sha, w.tree, entries, false, tus);
  }

  lemma LintedIsRemembered(sha: string -> string, tree: Tree, entries: set<string>, need: seq<string>, tu: string)
    requires Record(tree, tu) != [] && (tu in need || !MustLint(sha, tree, entries, tu))
    ensures !MustLint(sha, tree, entries + KeySet(sha, tree, need), tu)
  {
    if tu in need {
      KeySetHas(sha, tree, need, tu);
    }
  }

  /** A pass with a finding remembers nothing; one without remembers only what it linted. */
  lemma PassRemembersOnlyLinted(sha: string -> string, tidy: Snapshot -> bool, w: World, tus: seq<string>, noCache: bool, key: string)
    requires key in Do(sha, tidy, w, Pass(tus, noCache)).entries && key !in w.entries
    ensures exists tu :: tu in tus && Key(sha, w.tree, tu) == Some(key) && tidy(SnapshotOf(w.tree, tu))
  {
    var need := Needed(sha, w.tree, w.entries, noCache, tus);
    NeededMembers(sha, w.tree, w.entries, noCache, tus);
    var tu :| tu in need && Key(sha, w.tree, tu) == Some(key);
    var k :| 0 <= k < |need| && need[k] == tu;
    assert tidy(SnapshotOf(w.tree, need[k]));
  }

  lemma RunIsStepwise(sha: string -> string, tidy: Snapshot -> bool, w: World, steps: seq<Step>, last: Step)
    ensures Run(sha, tidy, w, []) == w && Run(sha, tidy, w, steps + [last]) == Do(sha, tidy, Run(sha, tidy, w, steps), last)
  {
    assert (steps + [last])[..|steps|] == steps;
  }

  /**
    The run's surroundings: the unit each head of salt and sorted dependency
    list belongs to, and the strings that get hashed.
   */
  datatype Setting = Setting(owner: map<Head, string>, hashed: set<string>)

  function HeadOf(snap: Snapshot): Head
  {
    Head(snap.salt, Paths(snap.view))
  }

  /** The snapshot's head is its unit's own, and all that is hashed for it is accounted for. */
  ghost predicate Known(sha: string -> string, env: Setting, snap: Snapshot)
  {
    && HeadOf(snap) in env.owner && env.owner[HeadOf(snap)] == snap.tu
    && Contents(snap.view) <= env.hashed && Message(sha, snap) in env.hashed
  }

  /** So it is with every unit of the list that has a dependency record. */
  ghost predicate AllKnown(sha: string -> string, env: Setting, tree: Tree, tus: seq<string>)
  {
    forall tu :: tu in tus && Record(tree, tu) != [] ==> Known(sha, env, SnapshotOf(tree, tu))
  }

  /** No digest collides and no two heads of the run can be confused. */
  ghost predicate GoodSetting(sha: string -> string, env: Setting)
  {
    && IsHash(sha) && CollisionFree(sha, env.hashed)
    && (forall a, b :: a in env.owner && b in env.owner && Confusable(a, b) ==> a == b)
  }

  /** It is enough that salts end in a line break and paths are good. */
  lemma GoodHeadsMakeGoodSetting(sha: string -> string, env: Setting, paths: set<string>)
    requires IsHash(sha) && CollisionFree(sha, env.hashed) && GoodPaths(paths)
    requires forall h :: h in env.owner ==> GoodSalt(h.salt) && AllIn(h.paths, paths)
    ensures GoodSetting(sha, env)
  {
    forall a, b | a in env.owner && b in env.owner && Confusable(a, b)
      ensures a == b
    {
      GoodHeadsApart(a, b, paths);
    }
  }

  /** A C++ header beside the C header it continues, as this tree has several, is no obstacle. */
  lemma SiblingHeadersAreGood(header: string)
    requires '\n' !in header
    ensures GoodPaths({header, header + "pp"})
  {
    var hpp := header + "pp";
    assert |hpp| == |header| + 2 && hpp[|header|] == 'p';
  }

  /** Every entry of the cache stands for a snapshot without findings. */
  ghost predicate Sound(sha: string -> string, tidy: Snapshot -> bool, env: Setting, entries: set<string>)
  {
    forall key :: key in entries ==> exists snap :: Known(sha, env, snap) && tidy(snap) && key == sha(Message(sha, snap))
  }

  /** A snapshot is determined by its key. */
  lemma KeyDetermines(sha: string -> string, env: Setting, a: Snapshot, b: Snapshot)
    requires GoodSetting(sha, env) && Known(sha, env, a) && Known(sha, env, b)
    requires sha(Message(sha, a)) == sha(Message(sha, b))
    ensures a == b
  {
    EqualMessagesConfuse(sha, a.salt, a.view, b.salt, b.view);
    assert HeadOf(a) == HeadOf(b);
    SamePrefix(a.salt, Body(sha, a.view), Body(sha, b.view));
    SamePaths(a.view, b.view);
    FixedPathsDecode(sha, a.view, b.view, env.hashed);
  }

  lemma SamePaths(v: View, w: View)
    requires Paths(v) == Paths(w)
    ensures |v| == |w| && forall k :: 0 <= k < |v| ==> v[k].path == w[k].path
  {
    forall k | 0 <= k < |v|
      ensures v[k].path == w[k].path
    {
      assert Paths(v)[k] == Paths(w)[k];
    }
  }

  /** Every step keeps the cache sound. */
  lemma StepKeepsSound(sha: string -> string, tidy: Snapshot -> bool, env: Setting, w: World, step: Step)
    requires Sound(sha, tidy, env, w.entries)
    requires step.Pass? ==> AllKnown(sha, env, w.tree, step.tus)
    ensures Sound(sha, tidy, env, Do(sha, tidy, w, step).entries)
  {
    if step.Pass? {
      var need := Needed(sha, w.tree, w.entries, step.noCache, step.tus);
      NeededMembers(sha, w.tree, w.entries, step.noCache, step.tus);
      forall key | key in KeySet(sha, w.tree, need) && BatchClean(tidy, w.tree, need)
        ensures exists snap :: Known(sha, env, snap) && tidy(snap) && key == sha(Message(sha, snap))
      {
        var tu :| tu in need && Key(sha, w.tree, tu) == Some(key);
        var k :| 0 <= k < |need| && need[k] == tu;
        assert tidy(SnapshotOf(w.tree, tu));
      }
    }
  }

  /** A unit whose key is in a sound cache has no finding. */
  lemma SkipIsRight(sha: string -> string, tidy: Snapshot -> bool, env: Setting, w: World, tu: string)
    requires GoodSetting(sha, env) && Sound(sha, tidy, env, w.entries)
    requires !MustLint(sha, w.tree, w.entries, tu) && Known(sha, env, SnapshotOf(w.tree, tu))
    ensures tidy(SnapshotOf(w.tree, tu))
  {
    var key := Key(sha, w.tree, tu).value;
    var snap :| Known(sha, env, snap) && tidy(snap) && key == sha(Message(sha, snap));
    KeyDetermines(sha, env, snap, SnapshotOf(w.tree, tu));
  }

  /** At every pass, the units it is given are known. */
  ghost predicate KnownRun(sha: string -> string, tidy: Snapshot -> bool, env: Setting, w: World, steps: seq<Step>)
  {
    forall k :: 0 <= k < |steps| && steps[k].Pass? ==>
      AllKnown(sha, env, Run(sha, tidy, w, steps[..k]).tree, steps[k].tus)
  }

  lemma {:induction false} RunKeepsSound(sha: string -> string, tidy: Snapshot -> bool, env: Setting, w: World, steps: seq<Step>)
    requires w.entries == {} && KnownRun(sha, tidy, env, w, steps)
    ensures Sound(sha, tidy, env, Run(sha, tidy, w, steps).entries)
  {
    if steps != [] {
      var n := |steps| - 1;
      var before := steps[..n];
      forall k | 0 <= k < n && before[k].Pass?
        ensures AllKnown(sha, env, Run(sha, tidy, w, before[..k]).tree, before[k].tus)
      {
        assert before[..k] == steps[..k] && before[k] == steps[k];
      }
      RunKeepsSound(sha, tidy, env, w, before);
      StepKeepsSound(sha, tidy, env, Run(sha, tidy, w, before), steps[n]);
    }
  }

  /**
    A skip is never wrong: after any run of edits, rebuilds, salt changes and
    lint passes, failed or clean, that began with an empty cache, a unit that a
    filter leaves out is one the checker would find nothing in. The heads of
    the units linted must not be confusable; nothing is asked of other records.
   */
  lemma SkipIsNeverWrong(sha: string -> string, tidy: Snapshot -> bool, env: Setting, w: World, steps: seq<Step>,
                         tus: seq<string>, tu: string)
    requires GoodSetting(sha, env) && w.entries == {} && KnownRun(sha, tidy, env, w, steps)
    requires tu in tus && AllKnown(sha, env, Run(sha, tidy, w, steps).tree, tus)
    ensures var now := Run(sha, tidy, w, steps);
      tu !in Needed(sha, now.tree, now.entries, false, tus) ==> tidy(SnapshotOf(now.tree, tu))
  {
    var now := Run(sha, tidy, w, steps);
    RunKeepsSound(sha, tidy, env, w, steps);
    NeededMembers(sha, now.tree, now.entries, false, tus);
    if tu !in Needed(sha, now.tree, now.entries, false, tus) {
      SkipIsRight(sha, tidy, env, now, tu);
    }
  }

  /** Recording a unit makes another one skipped, on this tree or a later one, if and only if their messages are equal. */
  lemma SkipIffSameMessage(sha: string -> string, tree: Tree, tu: string, later: Tree, other: string, hashed: set<string>)
    requires Record(tree, tu) != [] && Record(later, other) != [] && CollisionFree(sha, hashed)
    requires Message(sha, SnapshotOf(tree, tu)) in hashed && Message(sha, SnapshotOf(later, other)) in hashed
    ensures !MustLint(sha, later, KeySet(sha, tree, [tu]), other)
      <==> Message(sha, SnapshotOf(tree, tu)) == Message(sha, SnapshotOf(later, other))
  {
    assert [tu][1..] == [];
    assert KeySet(sha, tree, [tu]) == {sha(Message(sha, SnapshotOf(tree, tu)))};
  }

  /** Two units of one tree share a key if and only if their records name the same files, in whatever order. */
  lemma SharedKeyIff(sha: string -> string, tree: Tree, tu: string, other: string, paths: set<string>, hashed: set<string>)
    requires IsHash(sha) && CollisionFree(sha, hashed) && GoodPaths(paths)
    requires Record(tree, tu) != [] && Record(tree, other) != []
    requires AllIn(Record(tree, tu), paths) && AllIn(Record(tree, other), paths)
    requires Contents(SnapshotOf(tree, tu).view) <= hashed && Contents(SnapshotOf(tree, other).view) <= hashed
    requires Message(sha, SnapshotOf(tree, tu)) in hashed && Message(sha, SnapshotOf(tree, other)) in hashed
    ensures Key(sha, tree, tu) == Key(sha, tree, other) <==> multiset(Record(tree, tu)) == multiset(Record(tree, other))
  {
    SortedIff(Record(tree, tu), Record(tree, other));
    var a, b := SnapshotOf(tree, tu), SnapshotOf(tree, other);
    RecordWithin(tree, Record(tree, tu), paths, hashed);
    RecordWithin(tree, Record(tree, other), paths, hashed);
    if Key(sha, tree, tu) == Key(sha, tree, other) {
      SamePrefix(tree.salt, Body(sha, a.view), Body(sha, b.view));
      BodyDecodes(sha, a.view, b.view, paths, hashed);
    }
  }

  lemma RecordWithin(tree: Tree, rec: seq<string>, paths: set<string>, hashed: set<string>)
    requires AllIn(rec, paths) && Contents(Entries(tree, Sorted(rec))) <= hashed
    ensures Within(Entries(tree, Sorted(rec)), paths, hashed) && Paths(Entries(tree, Sorted(rec))) == Sorted(rec)
  {
    var names := Sorted(rec);
    forall k | 0 <= k < |names|
      ensures names[k] in paths
    {
      assert names[k] in names;
    }
    assert Paths(Entries(tree, names)) == names;
  }

  /** As two units do that include each other's source. */
  lemma MutualIncludesShareKey(sha: string -> string, tree: Tree, a: string, b: string)
    requires a in tree.deps && tree.deps[a] == [a, b] && b in tree.deps && tree.deps[b] == [b, a]
    ensures Key(sha, tree, a) == Key(sha, tree, b)
  {
    assert multiset([a, b]) == multiset([b, a]);
    SortedIff([a, b], [b, a]);
  }

  /**
    What a snapshot shows of each file of the record: what is found under its
    name, below the root unless the name is absolute, or that nothing is.
   */
  lemma SnapshotShows(tree: Tree, tu: string, f: string)
    requires tu in tree.deps && f in tree.deps[tu] && f != ""
    ensures var path := if f[0] == '/' then f else tree.root + "/" + f;
      Entry(f, if path in tree.files then Some(tree.files[path]) else None) in SnapshotOf(tree, tu).view
  {
    var names := Sorted(tree.deps[tu]);
    assert f in names;
    var k :| 0 <= k < |names| && names[k] == f;
    assert Entries(tree, names)[k] in Entries(tree, names);
  }

  /** And it shows nothing else. */
  lemma SnapshotShowsOnly(tree: Tree, tu: string, e: Entry)
    requires e in SnapshotOf(tree, tu).view
    ensures tu in tree.deps && e.path in tree.deps[tu] && SnapshotOf(tree, tu).salt == tree.salt
  {
    var names := Sorted(Record(tree, tu));
    var k :| 0 <= k < |names| && Entries(tree, names)[k] == e;
    assert names[k] in names;
  }
}
