/** Files that a pool loads from its database on demand: when loading a file brings everything it
    imports, in whatever order the imports are met. */
module Loading {
  import opened Protos
  import opened Wrappers
  import opened Tables
  import opened Builder
  import opened BuildSpec

  /** Building the file may add this symbol. */
  predicate MayAdd(p: Proto, k: string, s: Symbol) {
    && s.file == p.name
    && ((s.kind == Package && k <= p.package) || (k, s) in DeclaredBy(p))
  }

  function DeclaredBy(p: Proto): Pairs {
    DeclaredAll(p.package, p.decls, p.name)
  }

  predicate Defines(c: Contents, pair: (string, Symbol)) {
    pair.0 in c.symbols && c.symbols[pair.0].value == pair.1
  }

  /** `now` is `c` with some files of the plan added, and nothing else. */
  predicate LoadedFrom(files: map<string, Proto>, c: Contents, now: Contents, plan: seq<string>) {
    FilesLoaded(files, c, now, plan) && SymbolsLoaded(files, c, now)
  }

  predicate FilesLoaded(files: map<string, Proto>, c: Contents, now: Contents, plan: seq<string>) {
    forall f | f in now.files && f !in c.files ::
      && f in plan && f in files && Present(now, files[f])
      && forall i | 0 <= i < |DeclaredBy(files[f])| :: Defines(now, DeclaredBy(files[f])[i])
  }

  predicate SymbolsLoaded(files: map<string, Proto>, c: Contents, now: Contents) {
    forall k | k in now.symbols && k !in c.symbols ::
      var f := now.symbols[k].value.file;
      f in now.files && f !in c.files && f in files && MayAdd(files[f], k, now.symbols[k].value)
  }

  /** Whichever other files of the plan have been loaded, this one can be built once all its
      imports are there. */
  ghost predicate CanFollow(options: Options, files: map<string, Proto>, c: Contents, plan: seq<string>, name: string)
    requires name in files
  {
    forall now: Contents |
      && Kept(options, c, now) && LoadedFrom(files, c, now, plan)
      && name !in now.files && AllThere(files[name].dependencies, now.files.Keys) ::
      Buildable(options, now, files[name])
  }

  predicate AllThere(names: seq<string>, files: set<string>) {
    forall i | 0 <= i < |names| :: names[i] in files
  }

  /** The database has the files of the plan, each after all that it imports, and without
      conflicts between them and the pool. */
  ghost predicate Loadable(options: Options, files: map<string, Proto>, c: Contents, plan: seq<string>) {
    && (forall j, k | 0 <= j < k < |plan| :: plan[j] != plan[k])
    && forall k | 0 <= k < |plan| ::
         && plan[k] in files && files[plan[k]].name == plan[k]
         && (forall d | d in files[plan[k]].dependencies :: d in c.files || d in plan[..k])
         && CanFollow(options, files, c, plan, plan[k])
  }

  /** The plan that is followed, from the contents at its start. */
  datatype Goal = Goal(start: Contents, plan: seq<string>)

  /** The plan has been followed so far, and nothing stands in the way of its first `n` files. */
  ghost predicate Following(options: Options, files: map<string, Proto>, goal: Goal, n: nat,
                            now: Contents, bad: set<string>, pending: seq<string>)
  {
    && n <= |goal.plan|
    && Loadable(options, files, goal.start, goal.plan)
    && Kept(options, goal.start, now) && LoadedFrom(files, goal.start, now, goal.plan)
    && forall j | 0 <= j < n :: goal.plan[j] !in bad && goal.plan[j] !in pending
  }

  /** From `before` to `now` nothing but the first `n` files of the plan has been added. */
  predicate OnlyAdded(goal: Goal, n: nat, before: Contents, now: Contents)
    requires n <= |goal.plan|
  {
    forall f | f in now.files && f !in before.files :: f in goal.plan[..n]
  }

  /** The imports of a file of the plan are loaded while it is pending. */
  lemma WhilePending(options: Options, files: map<string, Proto>, goal: Goal, k: nat,
                     now: Contents, bad: set<string>, pending: seq<string>)
    requires Following(options, files, goal, k + 1, now, bad, pending)
    ensures Importing(options, files, goal, k, 0, now, now, bad, pending + [goal.plan[k]])
  {
    hide Kept, LoadedFrom, CanFollow;
  }

  /** When all of them have been loaded it is the file's own turn. */
  lemma NoLongerPending(options: Options, files: map<string, Proto>, goal: Goal, k: nat, entry: Contents,
                        now: Contents, bad: set<string>, pending: seq<string>)
    requires k < |goal.plan| && goal.plan[k] in files && goal.plan[k] !in bad && goal.plan[k] !in pending
    requires Importing(options, files, goal, k, |files[goal.plan[k]].dependencies|, entry, now, bad,
                       pending + [goal.plan[k]])
    ensures Following(options, files, goal, k + 1, now, bad, pending)
    ensures OnlyAdded(goal, k, entry, now) && AllThere(files[goal.plan[k]].dependencies, now.files.Keys)
  {
    hide Kept, LoadedFrom, Loadable;
    var names := files[goal.plan[k]].dependencies;
    assert names[..|names|] == names;
    forall j | 0 <= j < k ensures goal.plan[j] !in pending {
      assert goal.plan[j] !in pending + [goal.plan[k]];
    }
  }

  /** An import that is not there comes earlier in the plan. */
  lemma ImportIsEarlier(options: Options, files: map<string, Proto>, goal: Goal, k: nat, i: nat, entry: Contents,
                        now: Contents, bad: set<string>, pending: seq<string>) returns (n: nat)
    requires Importing(options, files, goal, k, i, entry, now, bad, pending)
    requires i < |files[goal.plan[k]].dependencies| && files[goal.plan[k]].dependencies[i] !in now.files
    ensures 0 < n <= k && goal.plan[n - 1] == files[goal.plan[k]].dependencies[i] && goal.plan[n - 1] in files
    ensures Following(options, files, goal, n, now, bad, pending)
  {
    hide LoadedFrom, CanFollow, Good, VectorsGrown;
    var d := files[goal.plan[k]].dependencies[i];
    assert d in goal.plan[..k];
    var j :| 0 <= j < k && goal.plan[..k][j] == d;
    n := j + 1;
  }

  /** The first `i` imports of the file at position `k` have been loaded, since `entry`. */
  ghost predicate Importing(options: Options, files: map<string, Proto>, goal: Goal, k: nat, i: nat, entry: Contents,
                            now: Contents, bad: set<string>, pending: seq<string>)
  {
    && k < |goal.plan| && goal.plan[k] in files
    && Following(options, files, goal, k, now, bad, pending) && OnlyAdded(goal, k, entry, now)
    && i <= |files[goal.plan[k]].dependencies| && AllThere(files[goal.plan[k]].dependencies[..i], now.files.Keys)
  }

  /** What has been loaded for an import, and is the first `m` files of the plan at most, leaves
      the plan of the importing file as it is. */
  lemma ImportNext(options: Options, files: map<string, Proto>, goal: Goal, k: nat, i: nat, m: nat, entry: Contents,
                   before: Contents, now: Contents, bad: set<string>, pending: seq<string>)
    requires Importing(options, files, goal, k, i, entry, before, bad, pending)
    requires i < |files[goal.plan[k]].dependencies| && files[goal.plan[k]].dependencies[i] in now.files
    requires before.files.Keys <= now.files.Keys
    requires before == now ||
             (m <= k && Following(options, files, goal, m, now, bad, pending) && OnlyAdded(goal, m, before, now))
    ensures Importing(options, files, goal, k, i + 1, entry, now, bad, pending)
  {
    hide Following, OnlyAdded;
    if before != now {
      FollowMore(options, files, goal, m, k, entry, before, now, bad, pending);
    }
    var names := files[goal.plan[k]].dependencies;
    assert names[..i + 1] == names[..i] + [names[i]];
  }

  lemma FollowMore(options: Options, files: map<string, Proto>, goal: Goal, m: nat, k: nat, entry: Contents,
                   before: Contents, now: Contents, bad: set<string>, pending: seq<string>)
    requires Following(options, files, goal, k, before, bad, pending) && OnlyAdded(goal, k, entry, before)
    requires m <= k && Following(options, files, goal, m, now, bad, pending) && OnlyAdded(goal, m, before, now)
    ensures Following(options, files, goal, k, now, bad, pending) && OnlyAdded(goal, k, entry, now)
  {
    hide Kept, LoadedFrom, Loadable;
    assert goal.plan[..m] <= goal.plan[..k];
  }

  lemma NothingLoaded(files: map<string, Proto>, c: Contents, plan: seq<string>)
    ensures LoadedFrom(files, c, c, plan)
  {
  }

  /** Nothing has been done yet. */
  lemma StartOfPlan(options: Options, files: map<string, Proto>, goal: Goal, name: string) returns (n: nat)
    requires Loadable(options, files, goal.start, goal.plan) && name in goal.plan
    ensures 0 < n <= |goal.plan| && goal.plan[n - 1] == name
    ensures name in files && files[name].name == name
    ensures Following(options, files, goal, n, goal.start, {}, [])
  {
    hide Kept, CanFollow, LoadedFrom, Following;
    var k :| 0 <= k < |goal.plan| && goal.plan[k] == name;
    n := k + 1;
    FollowsFromStart(options, files, goal, n);
  }

  lemma FollowsFromStart(options: Options, files: map<string, Proto>, goal: Goal, n: nat)
    requires Loadable(options, files, goal.start, goal.plan) && n <= |goal.plan|
    ensures Following(options, files, goal, n, goal.start, {}, [])
  {
    hide Kept, Loadable, LoadedFrom;
    KeptReflexive(options, goal.start);
    NothingLoaded(files, goal.start, goal.plan);
  }

  /** What is new when the plan has been followed. */
  lemma LoadedOnPlan(options: Options, files: map<string, Proto>, goal: Goal, n: nat, name: string,
                     now: Contents, bad: set<string>, pending: seq<string>)
    requires Following(options, files, goal, n, now, bad, pending)
    requires name in now.files && name !in goal.start.files
    ensures name in files && Present(now, files[name]) && LoadedFrom(files, goal.start, now, goal.plan)
  {
    hide Kept, Loadable;
  }

  /** With its imports there, the next file of the plan can be built; ... */
  lemma NextIsBuildable(options: Options, files: map<string, Proto>, goal: Goal, k: nat,
                        before: Contents, now: Contents, bad: set<string>, pending: seq<string>)
    requires Following(options, files, goal, k + 1, now, bad, pending)
    requires goal.plan[k] !in before.files && OnlyAdded(goal, k, before, now)
    requires AllThere(files[goal.plan[k]].dependencies, now.files.Keys)
    ensures goal.plan[k] !in now.files
    ensures Buildable(options, now, files[goal.plan[k]])
  {
    hide LoadedFrom, Kept, Buildable;
    assert goal.plan[k] !in goal.plan[..k];
    assert CanFollow(options, files, goal.start, goal.plan, goal.plan[k]);
  }

  /** ... and then the plan has been followed one file further. */
  lemma BuiltOnPlan(options: Options, files: map<string, Proto>, goal: Goal, k: nat,
                    entry: Contents, before: Contents, after: Contents, bad: set<string>, pending: seq<string>)
    requires Following(options, files, goal, k + 1, before, bad, pending)
    requires goal.plan[k] !in before.files && OnlyAdded(goal, k, entry, before)
    requires Kept(options, before, after) && Gained(options, before, after, files[goal.plan[k]])
    ensures Following(options, files, goal, k + 1, after, bad, pending)
    ensures OnlyAdded(goal, k + 1, entry, after)
  {
    hide LoadedFrom, CanFollow, Good, VectorsGrown, FromNewFiles, NewSymbols, ImportsOf, Added;
    KeptTransitive(options, goal.start, before, after);
    GainedFollows(options, files, goal.start, goal.plan, before, after, goal.plan[k]);
    assert goal.plan[k] == goal.plan[..k + 1][k] && goal.plan[..k] <= goal.plan[..k + 1];
  }

  lemma {:induction false} ChainMayAdd(symbols: Symbols, p: string, proto: Proto)
    requires p <= proto.package
    ensures forall i | 0 <= i < |Chain(symbols, p, proto.name)| ::
              var (k, s) := Chain(symbols, p, proto.name)[i]; MayAdd(proto, k, s)
    decreases |p|
  {
    if p !in symbols && LastDot(p) >= 0 {
      ChainMayAdd(symbols, p[..LastDot(p)], proto);
    }
  }

  /** Building a file of the plan leads from one state of the plan to another. */
  lemma GainedFollows(options: Options, files: map<string, Proto>, c: Contents, plan: seq<string>,
                      before: Contents, after: Contents, name: string)
    requires LoadedFrom(files, c, before, plan) && Later(c, before) && Later(before, after)
    requires name in plan && name in files && files[name].name == name && name !in before.files
    requires Gained(options, before, after, files[name])
    ensures LoadedFrom(files, c, after, plan)
  {
    hide NewSymbols, ImportsOf, MayAdd, DeclaredBy;
    PairsOf(before, after, files[name]);
    GainedFiles(options, files, c, plan, before, after, name);
    GainedSymbols(options, files, c, before, after, name);
  }

  lemma GainedFiles(options: Options, files: map<string, Proto>, c: Contents, plan: seq<string>,
                    before: Contents, after: Contents, name: string)
    requires FilesLoaded(files, c, before, plan) && Later(before, after)
    requires name in plan && name in files && files[name].name == name
    requires after.files == FilesWith(options, before, files[name])
    requires forall i | 0 <= i < |DeclaredBy(files[name])| :: Defines(after, DeclaredBy(files[name])[i])
    ensures FilesLoaded(files, c, after, plan)
  {
    hide VectorsGrown, ImportsOf, DeclaredBy;
    forall f, i | f in before.files && f !in c.files && 0 <= i < |DeclaredBy(files[f])|
      ensures Defines(after, DeclaredBy(files[f])[i])
    {
      assert Defines(before, DeclaredBy(files[f])[i]);
    }
  }

  lemma GainedSymbols(options: Options, files: map<string, Proto>, c: Contents,
                      before: Contents, after: Contents, name: string)
    requires SymbolsLoaded(files, c, before) && Later(c, before) && Later(before, after)
    requires name in files && files[name].name == name && name !in before.files
    requires after.files == FilesWith(options, before, files[name])
    requires Added(before.symbols, after.symbols, NewSymbols(before, files[name]))
    requires forall i | 0 <= i < |NewSymbols(before, files[name])| ::
               var (k, s) := NewSymbols(before, files[name])[i]; MayAdd(files[name], k, s)
    ensures SymbolsLoaded(files, c, after)
  {
    hide NewSymbols, VectorsGrown, ImportsOf, DeclaredBy;
    var pairs := NewSymbols(before, files[name]);
    forall k | k in after.symbols && k !in before.symbols
      ensures MayAdd(files[name], k, after.symbols[k].value)
    {
      var i :| 0 <= i < |pairs| && pairs[i].0 == k;
    }
  }

  /** What has been added when a file has been built. */
  lemma PairsOf(before: Contents, after: Contents, proto: Proto)
    requires Added(before.symbols, after.symbols, NewSymbols(before, proto))
    ensures forall i | 0 <= i < |NewSymbols(before, proto)| ::
              var (k, s) := NewSymbols(before, proto)[i]; MayAdd(proto, k, s)
    ensures forall i | 0 <= i < |DeclaredBy(proto)| :: Defines(after, DeclaredBy(proto)[i])
  {
    hide Chain, DeclaredAll;
    var chain := if proto.package == [] then [] else Chain(before.symbols, proto.package, proto.name);
    var declared, pairs := DeclaredBy(proto), NewSymbols(before, proto);
    ChainMayAdd(before.symbols, proto.package, proto);
    DeclaredAllOf(proto.package, proto.decls, proto.name);
    forall i | 0 <= i < |pairs| ensures MayAdd(proto, pairs[i].0, pairs[i].1) {
      if i < |chain| {
        assert pairs[i] == chain[i];
      } else {
        assert pairs[i] == declared[i - |chain|];
      }
    }
    forall i | 0 <= i < |declared| ensures Defines(after, declared[i]) {
      assert pairs[|chain| + i] == declared[i] && pairs[|chain| + i].0 in NamesOf(pairs);
    }
  }

  // ---------------------------------------------------------------- two files

  const IMPORTED := Proto("b.proto", "", [], [], [], [Decl("B", Message, [])], [], false)
  const IMPORTING := Proto("a.proto", "", ["b.proto"], [], [], [], [Reference("B", "A.x", LookupTypes)], false)
  const TWO_FILES := map["a.proto" := IMPORTING, "b.proto" := IMPORTED]
  const IMPORTED_FIRST := ["b.proto", "a.proto"]

  /** A file and one that it imports and refers to can be loaded into an empty pool. */
  lemma TwoFilesAreLoadable(options: Options, c: Contents)
    requires c.symbols == map[] && c.files == map[]
    ensures Loadable(options, TWO_FILES, c, IMPORTED_FIRST)
  {
    hide Kept, LoadedFrom, Buildable, CanFollow;
    var plan := IMPORTED_FIRST;
    assert plan[..1] == ["b.proto"];
    ImportedCanFollow(options, c);
    ImportingCanFollow(options, c);
  }

  lemma ImportedCanFollow(options: Options, c: Contents)
    requires c.symbols == map[] && c.files == map[]
    ensures CanFollow(options, TWO_FILES, c, IMPORTED_FIRST, "b.proto")
  {
    hide Kept, LoadedFrom, Buildable;
    forall now: Contents |
      Kept(options, c, now) && LoadedFrom(TWO_FILES, c, now, IMPORTED_FIRST) && "b.proto" !in now.files
      ensures Buildable(options, now, IMPORTED)
    {
      ImportedIsBuildable(options, c, now);
    }
  }

  lemma ImportingCanFollow(options: Options, c: Contents)
    requires c.symbols == map[] && c.files == map[]
    ensures CanFollow(options, TWO_FILES, c, IMPORTED_FIRST, "a.proto")
  {
    hide Kept, LoadedFrom, Buildable;
    forall now: Contents |
      && Kept(options, c, now) && LoadedFrom(TWO_FILES, c, now, IMPORTED_FIRST)
      && "a.proto" !in now.files && AllThere(IMPORTING.dependencies, now.files.Keys)
      ensures Buildable(options, now, IMPORTING)
    {
      assert IMPORTING.dependencies[0] in now.files;
      ImportingIsBuildable(options, c, now);
    }
  }

  lemma ImportedIsBuildable(options: Options, c: Contents, now: Contents)
    requires c.symbols == map[] && c.files == map[]
    requires LoadedFrom(TWO_FILES, c, now, IMPORTED_FIRST) && "b.proto" !in now.files
    ensures Buildable(options, now, IMPORTED)
  {
    Declarations();
    OnlyB(c, now);
    assert NewSymbols(now, IMPORTED) == [("B", Symbol(Message, "b.proto"))];
  }

  lemma Declarations()
    ensures DeclaredBy(IMPORTED) == [("B", Symbol(Message, "b.proto"))]
    ensures DeclaredBy(IMPORTING) == []
    ensures AllValid(IMPORTED.decls)
  {
    var d := IMPORTED.decls[0];
    assert Declared("", d, "b.proto") == [("B", Symbol(Message, "b.proto"))];
    assert IMPORTED.decls[..0] == [];
  }

  /** No other symbols can be there. */
  lemma OnlyB(c: Contents, now: Contents)
    requires c.symbols == map[] && c.files == map[]
    requires LoadedFrom(TWO_FILES, c, now, IMPORTED_FIRST)
    ensures forall k | k in now.symbols :: |k| <= 1
    ensures "b.proto" !in now.files ==> "B" !in now.symbols
    ensures "b.proto" in now.files ==> Defines(now, ("B", Symbol(Message, "b.proto")))
  {
    Declarations();
    hide DeclaredBy;
    forall k | k in now.symbols ensures |k| <= 1 && (k == "B" ==> "b.proto" in now.files) {
      OnlyFrom(c, now, k);
    }
    hide SymbolsLoaded;
    if "b.proto" in now.files {
      assert Defines(now, DeclaredBy(IMPORTED)[0]);
    }
  }

  lemma OnlyFrom(c: Contents, now: Contents, k: string)
    requires c.symbols == map[] && c.files == map[] && k in now.symbols
    requires SymbolsLoaded(TWO_FILES, c, now)
    ensures |k| <= 1 && (k == "B" ==> "b.proto" in now.files)
  {
    Declarations();
    hide DeclaredBy;
    var f := now.symbols[k].value.file;
    assert f in TWO_FILES && MayAdd(TWO_FILES[f], k, now.symbols[k].value);
  }

  lemma ImportingIsBuildable(options: Options, c: Contents, now: Contents)
    requires c.symbols == map[] && c.files == map[]
    requires LoadedFrom(TWO_FILES, c, now, IMPORTED_FIRST)
    requires "a.proto" !in now.files && "b.proto" in now.files
    ensures Buildable(options, now, IMPORTING)
  {
    Declarations();
    OnlyB(c, now);
    IsAdmissible(options, now);
    SeesB(options, now);
    LooksUpB(ViewOf(options, now, IMPORTING, now.symbols));
    hide LoadedFrom, ViewOf, Resolution, Admissible, NewSymbols, Find;
    assert SymbolsWith(now.symbols, []) == now.symbols;
  }

  lemma IsAdmissible(options: Options, now: Contents)
    requires "a.proto" !in now.files && "b.proto" in now.files
    requires DeclaredBy(IMPORTING) == []
    ensures NewSymbols(now, IMPORTING) == []
    ensures Admissible(options, now, IMPORTING)
  {
  }

  lemma SeesB(options: Options, now: Contents)
    requires "b.proto" in now.files && Defines(now, ("B", Symbol(Message, "b.proto")))
    requires forall k | k in now.symbols :: |k| <= 1
    ensures var v := ViewOf(options, now, IMPORTING, now.symbols);
            Find(v, "B") == Some(Symbol(Message, "b.proto")) && Find(v, "A.B").None?
  {
    hide Visible, Find, ImportsOf;
    var v := ViewOf(options, now, IMPORTING, now.symbols);
    VisibleIsSeen(options, now, IMPORTING, "b.proto");
    assert PublicPath(v.files, ["b.proto"]);
    assert IMPORTING.dependencies[0] == "b.proto" && ["b.proto"][0] == "b.proto";
    FindExact(v, "B");
    assert |"A.B"| == 3;
    FindExact(v, "A.B");
  }

  lemma LooksUpB(v: View)
    requires Find(v, "B").Some? && Find(v, "A.B").None?
    ensures Resolution(v, "B", "A.x", LookupTypes) == Find(v, "B")
  {
    hide Find;
    var from := "A.x";
    assert from[..1] + "." + FirstPart("B") == "A.B";
    assert ResolutionUpTo(v, "B", from, 0, LookupTypes) == Find(v, "B");
    assert ResolutionUpTo(v, "B", from, 1, LookupTypes) == Find(v, "B");
    assert ResolutionUpTo(v, "B", from, 2, LookupTypes) == Find(v, "B");
  }
}
