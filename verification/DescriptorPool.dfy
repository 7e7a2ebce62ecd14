/** DescriptorPool and DescriptorBuilder: the recursion between building a file and loading the
    files and symbols it needs. */
module DescriptorPool {
  import opened Protos
  import opened Wrappers
  import opened Tables
  import opened Builder
  import opened BuildSpec
  import opened Loading

  // ---------------------------------------------------------------- closing the symbol table

  /** While the elements of `open` are being built, what is declared in them lacks its parent. */
  predicate ClosedExcept(symbols: map<string, Entry<Symbol>>, open: set<string>) {
    forall k | k in symbols ::
      ParentOk(symbols, k) ||
      (LastDot(k) >= 0 && k[..LastDot(k)] in open && symbols[k].value.kind != Package)
  }

  predicate ScopeKnown(symbols: map<string, Entry<Symbol>>, scope: string, open: set<string>) {
    scope == [] || scope in symbols || scope in open
  }

  /** While the parents of package `p` are being added, only `p` itself may be missing. */
  predicate ClosedBelow(symbols: map<string, Entry<Symbol>>, p: string) {
    forall k | k in symbols :: ParentOk(symbols, k) || (LastDot(k) >= 0 && k[..LastDot(k)] == p)
  }

  lemma AddDeclSymbol(symbols: map<string, Entry<Symbol>>, scope: string, name: string, e: Entry<Symbol>, open: set<string>)
    requires ValidName(name) && Join(scope, name) !in symbols && e.value.kind != Package
    requires ClosedExcept(symbols, open + {Join(scope, name)}) && ScopeKnown(symbols, scope, open)
    ensures ClosedExcept(symbols[Join(scope, name) := e], open)
  {
    JoinParent(scope, name);
    var full := Join(scope, name);
    var after := symbols[full := e];
    forall k | k in after
      ensures ParentOk(after, k) || (LastDot(k) >= 0 && k[..LastDot(k)] in open && after[k].value.kind != Package)
    {
      if k != full && ParentOk(symbols, k) {
        assert ParentOk(after, k);
      }
    }
  }

  lemma NothingOpen(symbols: map<string, Entry<Symbol>>)
    ensures ClosedExcept(symbols, {}) <==> Closed(symbols)
  {
  }

  /** An element of a known scope is opened. */
  lemma ScopeOpens(symbols: map<string, Entry<Symbol>>, scope: string, d: Decl, open: set<string>)
    requires ClosedExcept(symbols, open) && ScopeKnown(symbols, scope, open)
    ensures ClosedExcept(symbols, open + {Join(scope, d.name)})
    ensures ScopeKnown(symbols, Inner(scope, d), open + {Join(scope, d.name)})
  {
  }

  lemma ScopeStays(a: Contents, b: Contents, scope: string, open: set<string>)
    requires Later(a, b) && ScopeKnown(a.symbols, scope, open)
    ensures ScopeKnown(b.symbols, scope, open)
  {
  }

  lemma AddPackageSymbol(symbols: map<string, Entry<Symbol>>, name: string, e: Entry<Symbol>)
    requires name !in symbols && ClosedBelow(symbols, name) && e.value.kind == Package
    ensures LastDot(name) < 0 ==> Closed(symbols[name := e])
    ensures LastDot(name) >= 0 ==> ClosedBelow(symbols[name := e], name[..LastDot(name)])
  {
    var after := symbols[name := e];
    forall k | k in after && k != name ensures ParentOk(after, k) {
      if ParentOk(symbols, k) {
      }
    }
  }

  /** An existing package needs no more work: its parents are packages already. */
  lemma ExistingPackage(symbols: map<string, Entry<Symbol>>, name: string)
    requires name in symbols && ClosedBelow(symbols, name) && symbols[name].value.kind == Package
    ensures Closed(symbols)
  {
  }

  /** No scope ending at a dot from position `n` on is acceptable. */
  predicate NoneFrom(v: View, from: string, n: nat, name: string, mode: Mode) {
    forall i | n <= i < |from| && from[i] == '.' :: !Acceptable(v, from, i, name, mode)
  }

  /** The text of `scope` is searched from its last dot on. */
  lemma NoneAbove(v: View, from: string, scope: string, name: string, mode: Mode)
    requires scope <= from && NoneFrom(v, from, |scope|, name, mode)
    ensures NoneFrom(v, from, LastDot(scope) + 1, name, mode)
  {
    assert forall i | 0 <= i < |scope| :: scope[i] == from[i];
  }

  lemma NoneAtEnd(v: View, from: string, name: string, mode: Mode)
    ensures NoneFrom(v, from, |from|, name, mode)
  {
  }

  lemma NoneHere(v: View, from: string, i: nat, name: string, mode: Mode)
    requires i < |from| && !Acceptable(v, from, i, name, mode) && NoneFrom(v, from, i + 1, name, mode)
    ensures NoneFrom(v, from, i, name, mode)
  {
    hide Acceptable;
  }

  lemma BetweenDotted(v: View, w: View, name: string, from: string, mode: Mode, r: Option<Symbol>)
    requires name != [] && name[0] == '.' && FoundBetween(v, w, name[1..], r)
    ensures ResolvesBetween(v, w, name, from, mode, r)
  {
    hide Find;
  }

  lemma BetweenGlobally(v: View, w: View, name: string, from: string, mode: Mode, r: Option<Symbol>)
    requires NoneFrom(v, from, 0, name, mode) && FoundBetween(v, w, name, r)
    requires !(name != [] && name[0] == '.')
    ensures ResolvesBetween(v, w, name, from, mode, r)
  {
    hide Acceptable, Find, FoundBetween;
    assert Decides(v, w, from, -1, name, mode) && Scoped(from, -1, name) == name;
  }

  lemma BetweenAt(v: View, w: View, name: string, from: string, i: nat, mode: Mode, r: Option<Symbol>)
    requires i < |from| && from[i] == '.' && Acceptable(w, from, i, name, mode) && NoneFrom(v, from, i + 1, name, mode)
    requires FoundBetween(v, w, from[..i] + "." + name, r)
    requires !(name != [] && name[0] == '.')
    ensures ResolvesBetween(v, w, name, from, mode, r)
  {
    hide Acceptable, Find, FoundBetween;
    var c: int := i;
    assert Decides(v, w, from, c, name, mode) && Scoped(from, c, name) == from[..i] + "." + name;
  }

  /** One probe, in a view that has grown from `v` to `u` and grows to `w` by it. */
  lemma ProbeBetween(v: View, u: View, w: View, name: string, r: Option<Symbol>)
    requires Grows(v, u) && FoundBetween(u, w, name, r)
    ensures FoundBetween(v, w, name, r)
  {
    hide Find, Grows;
    if Find(v, name).Some? {
      FindGrows(v, u, name);
    }
  }

  /** A probe that finds nothing acceptable rules the scope out for the view at the start. */
  lemma ProbeRulesOut(v: View, w: View, from: string, i: nat, name: string, mode: Mode, found: Option<Symbol>)
    requires i <= |from| && FoundBetween(v, w, from[..i] + "." + FirstPart(name), found)
    requires found.None? || (if |FirstPart(name)| < |name| then !found.value.IsAggregate()
                             else mode == LookupTypes && !found.value.IsType())
    ensures !Acceptable(v, from, i, name, mode)
  {
    hide Find, FirstPart;
  }

  /** And one that finds something acceptable makes the scope so. */
  lemma ProbeAccepts(v: View, w: View, from: string, i: nat, name: string, mode: Mode, found: Option<Symbol>)
    requires i <= |from| && FoundBetween(v, w, from[..i] + "." + FirstPart(name), found) && found.Some?
    requires if |FirstPart(name)| < |name| then found.value.IsAggregate() else mode == LookupAll || found.value.IsType()
    ensures Acceptable(w, from, i, name, mode)
  {
    hide Find, FirstPart;
  }

  class DescriptorPool {
    const tables: Pool
    const db: Option<Database>
    const options: Options

    constructor (db: Option<Database>, options: Options)
      ensures fresh(tables) && tables.Valid() && tables.snaps == [] && tables.pendingFiles == []
      ensures this.db == db && this.options == options
      ensures tables.symbols == map[] && tables.files == map[]
      ensures Good(options, tables.Now())
    {
      tables := new Pool();
      this.db, this.options := db, options;
    }

    /** The state in which the recursion may be entered: `universe` holds the names of all
        files there are. */
    ghost predicate Ready(universe: set<string>)
      reads tables
    {
      tables.Valid() && Names(db) <= universe
    }

    /** There is no database, or it never knows which file has a symbol: then looking for symbols
        loads nothing. */
    predicate SymbolsStay() {
      db.None? || db.value.symbols == map[]
    }

    ghost function Measure(universe: set<string>): nat
      reads tables
    {
      Left(universe, tables.pendingFiles, tables.files.Keys)
    }

    /** The file is in the pool, or could not be built, or the database has it under another name. */
    ghost predicate Tried(name: string)
      reads tables
    {
      name in tables.files || name in tables.knownBadFiles ||
      (db.Some? && name in db.value.files && db.value.files[name].name in tables.files)
    }

    /** Where this holds, exactly the buildable files can be built. */
    predicate IsExact(start: Contents) {
      SymbolsStay() || (options.enforceDependencies && Good(options, start))
    }

    /** The file is accepted, or there already: `before` are the contents and `pending` the files
        being loaded when it is asked for, `start` are the contents with its dependencies loaded. */
    predicate Accepts(before: Contents, pending: seq<string>, start: Contents, proto: Proto) {
      Present(before, proto) || (proto.name !in pending && Buildable(options, start, proto))
    }

    /** A plan has been followed so far, its first `n` files can be loaded, and the file `name`
        is the last of them. */
    ghost predicate Planned(goal: Goal, n: nat, name: string)
      reads tables
    {
      && SymbolsStay() && db.Some? && name in db.value.files
      && 0 < n <= |goal.plan| && goal.plan[n - 1] == name && name !in tables.files
      && Following(options, db.value.files, goal, n, tables.Now(), tables.knownBadFiles, tables.pendingFiles)
    }

    /** Since `before`, when `bad` were the bad files, these files of the plan have been loaded
        at most, and the file `name` has been. */
    ghost predicate Brought(goal: Goal, n: nat, name: string, before: Contents, bad: set<string>)
      reads tables
    {
      && db.Some? && 0 < n <= |goal.plan| && name in tables.files
      && tables.knownBadFiles == bad && OnlyAdded(goal, n, before, tables.Now())
      && Following(options, db.value.files, goal, n, tables.Now(), tables.knownBadFiles, tables.pendingFiles)
    }

    /** TryFindFileInFallbackDatabase.  The file is built on the contents `start`, which have the
        dependencies that could be loaded. */
    method TryFindFileInFallbackDatabase(name: string, ghost universe: set<string>, ghost goal: Goal, ghost n: nat)
      returns (found: bool, ghost start: Contents)
      requires Ready(universe)
      modifies tables
      ensures Ready(universe)
      ensures tables.snaps == old(tables.snaps) && tables.pendingFiles == old(tables.pendingFiles)
      ensures old(tables.knownBadFiles) <= tables.knownBadFiles
      ensures Kept(options, old(tables.Now()), start) && Kept(options, old(tables.Now()), tables.Now())
      ensures found ==> db.Some? && name in db.value.files && db.value.files[name].name in tables.files
      ensures !found && db.Some? ==> name in tables.knownBadFiles
      ensures db == None || name in old(tables.knownBadFiles) || name !in db.value.files ==>
                !found && tables.Now() == old(tables.Now())
      // Otherwise it is found exactly if the database's file is accepted.
      ensures db.Some? && name in db.value.files && name !in old(tables.knownBadFiles) ==>
                var proto := db.value.files[name];
                && (proto.name in old(tables.knownBadFiles) ==> !found)
                && (proto.name !in old(tables.knownBadFiles) && IsExact(start) ==>
                      (found <==> Accepts(old(tables.Now()), tables.pendingFiles, start, proto)))
                && (AllThere(proto.dependencies, old(tables.files.Keys)) ==> start == old(tables.Now()))
      // A file whose turn it is in a plan is always found.
      ensures old(Planned(goal, n, name)) ==>
                found && Brought(goal, n, name, old(tables.Now()), old(tables.knownBadFiles))
      decreases Measure(universe), 6
    {
      hide Consistent, Good, Kept, Left, Following, Buildable;
      start := tables.Now();
      KeptReflexive(options, start);
      if db.None? || name in tables.knownBadFiles {
        PlannedIsGood(goal, n, name);
        return false, start;
      }
      PlannedIsGood(goal, n, name);
      if name in db.value.files {
        found, start := BuildFileFromDatabase(db.value.files[name], universe, goal, n);
      } else {
        found := false;
      }
      if !found {
        tables.knownBadFiles := tables.knownBadFiles + {name};
      }
    }

    lemma PlannedIsGood(goal: Goal, n: nat, name: string)
      ensures Planned(goal, n, name) ==>
                && db.Some? && name !in tables.knownBadFiles && name !in tables.pendingFiles
                && name in db.value.files && db.value.files[name].name == name
    {
      hide Kept, LoadedFrom, CanFollow;
    }

    /** IsSubSymbolOfBuiltType: some proper prefix is a symbol other than a package. */
    method IsSubSymbolOfBuiltType(name: string) returns (r: bool)
      requires tables.Valid()
      ensures r <==> SubSymbolOfType(tables.symbols, name)
    {
      var prefix := name;
      while true
        invariant prefix <= name
        invariant forall i | |prefix| <= i < |name| && name[i] == '.' ::
                    !(name[..i] in tables.symbols && tables.symbols[name[..i]].value.kind != Package)
        decreases |prefix|
      {
        var dot := LastDot(prefix);
        if dot < 0 {
          return false;
        }
        assert name[..dot] == prefix[..dot] && name[dot] == '.';
        prefix := prefix[..dot];
        if prefix in tables.symbols && tables.symbols[prefix].value.kind != Package {
          return true;
        }
      }
    }

    /** TryFindSymbolInFallbackDatabase. */
    method TryFindSymbolInFallbackDatabase(name: string, ghost universe: set<string>)
      returns (found: bool, ghost start: Contents)
      requires Ready(universe)
      modifies tables
      ensures Ready(universe)
      ensures tables.snaps == old(tables.snaps) && tables.pendingFiles == old(tables.pendingFiles)
      ensures old(tables.knownBadFiles) <= tables.knownBadFiles
      ensures Kept(options, old(tables.Now()), start) && Kept(options, old(tables.Now()), tables.Now())
      ensures found ==> db.Some? && name in db.value.symbols && db.value.symbols[name].name in tables.files
      ensures !found && db.Some? ==> name in tables.knownBadSymbols
      // Nothing is loaded for a part of a type that is there, nor for a file that is there.
      ensures !Asked(old(tables.symbols), old(tables.files.Keys), old(tables.knownBadSymbols), name) ==>
                !found && tables.Now() == old(tables.Now()) && tables.knownBadFiles == old(tables.knownBadFiles)
      // Otherwise it is found exactly if the file the database comes up with is accepted.
      ensures Asked(old(tables.symbols), old(tables.files.Keys), old(tables.knownBadSymbols), name) ==>
                var proto := db.value.symbols[name];
                && (proto.name in old(tables.knownBadFiles) ==> !found)
                && (proto.name !in old(tables.knownBadFiles) && IsExact(start) ==>
                      (found <==> proto.name !in tables.pendingFiles && Buildable(options, start, proto)))
                && (AllThere(proto.dependencies, old(tables.files.Keys)) ==> start == old(tables.Now()))
      decreases Measure(universe), 6
    {
      hide Consistent, Good, Kept, Left, Buildable;
      start := tables.Now();
      KeptReflexive(options, start);
      if db.None? || name in tables.knownBadSymbols {
        return false, start;
      }
      var known := IsSubSymbolOfBuiltType(name);
      if known || name !in db.value.symbols || db.value.symbols[name].name in tables.files {
        found := false;
      } else {
        found, start := BuildFileFromDatabase(db.value.symbols[name], universe, Goal(start, []), 0);
      }
      if !found {
        tables.knownBadSymbols := tables.knownBadSymbols + {name};
      }
    }

    /** The database comes up with a file for the symbol, and it makes sense to build it. */
    predicate Asked(symbols: Symbols, files: set<string>, bad: set<string>, name: string) {
      && db.Some? && name !in bad && !SubSymbolOfType(symbols, name)
      && name in db.value.symbols && db.value.symbols[name].name !in files
    }

    method BuildFileFromDatabase(proto: Proto, ghost universe: set<string>, ghost goal: Goal, ghost n: nat)
      returns (ok: bool, ghost start: Contents)
      requires Ready(universe) && proto.name in universe
      modifies tables
      ensures Ready(universe)
      ensures tables.snaps == old(tables.snaps) && tables.pendingFiles == old(tables.pendingFiles)
      ensures old(tables.knownBadFiles) <= tables.knownBadFiles
      ensures Kept(options, old(tables.Now()), start) && Kept(options, old(tables.Now()), tables.Now())
      ensures ok ==> Present(tables.Now(), proto)
      ensures !ok ==> proto.name in tables.knownBadFiles
      ensures proto.name in old(tables.knownBadFiles) ==> !ok && tables.Now() == old(tables.Now())
      ensures proto.name !in old(tables.knownBadFiles) && IsExact(start) ==>
                (ok <==> Accepts(old(tables.Now()), tables.pendingFiles, start, proto))
      ensures AllThere(proto.dependencies, old(tables.files.Keys)) ==> start == old(tables.Now())
      ensures old(Planned(goal, n, proto.name)) && proto == db.value.files[proto.name] ==>
                ok && Brought(goal, n, proto.name, old(tables.Now()), old(tables.knownBadFiles))
      decreases Measure(universe), 5
    {
      hide Consistent, Good, Kept, Left, Following, Buildable;
      start := tables.Now();
      KeptReflexive(options, start);
      PlannedIsGood(goal, n, proto.name);
      if proto.name in tables.knownBadFiles {
        return false, start;
      }
      ok, start := BuildFile(proto, universe, goal, n);
      if !ok {
        tables.knownBadFiles := tables.knownBadFiles + {proto.name};
      }
    }

    /** Added to contents `c`, the file was admissible, and the pool as it is `now` has it with all
        its symbols, and all its references lead somewhere. */
    ghost predicate Built(c: Contents, now: Contents, proto: Proto) {
      && Includes(options, c, now, proto)
      && Admissible(options, c, proto)
      && AllResolvable(options, SightOf(options, c, proto, now), proto.references)
    }

    /** DescriptorBuilder::BuildFile: load the dependencies, which leads to the contents `start`,
        then build under a checkpoint. */
    method BuildFile(proto: Proto, ghost universe: set<string>, ghost goal: Goal, ghost n: nat)
      returns (ok: bool, ghost start: Contents)
      requires Ready(universe) && proto.name in universe
      modifies tables
      ensures Ready(universe)
      ensures tables.snaps == old(tables.snaps) && tables.pendingFiles == old(tables.pendingFiles)
      ensures old(tables.knownBadFiles) <= tables.knownBadFiles
      ensures Kept(options, old(tables.Now()), start) && Kept(options, start, tables.Now())
      ensures Kept(options, old(tables.Now()), tables.Now())
      ensures db == None || Present(old(tables.Now()), proto) || proto.name in tables.pendingFiles ==>
                start == old(tables.Now())
      ensures AllThere(proto.dependencies, old(tables.files.Keys)) ==> start == old(tables.Now())
      // A file that is there is returned, and one on its own import path rejected; else all its
      // dependencies have been tried.
      ensures ok ==> Present(tables.Now(), proto)
      ensures !ok || Present(old(tables.Now()), proto) ==> tables.Now() == start
      ensures Present(old(tables.Now()), proto) ==> ok
      ensures proto.name in tables.pendingFiles && ok ==> Present(old(tables.Now()), proto)
      ensures db.Some? && !Present(old(tables.Now()), proto) && proto.name !in tables.pendingFiles ==>
                forall i | 0 <= i < |proto.dependencies| :: Tried(proto.dependencies[i])
      // Whatever is built was admissible after that, and all its references lead somewhere.
      ensures ok && !Present(old(tables.Now()), proto) ==> Built(start, tables.Now(), proto)
      // If no symbol is ever loaded, or where dependencies are enforced whatever symbols are loaded,
      // exactly the buildable files are built.
      ensures IsExact(start) ==> (ok <==> Accepts(old(tables.Now()), tables.pendingFiles, start, proto))
      ensures SymbolsStay() && ok && !Present(old(tables.Now()), proto) ==> Gained(options, start, tables.Now(), proto)
      ensures old(Planned(goal, n, proto.name)) && proto == db.value.files[proto.name] ==>
                ok && Brought(goal, n, proto.name, old(tables.Now()), old(tables.knownBadFiles))
      decreases Measure(universe), 4
    {
      hide Consistent, Good, Kept, Left, Buildable, Gained, Built, Following, OnlyAdded;
      ghost var entry, pending, bad := tables.Now(), tables.pendingFiles, tables.knownBadFiles;
      ghost var planned := Planned(goal, n, proto.name) && proto == db.value.files[proto.name];
      PlannedIsGood(goal, n, proto.name);
      start := entry;
      KeptReflexive(options, entry);
      if proto.name in tables.files && tables.files[proto.name].value.proto == proto {
        return true, start;
      }
      // A file on its own import path.
      if proto.name in tables.pendingFiles {
        return false, start;
      }
      if db.Some? {
        LoadDependencies(proto, universe, goal, n);
      }
      KeptGrows(options, entry, tables.Now());
      LeftShrinks(universe, tables.pendingFiles, old(tables.files.Keys), tables.files.Keys);
      start := tables.Now();
      if planned {
        NextIsBuildable(options, db.value.files, goal, n - 1, entry, start, bad, pending);
      }
      ok := BuildUnderCheckpoint(proto, universe);
      KeptGrows(options, start, tables.Now());
      KeptTransitive(options, entry, start, tables.Now());
      if planned {
        BuiltOnPlan(options, db.value.files, goal, n - 1, entry, start, tables.Now(), bad, pending);
      }
    }

    /** BuildFile of the pool, the public entry without a fallback database: it accepts exactly the
        files that are there already and those that are buildable, it adds exactly what they
        declare, and it leaves no trace of the others. */
    method BuildFileCollectingErrors(proto: Proto) returns (ok: bool)
      requires db == None
      requires tables.Valid() && tables.snaps == [] && tables.pendingFiles == []
      requires Good(options, tables.Now())
      modifies tables
      ensures tables.Valid() && tables.snaps == [] && tables.pendingFiles == []
      ensures Good(options, tables.Now())
      ensures ok <==> Present(old(tables.Now()), proto) || Buildable(options, old(tables.Now()), proto)
      ensures !ok || Present(old(tables.Now()), proto) ==> tables.Now() == old(tables.Now())
      ensures ok && !Present(old(tables.Now()), proto) ==> Gained(options, old(tables.Now()), tables.Now(), proto)
    {
      hide Consistent, Good, Left, Buildable, Gained;
      tables.knownBadSymbols, tables.knownBadFiles := {}, {};
      ghost var start;
      ok, start := BuildFile(proto, {proto.name}, Goal(tables.Now(), []), 0);
    }

    /** FindFileByName, a public entry: no checkpoint is open before or after it, and then the
        symbol table is closed and the import order is kept. */
    method FindFileByName(name: string, ghost plan: seq<string>) returns (found: bool, ghost start: Contents)
      requires tables.Valid() && tables.snaps == [] && tables.pendingFiles == []
      requires Good(options, tables.Now())
      modifies tables
      ensures tables.Valid() && tables.snaps == [] && tables.pendingFiles == []
      ensures Good(options, tables.Now())
      ensures Kept(options, old(tables.Now()), start) && Later(old(tables.Now()), tables.Now())
      ensures found ==> name in tables.files
      ensures name in old(tables.files) ==> found && tables.Now() == old(tables.Now())
      ensures name !in old(tables.files) && (db == None || name !in db.value.files) ==>
                !found && tables.Now() == old(tables.Now())
      // What the database has under this name is found exactly if it can be built, which is tried
      // with the dependencies that could be loaded, so right away if they are all there.
      ensures name !in old(tables.files) && db.Some? && name in db.value.files ==>
                var proto := db.value.files[name];
                && (proto.name == name && (SymbolsStay() || options.enforceDependencies) ==>
                      (found <==> Buildable(options, start, proto)))
                && (AllThere(proto.dependencies, old(tables.files.Keys)) ==> start == old(tables.Now()))
      // If the database has the file and all it imports, without cycles and conflicts, it is found.
      ensures name !in old(tables.files) && SymbolsStay() && db.Some? && name in plan &&
              Loadable(options, db.value.files, old(tables.Now()), plan) ==>
                && found && Present(tables.Now(), db.value.files[name])
                && LoadedFrom(db.value.files, old(tables.Now()), tables.Now(), plan)
    {
      hide Consistent, Good, Left, Buildable, Kept, Following, Loadable, LoadedFrom, OnlyAdded;
      start := tables.Now();
      KeptReflexive(options, start);
      ghost var entry, n := start, 0;
      if db.Some? {
        tables.knownBadSymbols, tables.knownBadFiles := {}, {};
      }
      if name in tables.files {
        return true, start;
      }
      ghost var planned := SymbolsStay() && db.Some? && name in plan && Loadable(options, db.value.files, entry, plan);
      if planned {
        n := StartOfPlan(options, db.value.files, Goal(entry, plan), name);
      }
      found, start := TryFindFileInFallbackDatabase(name, Names(db), Goal(entry, plan), n);
      if planned {
        LoadedOnPlan(options, db.value.files, Goal(entry, plan), n, name, tables.Now(), {}, []);
      }
      found := found && name in tables.files;
      KeptGrows(options, entry, tables.Now());
      GoodStays(options, entry, start);
      GoodStays(options, entry, tables.Now());
    }

    lemma GoodStays(options: Options, a: Contents, b: Contents)
      requires Kept(options, a, b) && Good(options, a)
      ensures Good(options, b)
    {
      hide Good;
    }

    /** Everything since the checkpoint is kept or undone. */
    method BuildUnderCheckpoint(proto: Proto, ghost universe: set<string>) returns (ok: bool)
      requires Ready(universe) && proto.name in universe
      modifies tables
      ensures Ready(universe)
      ensures tables.snaps == old(tables.snaps) && tables.pendingFiles == old(tables.pendingFiles)
      ensures old(tables.knownBadFiles) <= tables.knownBadFiles
      ensures Kept(options, old(tables.Now()), tables.Now())
      ensures ok ==> proto.name in tables.files && tables.files[proto.name].value.proto == proto
      ensures !ok ==> tables.Now() == old(tables.Now())
      ensures ok ==> Built(old(tables.Now()), tables.Now(), proto)
      ensures SymbolsStay() ==> tables.knownBadFiles == old(tables.knownBadFiles)
      ensures IsExact(old(tables.Now())) ==> (ok <==> Buildable(options, old(tables.Now()), proto))
      ensures SymbolsStay() && ok ==> Gained(options, old(tables.Now()), tables.Now(), proto)
      decreases Measure(universe), 3
    {
      hide Consistent, Good, Kept, Left, Buildable, Gained, Includes, Admissible, AllResolvable, SightOf;
      tables.AddCheckpoint();
      ghost var snapshot := tables.Now();
      var builder := new DescriptorBuilder(this, proto.name, proto.package);
      ok := builder.BuildFileImpl(proto, universe);
      if ok {
        tables.ClearLastCheckpoint();
      } else {
        tables.RollbackToLastCheckpoint();
        KeptReflexive(options, snapshot);
      }
    }

    twostate lemma TriedStays(name: string)
      requires old(tables.files.Keys) <= tables.files.Keys && old(tables.knownBadFiles) <= tables.knownBadFiles
      ensures old(Tried(name)) ==> Tried(name)
    {
    }

    /** The file is on the stack of pending files while its dependencies are loaded; it does
        not matter here whether they can be. */
    method LoadDependencies(proto: Proto, ghost universe: set<string>, ghost goal: Goal, ghost n: nat)
      requires Ready(universe) && proto.name in universe && proto.name !in tables.pendingFiles
      requires db.Some?
      modifies tables
      ensures Ready(universe)
      ensures tables.snaps == old(tables.snaps) && tables.pendingFiles == old(tables.pendingFiles)
      ensures old(tables.knownBadFiles) <= tables.knownBadFiles
      ensures Kept(options, old(tables.Now()), tables.Now())
      // Every dependency is there or has been tried.
      ensures forall i | 0 <= i < |proto.dependencies| :: Tried(proto.dependencies[i])
      ensures AllThere(proto.dependencies, old(tables.files.Keys)) ==> tables.Now() == old(tables.Now())
      // The imports of a file of a plan are all loaded.
      ensures old(Planned(goal, n, proto.name)) && proto == db.value.files[proto.name] ==>
                && AllThere(proto.dependencies, tables.files.Keys) && tables.knownBadFiles == old(tables.knownBadFiles)
                && OnlyAdded(goal, n - 1, old(tables.Now()), tables.Now())
                && Following(options, db.value.files, goal, n, tables.Now(), tables.knownBadFiles, tables.pendingFiles)
      decreases Measure(universe), 2
    {
      hide Consistent, Good, Kept, Left, Following, OnlyAdded, Importing, Tried;
      ghost var entry, bad := tables.Now(), tables.knownBadFiles;
      KeptReflexive(options, entry);
      ghost var start := tables.pendingFiles;
      ghost var planned := Planned(goal, n, proto.name) && proto == db.value.files[proto.name];
      PlannedIsGood(goal, n, proto.name);
      if planned {
        WhilePending(options, db.value.files, goal, n - 1, entry, bad, start);
      }
      tables.pendingFiles := tables.pendingFiles + [proto.name];
      LeftWhilePending(universe, start, tables.files.Keys, proto.name);
      var i := 0;
      while i < |proto.dependencies|
        invariant Ready(universe)
        invariant tables.snaps == old(tables.snaps)
        invariant old(tables.knownBadFiles) <= tables.knownBadFiles
        invariant 0 <= i <= |proto.dependencies|
        invariant forall j | 0 <= j < i :: Tried(proto.dependencies[j])
        invariant tables.pendingFiles == start + [proto.name]
        invariant Measure(universe) < old(Measure(universe))
        invariant ImportsSoFar(proto, i, planned, goal, n, entry, bad)
      {
        label Before:
        LoadDependency(proto, i, universe, planned, goal, n, entry, bad);
        forall j | 0 <= j < i ensures Tried(proto.dependencies[j]) {
          TriedStays@Before(proto.dependencies[j]);
        }
        i := i + 1;
      }
      label End:
      tables.pendingFiles := tables.pendingFiles[..|tables.pendingFiles| - 1];
      assert tables.pendingFiles == start;
      forall j | 0 <= j < i ensures Tried(proto.dependencies[j]) {
        TriedStays@End(proto.dependencies[j]);
      }
      if planned {
        NoLongerPending(options, db.value.files, goal, n - 1, entry, tables.Now(), bad, start);
      }
    }

    /** The first `i` dependencies of the file have been loaded, as planned if it is `planned`. */
    ghost predicate ImportsSoFar(proto: Proto, i: nat, planned: bool, goal: Goal, n: nat, entry: Contents, bad: set<string>)
      requires db.Some?
      reads tables
    {
      && Kept(options, entry, tables.Now())
      && (AllThere(proto.dependencies, entry.files.Keys) ==> tables.Now() == entry)
      && (planned ==>
            && SymbolsStay() && tables.knownBadFiles == bad
            && 0 < n <= |goal.plan| && goal.plan[n - 1] in db.value.files
            && db.value.files[goal.plan[n - 1]] == proto
            && Importing(options, db.value.files, goal, n - 1, i, entry, tables.Now(), bad, tables.pendingFiles))
    }

    method LoadDependency(proto: Proto, i: nat, ghost universe: set<string>, ghost planned: bool, ghost goal: Goal,
                          ghost n: nat, ghost entry: Contents, ghost bad: set<string>)
      requires Ready(universe) && db.Some? && i < |proto.dependencies|
      requires ImportsSoFar(proto, i, planned, goal, n, entry, bad)
      modifies tables
      ensures Ready(universe)
      ensures tables.snaps == old(tables.snaps) && tables.pendingFiles == old(tables.pendingFiles)
      ensures old(tables.knownBadFiles) <= tables.knownBadFiles && old(tables.files.Keys) <= tables.files.Keys
      ensures Measure(universe) <= old(Measure(universe))
      ensures Tried(proto.dependencies[i])
      ensures ImportsSoFar(proto, i + 1, planned, goal, n, entry, bad)
      decreases Measure(universe), 7
    {
      hide Consistent, Good, Kept, Left, Following, Importing, OnlyAdded;
      ghost var before, m := tables.Now(), 0;
      var name := proto.dependencies[i];
      if name !in tables.files {
        if planned {
          m := ImportIsEarlier(options, db.value.files, goal, n - 1, i, entry, before, bad, tables.pendingFiles);
        }
        var _, _ := TryFindFileInFallbackDatabase(name, universe, goal, m);
        KeptGrows(options, before, tables.Now());
        LeftShrinks(universe, tables.pendingFiles, before.files.Keys, tables.files.Keys);
        KeptTransitive(options, entry, before, tables.Now());
      }
      if planned {
        ImportNext(options, db.value.files, goal, n - 1, i, m, entry, before, tables.Now(), bad, tables.pendingFiles);
      }
    }
  }

  class DescriptorBuilder {
    const pool: DescriptorPool
    const fileName: string
    const package: string
    var hadErrors: bool
    var dependencies: set<string>

    constructor (pool: DescriptorPool, fileName: string, package: string)
      ensures this.pool == pool && this.fileName == fileName && this.package == package
      ensures !hadErrors && dependencies == {}
    {
      this.pool, this.fileName, this.package := pool, fileName, package;
      hadErrors, dependencies := false, {};
    }

    ghost function Sight(): View
      reads this, pool.tables
    {
      View(pool.tables.symbols, pool.tables.files, fileName, package, dependencies, pool.options.enforceDependencies)
    }

    /** The file being built is in a well-formed pool that enforces dependencies. */
    ghost predicate IsSettled()
      reads this, pool.tables
    {
      Settled(pool.options, pool.tables.Now(), Sight())
    }

    // -------------------------------------------------------------- symbols

    /** AddSymbol. */
    method AddSymbol(at: nat, kind: Kind) returns (added: bool)
      requires pool.tables.Valid() && at < |pool.tables.strings|
      modifies this`hadErrors, pool.tables`symbols, pool.tables`symbolsAfterCheckpoint
      ensures pool.tables.Valid()
      ensures hadErrors <==> old(hadErrors) || !added
      ensures var name := pool.tables.strings[at];
              added <==> name !in old(pool.tables.symbols) && '\0' !in name
      ensures pool.tables.symbols ==
              if added then old(pool.tables.symbols)[pool.tables.strings[at] := Entry(at, Symbol(kind, fileName))]
              else old(pool.tables.symbols)
      ensures Outcome(old(pool.tables.symbols), pool.tables.symbols, old(hadErrors), hadErrors, true,
                      [(pool.tables.strings[at], Symbol(kind, fileName))])
    {
      hide Consistent, Outcome;
      ghost var before := pool.tables.symbols;
      if '\0' in pool.tables.strings[at] {
        hadErrors := true;
        OutcomeSymbol(before, before, old(hadErrors), true, pool.tables.strings[at], Entry(at, Symbol(kind, fileName)));
        return false;
      }
      added := pool.tables.AddSymbol(at, Symbol(kind, fileName));
      if !added {
        hadErrors := true;
      }
      OutcomeSymbol(before, pool.tables.symbols, old(hadErrors), hadErrors, pool.tables.strings[at],
                    Entry(at, Symbol(kind, fileName)));
    }

    /** ValidateSymbolName. */
    method ValidateSymbolName(name: string)
      modifies this`hadErrors
      ensures hadErrors == (old(hadErrors) || !ValidName(name))
    {
      if name == [] {
        hadErrors := true;
      }
      var i := 0;
      while i < |name|
        invariant 0 <= i <= |name|
        invariant hadErrors <==> old(hadErrors) || name == [] || exists j | 0 <= j < i :: !IdentifierChar(name[j])
      {
        if !('a' <= name[i] <= 'z' || 'A' <= name[i] <= 'Z' || '0' <= name[i] <= '9' || name[i] == '_') {
          hadErrors := true;
        }
        i := i + 1;
      }
    }

    /** ValidateQualifiedName. */
    method ValidateQualifiedName(name: string) returns (valid: bool)
      ensures valid <==> ValidQualifiedName(name)
    {
      var lastWasPeriod := false;
      var i := 0;
      while i < |name|
        invariant 0 <= i <= |name|
        invariant lastWasPeriod <==> i > 0 && name[i - 1] == '.'
        invariant forall j | 0 <= j < i ::
                    IdentifierChar(name[j]) || (name[j] == '.' && (j == 0 || name[j - 1] != '.'))
      {
        if 'a' <= name[i] <= 'z' || 'A' <= name[i] <= 'Z' || '0' <= name[i] <= '9' || name[i] == '_' {
          lastWasPeriod := false;
        } else if name[i] == '.' {
          if lastWasPeriod {
            return false;
          }
          lastWasPeriod := true;
        } else {
          return false;
        }
        i := i + 1;
      }
      return name != [] && !lastWasPeriod;
    }

    /** AddPackage: the package and all its parents, up to the first that exists. */
    method AddPackage(at: nat, ghost closed: bool)
      requires pool.tables.Valid() && at < |pool.tables.strings|
      requires closed && !hadErrors ==> ClosedBelow(pool.tables.symbols, pool.tables.strings[at])
      modifies this`hadErrors, pool.tables`symbols, pool.tables`symbolsAfterCheckpoint, pool.tables`strings
      ensures pool.tables.Valid()
      ensures old(hadErrors) ==> hadErrors
      ensures Later(old(pool.tables.Now()), pool.tables.Now())
      ensures closed && !hadErrors ==> Closed(pool.tables.symbols)
      ensures !hadErrors ==>
                var name := old(pool.tables.strings)[at];
                name in pool.tables.symbols && pool.tables.symbols[name].value.kind == Package
      // An error exactly if the package is not in order; else exactly the missing packages are added.
      ensures Outcome(old(pool.tables.symbols), pool.tables.symbols, old(hadErrors), hadErrors,
                      PackageOk(old(pool.tables.symbols), old(pool.tables.strings)[at]),
                      Chain(old(pool.tables.symbols), old(pool.tables.strings)[at], fileName))
      decreases |pool.tables.strings[at]|
    {
      hide Consistent, Closed, ClosedBelow, ValidName, Later, Outcome;
      ghost var start := pool.tables.symbols;
      ghost var entry := pool.tables.Now();
      LaterReflexive(entry);
      var name := pool.tables.strings[at];
      ghost var had := hadErrors;
      if '\0' in name {
        hadErrors := true;
        OutcomeError(start, start, had, false, Chain(start, name, fileName));
        return;
      }
      var added := pool.tables.AddSymbol(at, Symbol(Package, fileName));
      if added {
        ghost var mid := pool.tables.Now();
        OutcomeSymbol(start, mid.symbols, had, had, name, Entry(at, Symbol(Package, fileName)));
        LaterSymbol(entry, name, Entry(at, Symbol(Package, fileName)));
        if closed && !hadErrors {
          AddPackageSymbol(start, name, Entry(at, Symbol(Package, fileName)));
        }
        var dot := LastDot(name);
        ghost var hadParents := hadErrors;
        if dot < 0 {
          ValidateSymbolName(name);
        } else {
          var parent := pool.tables.AllocateString(name[..dot]);
          LaterString(mid, name[..dot]);
          ghost var late := pool.tables.Now();
          AddPackage(parent, closed);
          LaterTransitive(mid, late, pool.tables.Now());
          LaterTransitive(entry, mid, pool.tables.Now());
          LaterSymbols(mid, pool.tables.Now());
          hadParents := hadErrors;
          ValidateSymbolName(name[dot + 1..]);
        }
        OutcomePackage(start, mid.symbols, pool.tables.symbols, name, Entry(at, Symbol(Package, fileName)), fileName,
                       had, had, hadParents, hadErrors);
      } else if pool.tables.symbols[name].value.kind != Package {
        hadErrors := true;
        OutcomeCheck(start, had, true, false);
      } else {
        OutcomeCheck(start, had, had, true);
        if closed && !hadErrors {
          ExistingPackage(pool.tables.symbols, name);
        }
      }
    }

    /** BuildMessage, BuildEnum, BuildField, ...: what is declared inside comes first, then the
        symbol itself.  The values of an enum are its siblings. */
    method BuildDecl(scope: string, d: Decl, ghost open: set<string>, ghost closed: bool)
      requires pool.tables.Valid()
      requires closed && !hadErrors ==> ClosedExcept(pool.tables.symbols, open) && ScopeKnown(pool.tables.symbols, scope, open)
      modifies this`hadErrors, pool.tables`symbols, pool.tables`symbolsAfterCheckpoint, pool.tables`strings
      ensures pool.tables.Valid()
      ensures old(hadErrors) ==> hadErrors
      ensures Later(old(pool.tables.Now()), pool.tables.Now())
      ensures closed && !hadErrors ==> ClosedExcept(pool.tables.symbols, open)
      // An error exactly if a name is invalid, taken or used twice; else exactly the symbols
      // declared are added.
      ensures Outcome(old(pool.tables.symbols), pool.tables.symbols, old(hadErrors), hadErrors,
                      DeclValid(d), Declared(scope, d, fileName))
      decreases d, |d.children| + 1
    {
      hide Consistent, ClosedExcept, ScopeKnown, Join, ValidName, Later, Outcome, DeclValid, ValidUpTo, Declared, DeclaredUpTo, Inner;
      ghost var had, start := hadErrors, pool.tables.Now();
      var full := Join(scope, d.name);
      if closed && !hadErrors {
        ScopeOpens(start.symbols, scope, d, open);
      }
      var at := pool.tables.AllocateString(full);
      LaterString(start, full);
      ValidateSymbolName(d.name);
      OutcomeStart(scope, d, fileName, start.symbols, had, hadErrors);
      ghost var named, hadName := pool.tables.Now(), hadErrors;
      BuildChildren(scope, d, open + {full}, closed, start.symbols, had);
      ghost var here, hadHere := pool.tables.Now(), hadErrors;
      LaterSymbols(named, here);
      LaterTransitive(start, named, here);
      if closed && !hadErrors {
        ScopeStays(start, here, scope, open);
      }
      var added := AddSymbol(at, d.kind);
      LaterReflexive(here);
      if added {
        LaterSymbol(here, full, Entry(at, Symbol(d.kind, fileName)));
      }
      LaterTransitive(start, here, pool.tables.Now());
      OutcomeDecl(scope, d, fileName, start.symbols, here.symbols, pool.tables.symbols, had, hadHere, hadErrors);
      if closed && !hadErrors {
        AddDeclSymbol(here.symbols, scope, d.name, Entry(at, Symbol(d.kind, fileName)), open);
      }
    }

    /** What is declared inside, after the name itself has been checked; `before` and `had` are the
        symbols and the error flag before that. */
    method BuildChildren(scope: string, d: Decl, ghost inner: set<string>, ghost closed: bool,
                         ghost before: map<string, Entry<Symbol>>, ghost had: bool)
      requires pool.tables.Valid()
      requires closed && !hadErrors ==>
                 ClosedExcept(pool.tables.symbols, inner) && ScopeKnown(pool.tables.symbols, Inner(scope, d), inner)
      requires Outcome(before, pool.tables.symbols, had, hadErrors, ValidUpTo(d, 0), DeclaredUpTo(scope, d, 0, fileName))
      modifies this`hadErrors, pool.tables`symbols, pool.tables`symbolsAfterCheckpoint, pool.tables`strings
      ensures pool.tables.Valid()
      ensures old(hadErrors) ==> hadErrors
      ensures Later(old(pool.tables.Now()), pool.tables.Now())
      ensures closed && !hadErrors ==> ClosedExcept(pool.tables.symbols, inner)
      ensures Outcome(before, pool.tables.symbols, had, hadErrors,
                      ValidUpTo(d, |d.children|), DeclaredUpTo(scope, d, |d.children|, fileName))
      decreases d, |d.children|
    {
      hide Consistent, ClosedExcept, ScopeKnown, Join, Later, Outcome, DeclValid, ValidUpTo, Declared, DeclaredUpTo, Inner;
      ghost var start := pool.tables.Now();
      LaterReflexive(start);
      var i := 0;
      while i < |d.children|
        invariant 0 <= i <= |d.children|
        invariant pool.tables.Valid()
        invariant old(hadErrors) ==> hadErrors
        invariant Outcome(before, pool.tables.symbols, had, hadErrors, ValidUpTo(d, i), DeclaredUpTo(scope, d, i, fileName))
        invariant Later(start, pool.tables.Now())
        invariant closed && !hadErrors ==> ClosedExcept(pool.tables.symbols, inner)
      {
        ghost var here, hadHere := pool.tables.Now(), hadErrors;
        if closed && !hadErrors {
          ScopeStays(start, here, Inner(scope, d), inner);
        }
        BuildDecl(Inner(scope, d), d.children[i], inner, closed);
        LaterTransitive(start, here, pool.tables.Now());
        OutcomeChild(scope, d, i, fileName, before, here.symbols, pool.tables.symbols, had, hadHere, hadErrors);
        i := i + 1;
      }
    }

    method BuildDecls(scope: string, decls: seq<Decl>, ghost closed: bool)
      requires pool.tables.Valid()
      requires closed && !hadErrors ==> Closed(pool.tables.symbols) && (scope == [] || scope in pool.tables.symbols)
      modifies this`hadErrors, pool.tables`symbols, pool.tables`symbolsAfterCheckpoint, pool.tables`strings
      ensures pool.tables.Valid()
      ensures old(hadErrors) ==> hadErrors
      ensures Later(old(pool.tables.Now()), pool.tables.Now())
      ensures closed && !hadErrors ==> Closed(pool.tables.symbols)
      ensures Outcome(old(pool.tables.symbols), pool.tables.symbols, old(hadErrors), hadErrors,
                      AllValid(decls), DeclaredAll(scope, decls, fileName))
    {
      hide Consistent, Later, Outcome, DeclaredAll, AllValid, Closed, ClosedExcept;
      ghost var start, had := pool.tables.Now(), hadErrors;
      LaterReflexive(start);
      NothingDeclared(scope, decls, fileName, start.symbols, had);
      var i := 0;
      while i < |decls|
        invariant 0 <= i <= |decls|
        invariant pool.tables.Valid()
        invariant had ==> hadErrors
        invariant Later(start, pool.tables.Now())
        invariant closed && !hadErrors ==> Closed(pool.tables.symbols)
        invariant Outcome(start.symbols, pool.tables.symbols, had, hadErrors, AllValid(decls[..i]), DeclaredAll(scope, decls[..i], fileName))
      {
        ghost var here, hadHere := pool.tables.Now(), hadErrors;
        if closed && !hadErrors {
          NothingOpen(here.symbols);
          LaterSymbols(start, here);
        }
        BuildDecl(scope, decls[i], {}, closed);
        LaterTransitive(start, here, pool.tables.Now());
        OutcomeNext(scope, decls, i, fileName, start.symbols, here.symbols, pool.tables.symbols, had, hadHere, hadErrors);
        NothingOpen(pool.tables.symbols);
        i := i + 1;
      }
      assert decls[..i] == decls;
    }

    // -------------------------------------------------------------- references

    /** FindSymbol.  A symbol that is not there is looked for in the database, and if that fails
        the answer is null, even if a file loaded on the way has brought the symbol. */
    method FindSymbol(name: string, ghost universe: set<string>)
      returns (r: Option<Symbol>, ghost loaded: bool, ghost start: Contents)
      requires pool.Ready(universe)
      modifies pool.tables
      ensures pool.Ready(universe)
      ensures pool.tables.snaps == old(pool.tables.snaps) && pool.tables.pendingFiles == old(pool.tables.pendingFiles)
      ensures old(pool.tables.knownBadFiles) <= pool.tables.knownBadFiles
      ensures Kept(pool.options, old(pool.tables.Now()), pool.tables.Now())
      ensures pool.SymbolsStay() ==>
                pool.tables.Now() == old(pool.tables.Now()) && pool.tables.knownBadFiles == old(pool.tables.knownBadFiles)
      // What the file may see of a name that is there, or of one that has been loaded for it; ...
      ensures name in old(pool.tables.symbols) ==>
                !loaded && pool.tables.Now() == old(pool.tables.Now()) && r == Find(Sight(), name)
      ensures loaded ==>
                && pool.db.Some? && name in pool.db.value.symbols
                && pool.db.value.symbols[name].name in pool.tables.files && r == Find(Sight(), name)
      // ... else nothing, and it is remembered that the database does not help.
      ensures name !in old(pool.tables.symbols) && !loaded ==>
                r == None && (pool.db.Some? ==> name in pool.tables.knownBadSymbols)
      // It is loaded exactly if the database comes up with a file that can be built.
      ensures Kept(pool.options, old(pool.tables.Now()), start)
      ensures !pool.Asked(old(pool.tables.symbols), old(pool.tables.files.Keys), old(pool.tables.knownBadSymbols), name) ==>
                !loaded
      ensures name !in old(pool.tables.symbols) &&
              pool.Asked(old(pool.tables.symbols), old(pool.tables.files.Keys), old(pool.tables.knownBadSymbols), name) ==>
                var proto := pool.db.value.symbols[name];
                && (proto.name in old(pool.tables.knownBadFiles) ==> !loaded)
                && (proto.name !in old(pool.tables.knownBadFiles) && pool.IsExact(start) ==>
                      (loaded <==> proto.name !in pool.tables.pendingFiles && Buildable(pool.options, start, proto)))
                && (AllThere(proto.dependencies, old(pool.tables.files.Keys)) ==> start == old(pool.tables.Now()))
      ensures FoundBetween(old(Sight()), Sight(), name, r)
      ensures Sight() == old(Sight()) ==> r == Find(Sight(), name)
      decreases pool.Measure(universe), 7
    {
      hide Consistent, Good, Kept, Left, Buildable;
      start := pool.tables.Now();
      KeptReflexive(pool.options, start);
      loaded := false;
      if name !in pool.tables.symbols {
        var found;
        found, start := pool.TryFindSymbolInFallbackDatabase(name, universe);
        if !found {
          return None, false, start;
        }
        loaded := true;
      }
      r := Find(View(pool.tables.symbols, pool.tables.files, fileName, package, dependencies,
                     pool.options.enforceDependencies), name);
    }

    /** LookupSymbolNoPlaceholder: the scope is chopped from the end.  Files may be loaded on the
        way. */
    method LookupSymbolNoPlaceholder(name: string, from: string, mode: Mode, ghost universe: set<string>)
      returns (r: Option<Symbol>)
      requires pool.Ready(universe)
      modifies pool.tables
      ensures pool.Ready(universe)
      ensures pool.tables.snaps == old(pool.tables.snaps) && pool.tables.pendingFiles == old(pool.tables.pendingFiles)
      ensures old(pool.tables.knownBadFiles) <= pool.tables.knownBadFiles
      ensures Kept(pool.options, old(pool.tables.Now()), pool.tables.Now())
      ensures pool.SymbolsStay() ==>
                pool.tables.Now() == old(pool.tables.Now()) && pool.tables.knownBadFiles == old(pool.tables.knownBadFiles)
      // The deciding scope is acceptable in the end and none inside it was in the beginning, ...
      ensures ResolvesBetween(old(Sight()), Sight(), name, from, mode, r)
      // ... so if nothing was loaded it is exactly the innermost acceptable one.
      ensures Sight() == old(Sight()) ==> Resolves(Sight(), name, from, mode, r)
      // Where dependencies are enforced, whatever is loaded makes no difference.
      ensures old(IsSettled()) ==> r == Resolution(old(Sight()), name, from, mode)
      decreases pool.Measure(universe), 8
    {
      hide Settled, Resolution, Consistent, Good, Kept, Left, Find, Acceptable, NoneFrom, Resolves, ResolvesBetween, FoundBetween, Grows;
      ghost var entry, view := pool.tables.Now(), Sight();
      ghost var loaded, begun;
      KeptReflexive(pool.options, entry);
      if name != [] && name[0] == '.' {
        r, loaded, begun := FindSymbol(name[1..], universe);
        BetweenDotted(view, Sight(), name, from, mode, r);
        SameAtTheEnd(entry, pool.tables.Now(), view, Sight(), name, from, mode, r);
        return;
      }
      var firstPart := FirstPart(name);
      var scope := from;
      NoneAtEnd(view, from, name, mode);
      while true
        invariant pool.Ready(universe)
        invariant pool.tables.snaps == old(pool.tables.snaps) && pool.tables.pendingFiles == old(pool.tables.pendingFiles)
        invariant old(pool.tables.knownBadFiles) <= pool.tables.knownBadFiles
        invariant Kept(pool.options, entry, pool.tables.Now())
        invariant pool.Measure(universe) <= old(pool.Measure(universe))
        invariant pool.SymbolsStay() ==>
                    pool.tables.Now() == entry && pool.tables.knownBadFiles == old(pool.tables.knownBadFiles)
        invariant scope <= from
        invariant NoneFrom(view, from, |scope|, name, mode)
        decreases |scope|
      {
        ghost var before, sight := pool.tables.Now(), Sight();
        SightGrows(entry, before, view, sight);
        NoneAbove(view, from, scope, name, mode);
        var dot := LastDot(scope);
        if dot < 0 {
          r, loaded, begun := FindSymbol(name, universe);
          KeptTransitive(pool.options, entry, before, pool.tables.Now());
          ProbeBetween(view, sight, Sight(), name, r);
          BetweenGlobally(view, Sight(), name, from, mode, r);
          SameAtTheEnd(entry, pool.tables.Now(), view, Sight(), name, from, mode, r);
          return;
        }
        assert scope[..dot] == from[..dot] && from[dot] == '.';
        scope := scope[..dot];
        var found;
        found, loaded, begun := FindSymbol(scope + "." + firstPart, universe);
        ghost var probe, seen := pool.tables.Now(), Sight();
        KeptTransitive(pool.options, entry, before, probe);
        KeptGrows(pool.options, before, probe);
        LeftShrinks(universe, pool.tables.pendingFiles, before.files.Keys, probe.files.Keys);
        ProbeBetween(view, sight, seen, scope + "." + firstPart, found);
        if found.Some? {
          if |firstPart| < |name| {
            if found.value.IsAggregate() {
              ProbeAccepts(view, seen, from, dot, name, mode, found);
              SightGrows(entry, probe, view, seen);
              r, loaded, begun := FindSymbol(scope + "." + name, universe);
              KeptTransitive(pool.options, entry, probe, pool.tables.Now());
              SightGrows(probe, pool.tables.Now(), seen, Sight());
              AcceptableGrows(seen, Sight(), from, dot, name, mode);
              ProbeBetween(view, seen, Sight(), scope + "." + name, r);
              BetweenAt(view, Sight(), name, from, dot, mode, r);
              SameAtTheEnd(entry, pool.tables.Now(), view, Sight(), name, from, mode, r);
              return;
            }
          } else if mode == LookupTypes && !found.value.IsType() {
          } else {
            assert firstPart == name;
            ProbeAccepts(view, seen, from, dot, name, mode, found);
            BetweenAt(view, seen, name, from, dot, mode, found);
            SameAtTheEnd(entry, probe, view, seen, name, from, mode, found);
            return found;
          }
        }
        ProbeRulesOut(view, seen, from, dot, name, mode, found);
        NoneHere(view, from, dot, name, mode);
      }
    }

    /** What the answer is in the two cases in which there is only one. */
    lemma SameAtTheEnd(a: Contents, b: Contents, v: View, w: View, name: string, from: string, mode: Mode, r: Option<Symbol>)
      requires ResolvesBetween(v, w, name, from, mode, r)
      requires Kept(pool.options, a, b) && w == v.(symbols := b.symbols, files := b.files)
      ensures w == v ==> Resolves(w, name, from, mode, r)
      ensures Settled(pool.options, a, v) ==> r == Resolution(v, name, from, mode)
    {
      hide Resolves, ResolvesBetween, Settled, Kept, Resolution;
      if w == v {
        ResolvesBetweenSame(v, name, from, mode, r);
      }
      if Settled(pool.options, a, v) {
        LookupStays(a, a, b, v, v, w, name, from, mode, r);
      }
    }

    /** Either way its answer is the one of the rule. */
    lemma LookupExact(start: Contents, a: Contents, b: Contents, u: View, v: View, w: View,
                      name: string, from: string, mode: Mode, r: Option<Symbol>)
      requires u.symbols == start.symbols && u.files == start.files
      requires Kept(pool.options, start, a) && Kept(pool.options, a, b) && Kept(pool.options, start, b)
      requires v == u.(symbols := a.symbols, files := a.files) && w == u.(symbols := b.symbols, files := b.files)
      requires ResolvesBetween(v, w, name, from, mode, r)
      ensures Settled(pool.options, start, u) || w == u ==> r == Resolution(u, name, from, mode)
      ensures w == u ==> v == u
    {
      hide ResolvesBetween, Settled, Kept, Resolution, Resolves;
      if w == u {
        Unchanged(pool.options, start, a, b);
      }
      if Settled(pool.options, start, u) {
        LookupStays(start, a, b, u, v, w, name, from, mode, r);
      } else if w == u {
        ResolvesBetweenSame(u, name, from, mode, r);
        ResolutionExact(u, name, from, mode, r);
      }
    }

    /** A lookup made some time after the view was settled. */
    lemma LookupStays(start: Contents, a: Contents, b: Contents, u: View, v: View, w: View,
                      name: string, from: string, mode: Mode, r: Option<Symbol>)
      requires Settled(pool.options, start, u)
      requires start == a || Kept(pool.options, start, a)
      requires Kept(pool.options, start, b)
      requires v == if start == a then u else u.(symbols := a.symbols, files := a.files)
      requires w == u.(symbols := b.symbols, files := b.files)
      requires ResolvesBetween(v, w, name, from, mode, r)
      ensures r == Resolution(u, name, from, mode)
    {
      hide ResolvesBetween, Settled, Kept, Resolution, Find;
      if start != a {
        FindsStay(pool.options, start, a, u, v);
      }
      FindsStay(pool.options, start, b, u, w);
      BetweenIsExact(u, v, w, name, from, mode, r);
    }

    /** What the file can see grows with the pool. */
    lemma SightGrows(a: Contents, b: Contents, v: View, w: View)
      requires Kept(pool.options, a, b)
      requires v.symbols == a.symbols && v.files == a.files
      requires w == v.(symbols := b.symbols, files := b.files)
      ensures Grows(v, w)
    {
      hide Good;
    }

    /** LookupSymbol for every reference: an unknown name is an error, unless placeholders may
        stand in. */
    method CrossLink(references: seq<Reference>, ghost universe: set<string>)
      requires pool.Ready(universe)
      modifies pool.tables, this`hadErrors
      ensures pool.Ready(universe)
      ensures pool.tables.snaps == old(pool.tables.snaps) && pool.tables.pendingFiles == old(pool.tables.pendingFiles)
      ensures old(pool.tables.knownBadFiles) <= pool.tables.knownBadFiles
      ensures Kept(pool.options, old(pool.tables.Now()), pool.tables.Now())
      ensures old(hadErrors) ==> hadErrors
      ensures pool.SymbolsStay() ==>
                pool.tables.Now() == old(pool.tables.Now()) && pool.tables.knownBadFiles == old(pool.tables.knownBadFiles)
      // Without an error every reference leads somewhere in the end.
      ensures !hadErrors ==> AllResolvable(pool.options, Sight(), references)
      // If nothing had to be built, an error exactly if some reference leads nowhere.
      ensures Sight() == old(Sight()) ==>
                (hadErrors <==> old(hadErrors) || !AllResolved(pool.options, Sight(), references))
      // And so where dependencies are enforced, whatever is loaded.
      ensures old(IsSettled()) ==>
                (hadErrors <==> old(hadErrors) || !AllResolved(pool.options, old(Sight()), references))
      decreases pool.Measure(universe), 9
    {
      hide Settled, Consistent, Good, Kept, Left, Resolves, ResolvesBetween, Resolution, ValidQualifiedName, Find, AllResolvable, Grows;
      ghost var entry, view, had := pool.tables.Now(), Sight(), hadErrors;
      ghost var settled := IsSettled();
      KeptReflexive(pool.options, entry);
      NoReferences(pool.options, view, references);
      var i := 0;
      while i < |references|
        invariant pool.Ready(universe)
        invariant pool.tables.snaps == old(pool.tables.snaps) && pool.tables.pendingFiles == old(pool.tables.pendingFiles)
        invariant old(pool.tables.knownBadFiles) <= pool.tables.knownBadFiles
        invariant Kept(pool.options, entry, pool.tables.Now())
        invariant pool.Measure(universe) <= old(pool.Measure(universe))
        invariant had ==> hadErrors
        invariant pool.SymbolsStay() ==>
                    pool.tables.Now() == entry && pool.tables.knownBadFiles == old(pool.tables.knownBadFiles)
        invariant 0 <= i <= |references|
        invariant !hadErrors ==> AllResolvable(pool.options, Sight(), references[..i])
        invariant settled || Sight() == view ==> (hadErrors <==> had || !AllResolved(pool.options, view, references[..i]))
      {
        ghost var before, sight := pool.tables.Now(), Sight();
        var symbol := LookupSymbolNoPlaceholder(references[i].name, references[i].from, references[i].mode, universe);
        KeptGrows(pool.options, before, pool.tables.Now());
        LeftShrinks(universe, pool.tables.pendingFiles, before.files.Keys, pool.tables.files.Keys);
        KeptTransitive(pool.options, entry, before, pool.tables.Now());
        LookupExact(entry, before, pool.tables.Now(), view, sight, Sight(),
                    references[i].name, references[i].from, references[i].mode, symbol);
        ResolvedStep(pool.options, view, references, i);
        SightGrows(before, pool.tables.Now(), sight, Sight());
        if symbol.None? {
          var valid := ValidateQualifiedName(references[i].name);
          if !(pool.options.allowUnknown && valid) {
            hadErrors := true;
          }
        }
        if !hadErrors {
          ResolvableStep(pool.options, sight, Sight(), references, i, symbol);
        }
        i := i + 1;
      }
      assert references[..i] == references;
    }

    // -------------------------------------------------------------- files

    /** The loop over the dependencies: each is a file of the pool, or becomes a placeholder, or
        is an error.  `self` says that the file imports itself. */
    method ResolveImports(proto: Proto) returns (imports: seq<Import>, self: bool)
      requires pool.tables.Valid()
      modifies this`hadErrors
      ensures self <==> proto.name in proto.dependencies
      ensures !self ==> imports == ImportsOf(pool.options, pool.tables.files.Keys, proto)
      ensures !self ==> (hadErrors <==> old(hadErrors) || !ImportsOk(pool.options, pool.tables.files.Keys, proto))
    {
      hide Consistent, ImportsOkUpTo;
      ghost var files := pool.tables.files.Keys;
      imports, self := [], false;
      var i := 0;
      NoImports(pool.options, files, proto);
      while i < |proto.dependencies|
        invariant 0 <= i <= |proto.dependencies|
        invariant proto.name !in proto.dependencies[..i]
        invariant imports == ImportsOf(pool.options, files, proto)[..i]
        invariant hadErrors <==> old(hadErrors) || !ImportsOkUpTo(pool.options, files, proto, i)
      {
        var name := proto.dependencies[i];
        ImportStep(pool.options, files, proto, i);
        if name in proto.dependencies[..i] {
          hadErrors := true;
        }
        if name == proto.name {
          return imports, true;
        }
        if name in pool.tables.files {
          imports := imports + [Found(name)];
        } else if pool.options.allowUnknown || (!pool.options.enforceWeak && i in proto.weak) {
          imports := imports + [Placeholder(name)];
        } else {
          hadErrors := true;
          imports := imports + [Missing(name)];
        }
        i := i + 1;
      }
    }

    /** The first half of BuildFileImpl: the file, its package, its dependencies and its symbols
        are added.  The imports are resolved before the file is added to the table, to which
        that loop adds nothing. */
    method AddContents(proto: Proto) returns (ok: bool)
      requires pool.tables.Valid()
      requires fileName == proto.name && package == proto.package && !hadErrors
      modifies this, pool.tables
      ensures pool.tables.Valid()
      ensures pool.tables.snaps == old(pool.tables.snaps) && pool.tables.pendingFiles == old(pool.tables.pendingFiles)
      ensures pool.tables.knownBadFiles == old(pool.tables.knownBadFiles)
      ensures Later(old(pool.tables.Now()), pool.tables.Now())
      ensures ok <==> '\0' !in proto.name && proto.name !in old(pool.tables.files) && proto.name !in proto.dependencies
      ensures ok ==> pool.tables.files == FilesWith(pool.options, old(pool.tables.Now()), proto)
      ensures ok ==> Sight() == ViewOf(pool.options, old(pool.tables.Now()), proto, pool.tables.symbols)
      // What it sees are its dependencies that were there, with what these import publicly.
      ensures ok ==> forall n :: n in dependencies <==> Sees(pool.tables.files, old(pool.tables.files.Keys), proto, n)
      ensures ok ==> Outcome(old(pool.tables.symbols), pool.tables.symbols, false, hadErrors,
                             Sound(pool.options, old(pool.tables.Now()), proto), NewSymbols(old(pool.tables.Now()), proto))
      ensures ok && !hadErrors ==> FromNewFiles(old(pool.tables.Now()), pool.tables.Now())
      ensures ok && !hadErrors && Good(pool.options, old(pool.tables.Now())) ==> Good(pool.options, pool.tables.Now())
    {
      hide NamesKnown, FromNewFiles, Added, Sees;
      hide Consistent, Good, Closed, Ordered, RecordAll, Later, Outcome, Sound, NewSymbols, ImportsOkUpTo, IndexesOk;
      ghost var entry := pool.tables.Now();
      ghost var good := Good(pool.options, entry);
      GoodParts(pool.options, entry);
      var imports, self := ResolveImports(proto);
      ghost var e1 := hadErrors;
      ok := AddNewFile(proto, imports);
      if !ok {
        return false;
      }
      ghost var t1 := pool.tables.Now();
      AddPackageIfAny(proto.package, good);
      ghost var t2, e2 := pool.tables.Now(), hadErrors;
      LaterTransitive(entry, t1, t2);
      if self {
        return false;
      }
      CheckIndexes(proto.public, |proto.dependencies|);
      dependencies := Visible(pool.tables.files, imports);
      CheckIndexes(proto.weak, |proto.dependencies|);
      ghost var e3 := hadErrors;
      BuildDecls(proto.package, proto.decls, good);
      LaterTransitive(entry, t2, pool.tables.Now());
      OutcomeFile(pool.options, entry, proto, t2.symbols, pool.tables.symbols, e1, e2, e3, hadErrors);
      AllVisibleAreSeen(pool.options, entry, proto);
      if !hadErrors {
        OutcomeWithoutError(entry.symbols, pool.tables.symbols, Sound(pool.options, entry, proto), NewSymbols(entry, proto));
        NewSymbolsAreNew(entry, pool.tables.Now(), proto);
      }
      if good && !hadErrors {
        NamesStayKnown(pool.options, entry, pool.tables.Now(), proto);
        ImportsFacts(pool.options, entry.files.Keys, proto);
        OrderedAfterAdding(pool.options, entry, pool.tables.Now(), File(proto, imports));
      }
      GoodParts(pool.options, pool.tables.Now());
    }

    /** The file's name must not be taken, nor contain a null character. */
    method AddNewFile(proto: Proto, imports: seq<Import>) returns (ok: bool)
      requires pool.tables.Valid()
      modifies pool.tables`strings, pool.tables`files, pool.tables`filesAfterCheckpoint, pool.tables`order
      ensures pool.tables.Valid()
      ensures Later(old(pool.tables.Now()), pool.tables.Now())
      ensures ok <==> '\0' !in proto.name && proto.name !in old(pool.tables.files)
      ensures ok ==> pool.tables.order == old(pool.tables.order) + [proto.name]
      ensures ok ==> pool.tables.files == old(pool.tables.files)[proto.name := Entry(|old(pool.tables.strings)|, File(proto, imports))]
    {
      hide Consistent;
      var at := pool.tables.AllocateString(proto.name);
      if '\0' in proto.name {
        return false;
      }
      ok := pool.tables.AddFile(at, File(proto, imports));
    }

    method AddPackageIfAny(package: string, ghost closed: bool)
      requires pool.tables.Valid()
      requires closed && !hadErrors ==> Closed(pool.tables.symbols)
      modifies this`hadErrors, pool.tables`symbols, pool.tables`symbolsAfterCheckpoint, pool.tables`strings
      ensures pool.tables.Valid()
      ensures old(hadErrors) ==> hadErrors
      ensures Later(old(pool.tables.Now()), pool.tables.Now())
      ensures closed && !hadErrors ==> Closed(pool.tables.symbols)
      ensures !hadErrors && package != [] ==> package in pool.tables.symbols
      ensures Outcome(old(pool.tables.symbols), pool.tables.symbols, old(hadErrors), hadErrors,
                      package == [] || PackageOk(old(pool.tables.symbols), package),
                      if package == [] then [] else Chain(old(pool.tables.symbols), package, fileName))
    {
      hide Consistent, Later, Outcome, Closed, PackageOk, Chain;
      ghost var entry := pool.tables.Now();
      LaterReflexive(entry);
      if package != [] {
        var p := pool.tables.AllocateString(package);
        LaterString(entry, package);
        ghost var here := pool.tables.Now();
        if closed && !hadErrors {
          ClosedIsClosedBelow(here.symbols, package);
        }
        AddPackage(p, closed);
        LaterTransitive(entry, here, pool.tables.Now());
      } else {
        OutcomeCheck(entry.symbols, hadErrors, hadErrors, true);
      }
    }

    /** BuildFileImpl: then the references are resolved, which may load more files. */
    method BuildFileImpl(proto: Proto, ghost universe: set<string>) returns (ok: bool)
      requires pool.Ready(universe) && proto.name in universe
      requires fileName == proto.name && package == proto.package && !hadErrors
      modifies this, pool.tables
      ensures pool.Ready(universe)
      ensures pool.tables.snaps == old(pool.tables.snaps) && pool.tables.pendingFiles == old(pool.tables.pendingFiles)
      ensures old(pool.tables.knownBadFiles) <= pool.tables.knownBadFiles
      ensures ok ==> Kept(pool.options, old(pool.tables.Now()), pool.tables.Now())
      ensures ok ==> proto.name in pool.tables.files && pool.tables.files[proto.name].value.proto == proto
      // Whatever is built was admissible, and all its references lead somewhere.
      ensures ok ==> Admissible(pool.options, old(pool.tables.Now()), proto)
      ensures ok ==> AllResolvable(pool.options, SightOf(pool.options, old(pool.tables.Now()), proto, pool.tables.Now()),
                                   proto.references)
      ensures ok ==> Includes(pool.options, old(pool.tables.Now()), pool.tables.Now(), proto)
      // If no symbol is ever loaded, exactly the buildable files are built, and add exactly this.
      ensures pool.SymbolsStay() ==> pool.tables.knownBadFiles == old(pool.tables.knownBadFiles)
      ensures pool.SymbolsStay() ==> (ok <==> Buildable(pool.options, old(pool.tables.Now()), proto))
      ensures pool.SymbolsStay() && ok ==> Gained(pool.options, old(pool.tables.Now()), pool.tables.Now(), proto)
      // Where dependencies are enforced, exactly the buildable files are built, whatever is loaded.
      ensures pool.options.enforceDependencies && Good(pool.options, old(pool.tables.Now())) ==>
                (ok <==> Buildable(pool.options, old(pool.tables.Now()), proto))
      decreases pool.Measure(universe), 2
    {
      hide Settled, FromNewFiles, FilesWith, Includes;
      hide Consistent, Good, Left, VectorsGrown, RecordAll, Outcome, Buildable, AllResolved, NewSymbols, Sound, Added;
      hide Admissible, AllResolvable;
      ghost var entry := pool.tables.Now();
      ok := AddContents(proto);
      if !ok {
        NotBuildable(pool.options, entry, proto);
        return;
      }
      ghost var added, wrong := pool.tables.Now(), hadErrors;
      BuildableIff(pool.options, entry, proto, added.symbols, wrong);
      FileIsThere(pool.options, entry, added, proto);
      LeftAfterAdding(universe, pool.tables.pendingFiles, entry.files.Keys, added.files.Keys, proto.name);
      ghost var settled := IsSettled();
      if pool.options.enforceDependencies && Good(pool.options, entry) && !wrong {
        IsSettledNow(pool.options, entry, added, proto);
      }
      ghost var view := Sight();
      CrossLink(proto.references, universe);
      if proto.otherErrors {
        hadErrors := true;
      }
      ok := !hadErrors;
      if ok {
        KeptGrows(pool.options, added, pool.tables.Now());
        KeptTransitive(pool.options, entry, added, pool.tables.Now());
        IncludesLater(pool.options, entry, added, pool.tables.Now(), proto);
      }
    }

    /** The checks of the public and of the weak dependency indexes. */
    method CheckIndexes(indexes: seq<int>, n: nat)
      modifies this`hadErrors
      ensures hadErrors <==> old(hadErrors) || !IndexesOk(indexes, n)
    {
      var i := 0;
      while i < |indexes|
        invariant 0 <= i <= |indexes|
        invariant hadErrors <==> old(hadErrors) || !IndexesOk(indexes[..i], n)
      {
        assert indexes[..i + 1] == indexes[..i] + [indexes[i]];
        if !(0 <= indexes[i] < n) {
          hadErrors := true;
          assert indexes[..i + 1][i] == indexes[i];
        }
        i := i + 1;
      }
      assert indexes[..i] == indexes;
    }
  }

  /** An empty pool finds a file in its database, with the file that this imports and refers to. */
  method FindWithImport(options: Options) returns (found: bool)
    ensures found
  {
    var pool := new DescriptorPool(Some(Database(TWO_FILES, map[])), options);
    TwoFilesAreLoadable(options, pool.tables.Now());
    ghost var start;
    found, start := pool.FindFileByName("a.proto", IMPORTED_FIRST);
  }

  lemma ClosedIsClosedBelow(symbols: map<string, Entry<Symbol>>, p: string)
    requires Closed(symbols)
    ensures ClosedBelow(symbols, p)
  {
  }

  lemma FileIsThere(options: Options, c: Contents, now: Contents, proto: Proto)
    requires now.files == FilesWith(options, c, proto)
    ensures proto.name in now.files && now.files[proto.name].value.proto == proto
    ensures now.files.Keys == c.files.Keys + {proto.name}
  {
    hide ImportsOf;
  }

  /** A file that has just been added without an error. */
  lemma IsSettledNow(options: Options, c: Contents, now: Contents, proto: Proto)
    requires options.enforceDependencies && Good(options, now)
    requires now.files == FilesWith(options, c, proto)
    ensures Settled(options, now, ViewOf(options, c, proto, now.symbols))
  {
    hide Good, ImportsOf, RecordAll;
    RecordedAreFiles(now.files, Imported(ImportsOf(options, c.files.Keys, proto)));
  }

  lemma GoodParts(options: Options, c: Contents)
    ensures Good(options, c) <==> Closed(c.symbols) && Ordered(options, c) && NamesKnown(c)
  {
  }

  lemma OrderedAfterAdding(options: Options, a: Contents, b: Contents, f: File)
    requires Ordered(options, a) && f.proto.name !in a.files
    requires b.order == a.order + [f.proto.name]
    requires f.proto.name in b.files && b.files[f.proto.name].value == f
    requires forall k | k in a.files :: k in b.files && b.files[k] == a.files[k]
    requires forall k | k in b.files :: k in a.files || k == f.proto.name
    requires ImportsMatch(f) && ImportsAllowed(options, f)
    requires forall j | 0 <= j < |f.imports| && f.imports[j].Found? :: f.imports[j].name in a.files
    ensures Ordered(options, b)
  {
    forall i | 0 <= i < |a.order| ensures a.order[i] in a.files {
      assert AddedAfterImports(options, a, i);
    }
    forall i | 0 <= i < |b.order| ensures AddedAfterImports(options, b, i) {
      if i < |a.order| {
        assert AddedAfterImports(options, a, i);
        assert b.order[..i] == a.order[..i];
      } else {
        assert b.order[..i] == a.order;
      }
    }
  }

  // ---------------------------------------------------------------- the import graph

  /** Each element of `path` imports the next. */
  predicate FoundPath(c: Contents, path: seq<string>) {
    forall i | 0 <= i < |path| - 1 ::
      path[i] in c.files && Found(path[i + 1]) in c.files[path[i]].value.imports
  }

  /** A file in the pool was added after everything its imports lead to. */
  lemma {:induction false} FoundPathGoesBack(options: Options, c: Contents, path: seq<string>, i: nat)
    requires Ordered(options, c) && FoundPath(c, path) && |path| >= 2
    requires i < |c.order| && c.order[i] == path[0]
    ensures path[|path| - 1] in c.order[..i]
    decreases |path|
  {
    assert AddedAfterImports(options, c, i);
    var f := c.files[path[0]].value;
    assert path[0] in c.files && Found(path[0 + 1]) in f.imports;
    var j :| 0 <= j < |f.imports| && f.imports[j] == Found(path[1]);
    var k :| 0 <= k < i && c.order[..i][k] == path[1];
    if |path| > 2 {
      var rest := path[1..];
      assert forall m | 0 <= m < |rest| :: rest[m] == path[m + 1];
      FoundPathGoesBack(options, c, rest, k);
      assert c.order[..k] <= c.order[..i];
    }
  }

  /** The import graph of the pool has no cycle. */
  lemma ImportsAreAcyclic(options: Options, c: Contents, path: seq<string>)
    requires Ordered(options, c) && FoundPath(c, path) && |path| >= 2
    ensures path[0] != path[|path| - 1]
  {
    assert path[0] in c.files && path[0] in c.order;
    var i :| 0 <= i < |c.order| && c.order[i] == path[0];
    FoundPathGoesBack(options, c, path, i);
    var j :| 0 <= j < i && c.order[..i][j] == path[|path| - 1];
  }

  /** The file named `from` imports the one named `to` by an import that may not be replaced by a
      placeholder. */
  predicate FirmImport(options: Options, c: Contents, from: string, to: string) {
    && from in c.files
    && var proto := c.files[from].value.proto;
    exists j | 0 <= j < |proto.dependencies| :: proto.dependencies[j] == to && !MayBePlaceholder(options, proto, j)
  }

  /** Each element of `path` does so with the next. */
  predicate FirmPath(options: Options, c: Contents, path: seq<string>) {
    forall i | 0 <= i < |path| - 1 :: FirmImport(options, c, path[i], path[i + 1])
  }

  /** Such imports have been found, so a file that lies on a cycle of them is never in the pool:
      no import cycle among the protos of a database, of any length, can be built, unless unknown
      imports are allowed or it contains a weak import and those are not enforced. */
  lemma DependencyCyclesAreRejected(options: Options, c: Contents, path: seq<string>)
    requires Ordered(options, c)
    requires FirmPath(options, c, path) && |path| >= 2
    ensures path[0] != path[|path| - 1]
  {
    forall i | 0 <= i < |path| - 1 ensures path[i] in c.files && Found(path[i + 1]) in c.files[path[i]].value.imports {
      assert FirmImport(options, c, path[i], path[i + 1]);
      var k :| 0 <= k < |c.order| && c.order[k] == path[i];
      assert AddedAfterImports(options, c, k);
      var f := c.files[path[i]].value;
      var j :| 0 <= j < |f.proto.dependencies| && f.proto.dependencies[j] == path[i + 1] && !MayBePlaceholder(options, f.proto, j);
      assert f.imports[j].Found? && f.imports[j].name == path[i + 1];
    }
    ImportsAreAcyclic(options, c, path);
  }
}
