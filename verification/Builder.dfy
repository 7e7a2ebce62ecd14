/** Building files into a descriptor pool: imports and symbols loaded from a fallback database on
    demand, recursively; symbols added; references resolved; everything undone on an error. */
module Builder {
  import opened Protos
  import opened Wrappers
  import opened Tables

  // ---------------------------------------------------------------- well-formed contents

  /** The scope a name lies in is a symbol, and the scope of a package is a package. */
  predicate ParentOk(symbols: map<string, Entry<Symbol>>, k: string)
    requires k in symbols
  {
    var dot := LastDot(k);
    dot >= 0 ==>
      && k[..dot] in symbols
      && (symbols[k].value.kind == Package ==> symbols[k[..dot]].value.kind == Package)
  }

  predicate Closed(symbols: map<string, Entry<Symbol>>) {
    forall k | k in symbols :: ParentOk(symbols, k)
  }

  /** Then every dotted prefix of a symbol is a symbol, and of a package a package. */
  lemma {:induction false} PrefixesAreSymbols(symbols: map<string, Entry<Symbol>>, k: string, i: nat)
    requires Closed(symbols) && k in symbols
    requires i < |k| && k[i] == '.'
    ensures k[..i] in symbols
    ensures symbols[k].value.kind == Package ==> symbols[k[..i]].value.kind == Package
    decreases |k|
  {
    assert ParentOk(symbols, k);
    var dot := LastDot(k);
    if i < dot {
      PrefixesAreSymbols(symbols, k[..dot], i);
      assert k[..dot][..i] == k[..i];
    }
  }

  /** The imports of a file, one for each dependency of its proto. */
  predicate ImportsMatch(f: File) {
    && |f.imports| == |f.proto.dependencies|
    && forall j | 0 <= j < |f.imports| :: f.imports[j].name == f.proto.dependencies[j]
  }

  /** Every import is a file of the pool, or a placeholder where the options allow one. */
  predicate ImportsAllowed(options: Options, f: File)
    requires ImportsMatch(f)
  {
    forall j | 0 <= j < |f.imports| ::
      f.imports[j].Found? ||
      (f.imports[j].Placeholder? && (options.allowUnknown || (!options.enforceWeak && j in f.proto.weak)))
  }

  /** The file at position `i` of the order has been added after all files it imports. */
  predicate AddedAfterImports(options: Options, c: Contents, i: nat)
    requires i < |c.order|
  {
    var name := c.order[i];
    && name in c.files
    && var f := c.files[name].value;
    && f.proto.name == name
    && ImportsMatch(f) && ImportsAllowed(options, f)
    && forall j | 0 <= j < |f.imports| && f.imports[j].Found? :: f.imports[j].name in c.order[..i]
  }

  predicate Ordered(options: Options, c: Contents) {
    && (forall i | 0 <= i < |c.order| :: AddedAfterImports(options, c, i))
    && (forall k | k in c.files :: k in c.order)
    && (forall i, j | 0 <= i < j < |c.order| :: c.order[i] != c.order[j])
  }

  /** Symbols have names, and the package of every file is a symbol. */
  predicate NamesKnown(c: Contents) {
    && (forall k | k in c.symbols :: k != [])
    && (forall f | f in c.files :: c.files[f].value.proto.package == [] || c.files[f].value.proto.package in c.symbols)
  }

  predicate Good(options: Options, c: Contents) {
    Closed(c.symbols) && Ordered(options, c) && NamesKnown(c)
  }

  // ---------------------------------------------------------------- progress

  /** Nothing is lost or changed from `a` to `b`. */
  predicate Later(a: Contents, b: Contents) {
    && VectorsGrown(a, b)
    && (forall k | k in a.symbols :: k in b.symbols && b.symbols[k] == a.symbols[k])
    && (forall k | k in a.files :: k in b.files && b.files[k] == a.files[k])
  }

  /** What is new in `b` was defined in files that are new. */
  predicate FromNewFiles(a: Contents, b: Contents) {
    forall k | k in b.symbols && k !in a.symbols :: b.symbols[k].value.file !in a.files
  }

  predicate Kept(options: Options, a: Contents, b: Contents) {
    Later(a, b) && FromNewFiles(a, b) && (Good(options, a) ==> Good(options, b))
  }

  lemma LaterTransitive(a: Contents, b: Contents, c: Contents)
    requires Later(a, b) && Later(b, c)
    ensures Later(a, c)
  {
  }

  lemma LaterReflexive(a: Contents)
    ensures Later(a, a)
  {
  }

  lemma LaterString(a: Contents, value: string)
    ensures Later(a, a.(strings := a.strings + [value]))
  {
  }

  lemma LaterSymbol(a: Contents, name: string, e: Entry<Symbol>)
    requires name !in a.symbols
    ensures Later(a, a.(symbols := a.symbols[name := e]))
  {
  }

  lemma LaterSymbols(a: Contents, b: Contents)
    requires Later(a, b)
    ensures forall k | k in a.symbols :: k in b.symbols && b.symbols[k] == a.symbols[k]
    ensures a.strings <= b.strings
  {
  }

  lemma KeptTransitive(options: Options, a: Contents, b: Contents, c: Contents)
    requires Kept(options, a, b) && Kept(options, b, c)
    ensures Kept(options, a, c)
  {
    hide Good;
  }

  /** What is the same in the end has been the same all the time. */
  lemma Unchanged(options: Options, a: Contents, b: Contents, c: Contents)
    requires Kept(options, a, b) && Kept(options, b, c)
    requires c.symbols == a.symbols && c.files == a.files
    ensures b.symbols == a.symbols && b.files == a.files
  {
    hide Good;
    assert b.symbols.Keys == a.symbols.Keys && b.files.Keys == a.files.Keys;
  }

  lemma KeptReflexive(options: Options, a: Contents)
    ensures Kept(options, a, a)
  {
    hide Good;
  }

  lemma KeptGrows(options: Options, a: Contents, b: Contents)
    requires Kept(options, a, b)
    ensures a.files.Keys <= b.files.Keys && a.symbols.Keys <= b.symbols.Keys
    ensures Later(a, b)
    ensures forall k | k in a.files :: k in b.files && b.files[k] == a.files[k]
    ensures forall k | k in a.symbols :: k in b.symbols && b.symbols[k] == a.symbols[k]
  {
    hide Good;
  }

  // ---------------------------------------------------------------- termination

  function Left(universe: set<string>, pending: seq<string>, files: set<string>): nat {
    |universe - (set i | 0 <= i < |pending| :: pending[i])| + |universe - files|
  }

  lemma SubsetSize(a: set<string>, b: set<string>)
    requires a <= b
    ensures |a| <= |b|
    ensures a != b ==> |a| < |b|
  {
    assert b == a + (b - a);
    if a != b {
      var x :| x in b - a;
      assert |b - a| > 0;
    }
  }

  lemma LeftShrinks(universe: set<string>, pending: seq<string>, files: set<string>, files': set<string>)
    requires files <= files'
    ensures Left(universe, pending, files') <= Left(universe, pending, files)
  {
    SubsetSize(universe - files', universe - files);
  }

  lemma LeftAfterAdding(universe: set<string>, pending: seq<string>, files: set<string>, files': set<string>, name: string)
    requires files <= files' && name in files' - files && name in universe
    ensures Left(universe, pending, files') < Left(universe, pending, files)
  {
    assert name in universe - files && name !in universe - files';
    SubsetSize(universe - files', universe - files);
  }

  lemma LeftWhilePending(universe: set<string>, pending: seq<string>, files: set<string>, name: string)
    requires name in universe && name !in pending
    ensures Left(universe, pending + [name], files) < Left(universe, pending, files)
  {
    var p, q := set i | 0 <= i < |pending| :: pending[i], set i | 0 <= i < |pending + [name]| :: (pending + [name])[i];
    assert q == p + {name} by {
      forall x | x in p ensures x in q {
        var i :| 0 <= i < |pending| && pending[i] == x;
        assert (pending + [name])[i] == x;
      }
      assert (pending + [name])[|pending|] == name;
    }
    assert name in universe - p && name !in universe - q;
    SubsetSize(universe - q, universe - p);
  }

  /** Some proper prefix of the name is a symbol other than a package, whose definition is
      therefore complete. */
  predicate SubSymbolOfType(symbols: map<string, Entry<Symbol>>, name: string) {
    exists i | 0 <= i < |name| && name[i] == '.' ::
      name[..i] in symbols && symbols[name[..i]].value.kind != Package
  }

  // ---------------------------------------------------------------- name resolution

  /** IsInPackage. */
  predicate InPackage(package: string, name: string) {
    name <= package && (|package| == |name| || package[|name|] == '.')
  }

  /** What a file being built can see. */
  datatype View = View(
    symbols: map<string, Entry<Symbol>>, files: map<string, Entry<File>>,
    file: string, package: string, dependencies: set<string>, enforce: bool)

  /** DescriptorBuilder::FindSymbol on what is in the pool: symbols of the file itself and of
      its dependencies, and packages they share. */
  function Find(v: View, name: string): Option<Symbol> {
    if name !in v.symbols then None
    else
      var s := v.symbols[name].value;
      if !v.enforce || s.file == v.file || s.file in v.dependencies then Some(s)
      else if s.kind == Package &&
              (InPackage(v.package, name) ||
               exists d | d in v.dependencies :: d in v.files && InPackage(v.files[d].value.proto.package, name))
      then Some(s)
      else None
  }

  /** What a file sees under a name: a symbol defined in the file itself or in a file it depends on;
      or a package that its own package or that of a dependency is, or lies in; or anything, if
      dependencies are not enforced. */
  lemma FindExact(v: View, name: string)
    ensures Find(v, name).Some? <==>
            && name in v.symbols
            && var s := v.symbols[name].value;
               || !v.enforce || s.file in v.dependencies + {v.file}
               || (s.kind == Package && (v.package == name || name + "." <= v.package))
               || (s.kind == Package && exists d | d in v.dependencies && d in v.files ::
                     var p := v.files[d].value.proto.package; p == name || name + "." <= p)
    ensures Find(v, name).Some? ==> Find(v, name).value == v.symbols[name].value
  {
    forall p: string ensures InPackage(p, name) <==> p == name || name + "." <= p {
      if |p| > |name| && name <= p {
        assert p[..|name| + 1] == name + [p[|name|]];
      }
      if name + "." <= p {
        assert p[|name|] == (name + ".")[|name|];
        assert p[..|name|] == (name + ".")[..|name|];
      }
    }
  }

  /** The scope ending at the dot `i` of `from` has something for the first part of `name`: for a
      compound name an aggregate, else a type where only types count. */
  predicate Acceptable(v: View, from: string, i: nat, name: string, mode: Mode)
    requires i <= |from|
  {
    var first := FirstPart(name);
    var s := Find(v, from[..i] + "." + first);
    s.Some? && (if |first| < |name| then s.value.IsAggregate() else mode == LookupAll || s.value.IsType())
  }

  lemma {:induction false} FirstPartExact(first: string, rest: string)
    requires '.' !in first && (rest == "" || rest[0] == '.')
    ensures FirstPart(first + rest) == first
    decreases |first|
  {
    if first == "" {
      assert first + rest == rest;
    } else {
      assert (first + rest)[1..] == first[1..] + rest;
      FirstPartExact(first[1..], rest);
    }
  }

  /** For the first part of a compound name only messages, packages, enums and services count;
      a simple name may have to be a message or an enum. */
  lemma AcceptableExact(v: View, from: string, i: nat, first: string, rest: string, mode: Mode)
    requires i <= |from| && '.' !in first
    ensures var s := Find(v, from[..i] + "." + first);
            && (Acceptable(v, from, i, first + "." + rest, mode) <==>
                  s.Some? && s.value.kind in {Message, Package, Enum, Service})
            && (Acceptable(v, from, i, first, mode) <==>
                  s.Some? && (mode == LookupAll || s.value.kind in {Message, Enum}))
  {
    hide Find;
    FirstPartExact(first, "." + rest);
    assert first + ("." + rest) == first + "." + rest;
    FirstPartExact(first, "");
    assert first + "" == first;
  }

  /** The rule of name resolution.  A name with a leading dot is global.  Otherwise the longest
      enclosing scope that is acceptable decides, whether or not the whole name is defined in
      it; without one the name is looked up globally. */
  ghost predicate Resolves(v: View, name: string, from: string, mode: Mode, r: Option<Symbol>) {
    if name != [] && name[0] == '.' then r == Find(v, name[1..])
    else
      && (forall i: nat | Innermost(v, from, i, name, mode) :: r == Find(v, from[..i] + "." + name))
      && ((forall i | 0 <= i < |from| && from[i] == '.' :: !Acceptable(v, from, i, name, mode)) ==> r == Find(v, name))
  }

  ghost predicate Innermost(v: View, from: string, i: nat, name: string, mode: Mode) {
    && i < |from| && from[i] == '.' && Acceptable(v, from, i, name, mode)
    && forall j | i < j < |from| && from[j] == '.' :: !Acceptable(v, from, j, name, mode)
  }

  // Files may be loaded while a name is being looked up.

  /** `w` shows all that `v` shows, and maybe more. */
  predicate Grows(v: View, w: View) {
    && w == v.(symbols := w.symbols, files := w.files)
    && (forall k | k in v.symbols :: k in w.symbols && w.symbols[k] == v.symbols[k])
    && (forall k | k in v.files :: k in w.files && w.files[k] == v.files[k])
  }

  lemma FindGrows(v: View, w: View, name: string)
    requires Grows(v, w) && Find(v, name).Some?
    ensures Find(w, name) == Find(v, name)
  {
  }

  lemma AcceptableGrows(v: View, w: View, from: string, i: nat, name: string, mode: Mode)
    requires Grows(v, w) && i <= |from| && Acceptable(v, from, i, name, mode)
    ensures Acceptable(w, from, i, name, mode)
  {
    FindGrows(v, w, from[..i] + "." + FirstPart(name));
  }

  /** The name in the scope that ends at the dot `c` of `from`, or the global one. */
  function Scoped(from: string, c: int, name: string): string
    requires -1 <= c < |from|
  {
    if c < 0 then name else from[..c] + "." + name
  }

  /** What is found is there in the end, and what was there in the beginning is found. */
  predicate FoundBetween(v: View, w: View, name: string, r: Option<Symbol>) {
    && (r.Some? ==> r == Find(w, name))
    && (Find(v, name).Some? ==> r == Find(v, name))
  }

  /** The scope that decides is acceptable in the end, and none inside it was in the beginning. */
  predicate Decides(v: View, w: View, from: string, c: int, name: string, mode: Mode)
    requires -1 <= c < |from|
  {
    && (c >= 0 ==> from[c] == '.' && Acceptable(w, from, c, name, mode))
    && forall j | c < j < |from| && from[j] == '.' :: !Acceptable(v, from, j, name, mode)
  }

  /** The rule of name resolution while the view grows from `v` to `w`. */
  ghost predicate ResolvesBetween(v: View, w: View, name: string, from: string, mode: Mode, r: Option<Symbol>) {
    if name != [] && name[0] == '.' then FoundBetween(v, w, name[1..], r)
    else exists c: int | -1 <= c < |from| :: Decides(v, w, from, c, name, mode) && FoundBetween(v, w, Scoped(from, c, name), r)
  }

  /** When nothing changes it is the rule itself. */
  lemma ResolvesBetweenSame(v: View, name: string, from: string, mode: Mode, r: Option<Symbol>)
    requires ResolvesBetween(v, v, name, from, mode, r)
    ensures Resolves(v, name, from, mode, r)
  {
    hide Acceptable, Find;
    if !(name != [] && name[0] == '.') {
      var c: int :| -1 <= c < |from| && Decides(v, v, from, c, name, mode) && FoundBetween(v, v, Scoped(from, c, name), r);
      forall i: nat | Innermost(v, from, i, name, mode) ensures i == c {
      }
    }
  }

  /** The search from the end of the scope, as a function. */
  function Resolution(v: View, name: string, from: string, mode: Mode): Option<Symbol> {
    if name != [] && name[0] == '.' then Find(v, name[1..])
    else ResolutionUpTo(v, name, from, |from|, mode)
  }

  function ResolutionUpTo(v: View, name: string, from: string, n: nat, mode: Mode): Option<Symbol>
    requires n <= |from|
  {
    if n == 0 then Find(v, name)
    else if from[n - 1] == '.' && Acceptable(v, from, n - 1, name, mode) then Find(v, from[..n - 1] + "." + name)
    else ResolutionUpTo(v, name, from, n - 1, mode)
  }

  /** The search stops at the last acceptable scope, if there is one. */
  lemma {:induction false} SearchStops(v: View, name: string, from: string, n: nat, mode: Mode)
    requires n <= |from|
    requires forall i | n <= i < |from| && from[i] == '.' :: !Acceptable(v, from, i, name, mode)
    ensures (exists i: nat | i < |from| ::
               Innermost(v, from, i, name, mode) && ResolutionUpTo(v, name, from, n, mode) == Find(v, from[..i] + "." + name))
            || ((forall i | 0 <= i < |from| && from[i] == '.' :: !Acceptable(v, from, i, name, mode))
                && ResolutionUpTo(v, name, from, n, mode) == Find(v, name))
  {
    hide Acceptable, Find;
    if n > 0 {
      if from[n - 1] == '.' && Acceptable(v, from, n - 1, name, mode) {
        assert Innermost(v, from, n - 1, name, mode);
      } else {
        SearchStops(v, name, from, n - 1, mode);
      }
    }
  }

  lemma InnermostIsUnique(v: View, from: string, i: nat, j: nat, name: string, mode: Mode)
    requires Innermost(v, from, i, name, mode) && Innermost(v, from, j, name, mode)
    ensures i == j
  {
    hide Acceptable, Find;
  }

  /** The rule has exactly one answer, the one the search finds. */
  lemma ResolutionExact(v: View, name: string, from: string, mode: Mode, r: Option<Symbol>)
    ensures Resolves(v, name, from, mode, r) <==> r == Resolution(v, name, from, mode)
  {
    hide Acceptable, Find, Innermost, ResolutionUpTo;
    if !(name != [] && name[0] == '.') {
      SearchStops(v, name, from, |from|, mode);
      if i: nat :| i < |from| && Innermost(v, from, i, name, mode) &&
                   ResolutionUpTo(v, name, from, |from|, mode) == Find(v, from[..i] + "." + name)
      {
        InnermostAccepts(v, from, i, name, mode);
        forall j: nat | Innermost(v, from, j, name, mode) ensures j == i {
          InnermostIsUnique(v, from, i, j, name, mode);
        }
      } else {
        forall i: nat | Innermost(v, from, i, name, mode) ensures false {
          InnermostAccepts(v, from, i, name, mode);
        }
      }
    }
  }

  lemma InnermostAccepts(v: View, from: string, i: nat, name: string, mode: Mode)
    requires Innermost(v, from, i, name, mode)
    ensures i < |from| && from[i] == '.' && Acceptable(v, from, i, name, mode)
  {
    hide Acceptable;
  }

  // Where dependencies are enforced, loading files changes nothing for the file being built.

  /** The view is that of a file in well-formed contents `c`, with enforced dependencies. */
  predicate Settled(options: Options, c: Contents, v: View) {
    && Good(options, c) && v.enforce
    && v.symbols == c.symbols && v.files == c.files
    && v.file in c.files && c.files[v.file].value.proto.package == v.package
    && v.dependencies <= c.files.Keys
  }

  /** A package that a file of the pool lies in is a symbol. */
  lemma PackageKnown(options: Options, c: Contents, f: string, name: string)
    requires Good(options, c) && f in c.files && name != []
    requires InPackage(c.files[f].value.proto.package, name)
    ensures name in c.symbols
  {
    hide Ordered;
    var package := c.files[f].value.proto.package;
    if |name| < |package| {
      PrefixesAreSymbols(c.symbols, package, |name|);
      assert name == package[..|name|];
    } else {
      assert name == package;
    }
  }

  /** What is new lies in files that the file does not depend on, and in no package it sees. */
  lemma FindStays(options: Options, a: Contents, b: Contents, v: View, w: View, name: string)
    requires Settled(options, a, v) && Kept(options, a, b)
    requires w == v.(symbols := b.symbols, files := b.files)
    ensures Find(w, name) == Find(v, name)
  {
    hide Ordered, Closed, VectorsGrown;
    if name !in a.symbols && name in b.symbols {
      assert Good(options, b) && name != [];
      if InPackage(v.package, name) {
        PackageKnown(options, a, v.file, name);
      }
      forall d | d in v.dependencies ensures !InPackage(w.files[d].value.proto.package, name) {
        if InPackage(w.files[d].value.proto.package, name) {
          PackageKnown(options, a, d, name);
        }
      }
    }
  }

  ghost predicate SameFinds(v: View, w: View) {
    forall name :: Find(v, name) == Find(w, name)
  }

  lemma FindsStay(options: Options, a: Contents, b: Contents, v: View, w: View)
    requires Settled(options, a, v) && Kept(options, a, b)
    requires w == v.(symbols := b.symbols, files := b.files)
    ensures SameFinds(v, w)
  {
    hide Settled, Kept, Find;
    forall name ensures Find(v, name) == Find(w, name) {
      FindStays(options, a, b, v, w, name);
    }
  }

  /** Then even a lookup during which files are loaded follows the rule for the view at the start. */
  lemma BetweenIsExact(u: View, v: View, w: View, name: string, from: string, mode: Mode, r: Option<Symbol>)
    requires SameFinds(u, v) && SameFinds(u, w)
    requires ResolvesBetween(v, w, name, from, mode, r)
    ensures r == Resolution(u, name, from, mode)
  {
    hide SameFinds, Decides, FoundBetween, Scoped, Resolution, Resolves;
    assert ResolvesBetween(u, u, name, from, mode, r) by {
      if name != [] && name[0] == '.' {
        SameFoundBetween(u, v, w, name[1..], r);
      } else {
        var c: int :| -1 <= c < |from| && Decides(v, w, from, c, name, mode) && FoundBetween(v, w, Scoped(from, c, name), r);
        SameDecides(u, v, w, from, c, name, mode);
        SameFoundBetween(u, v, w, Scoped(from, c, name), r);
      }
    }
    ResolvesBetweenSame(u, name, from, mode, r);
    ResolutionExact(u, name, from, mode, r);
  }

  lemma SameFoundBetween(u: View, v: View, w: View, name: string, r: Option<Symbol>)
    requires SameFinds(u, v) && SameFinds(u, w) && FoundBetween(v, w, name, r)
    ensures FoundBetween(u, u, name, r)
  {
    hide Find;
  }

  lemma SameAcceptable(u: View, v: View, from: string, i: nat, name: string, mode: Mode)
    requires SameFinds(u, v) && i <= |from|
    ensures Acceptable(u, from, i, name, mode) == Acceptable(v, from, i, name, mode)
  {
    hide Find, FirstPart;
    assert Find(u, from[..i] + "." + FirstPart(name)) == Find(v, from[..i] + "." + FirstPart(name));
  }

  lemma SameDecides(u: View, v: View, w: View, from: string, c: int, name: string, mode: Mode)
    requires SameFinds(u, v) && SameFinds(u, w) && -1 <= c < |from| && Decides(v, w, from, c, name, mode)
    ensures Decides(u, u, from, c, name, mode)
  {
    hide SameFinds, Acceptable;
    if c >= 0 {
      SameAcceptable(u, w, from, c, name, mode);
    }
    forall j | c < j < |from| && from[j] == '.' ensures !Acceptable(u, from, j, name, mode) {
      SameAcceptable(u, v, from, j, name, mode);
    }
  }

  // ---------------------------------------------------------------- public dependencies

  /** The files a file imports publicly, in order; indexes out of range were errors. */
  function PublicImports(f: File): seq<string> {
    PublicFrom(f, 0)
  }

  function PublicFrom(f: File, i: nat): seq<string>
    decreases |f.proto.public| - i
  {
    if i >= |f.proto.public| then []
    else
      var j := f.proto.public[i];
      (if 0 <= j < |f.imports| && f.imports[j].Found? then [f.imports[j].name] else []) + PublicFrom(f, i + 1)
  }

  /** RecordPublicDependencies: depth first, stopping at files already recorded. */
  function Record(files: map<string, Entry<File>>, name: string, deps: set<string>): (r: set<string>)
    ensures deps <= r
    decreases |files.Keys - deps|, 0
  {
    if name !in files || name in deps then deps
    else
      assert files.Keys - (deps + {name}) == (files.Keys - deps) - {name};
      RecordAll(files, PublicImports(files[name].value), deps + {name})
  }

  function RecordAll(files: map<string, Entry<File>>, names: seq<string>, deps: set<string>): (r: set<string>)
    ensures deps <= r
    decreases |files.Keys - deps|, |names| + 1
  {
    if names == [] then deps
    else
      var r := Record(files, names[0], deps);
      SubsetSize(files.Keys - r, files.Keys - deps);
      RecordAll(files, names[1..], r)
  }

  /** All public imports of the files in `s`, except of those in `open`, are in `s`. */
  predicate PublicClosed(files: map<string, Entry<File>>, s: set<string>, open: set<string>) {
    forall n | n in s && n in files && n !in open ::
      forall m | m in PublicImports(files[n].value) && m in files :: m in s
  }

  lemma {:induction false} RecordCloses(files: map<string, Entry<File>>, name: string, deps: set<string>, open: set<string>)
    requires PublicClosed(files, deps, open) && open <= deps
    ensures PublicClosed(files, Record(files, name, deps), open)
    ensures name in files ==> name in Record(files, name, deps)
    decreases |files.Keys - deps|, 0
  {
    if name in files && name !in deps {
      assert files.Keys - (deps + {name}) == (files.Keys - deps) - {name};
      var names := PublicImports(files[name].value);
      RecordAllCloses(files, names, deps + {name}, open + {name});
    }
  }

  lemma {:induction false} RecordAllCloses(files: map<string, Entry<File>>, names: seq<string>,
                                           deps: set<string>, open: set<string>)
    requires PublicClosed(files, deps, open) && open <= deps
    ensures PublicClosed(files, RecordAll(files, names, deps), open)
    ensures forall m | m in names && m in files :: m in RecordAll(files, names, deps)
    decreases |files.Keys - deps|, |names| + 1
  {
    if names != [] {
      var r := Record(files, names[0], deps);
      SubsetSize(files.Keys - r, files.Keys - deps);
      RecordCloses(files, names[0], deps, open);
      RecordAllCloses(files, names[1..], r, open);
    }
  }

  lemma {:induction false} RecordIsLeast(files: map<string, Entry<File>>, names: seq<string>,
                                         deps: set<string>, bound: set<string>)
    requires deps <= bound && PublicClosed(files, bound, {})
    requires forall m | m in names && m in files :: m in bound
    ensures RecordAll(files, names, deps) <= bound
    decreases |files.Keys - deps|, |names|
  {
    if names != [] {
      var name := names[0];
      var r := Record(files, name, deps);
      if name in files && name !in deps {
        assert files.Keys - (deps + {name}) == (files.Keys - deps) - {name};
        RecordIsLeast(files, PublicImports(files[name].value), deps + {name}, bound);
      }
      SubsetSize(files.Keys - r, files.Keys - deps);
      RecordIsLeast(files, names[1..], r, bound);
    }
  }

  /** File `a` of the pool imports file `b` of the pool publicly: one of its public indexes is
      that of an import that was resolved to `b`. */
  predicate ImportsPublicly(files: map<string, Entry<File>>, a: string, b: string) {
    && a in files && b in files
    && var f := files[a].value;
       exists i | 0 <= i < |f.proto.public| ::
         0 <= f.proto.public[i] < |f.imports| && f.imports[f.proto.public[i]] == Found(b)
  }

  /** Files of the pool, each of which imports the next publicly. */
  predicate PublicPath(files: map<string, Entry<File>>, path: seq<string>) {
    && path != [] && path[0] in files
    && forall i | 0 <= i < |path| - 1 :: ImportsPublicly(files, path[i], path[i + 1])
  }

  /** The file is one of those named, or these lead to it by public imports. */
  ghost predicate Reached(files: map<string, Entry<File>>, names: seq<string>, n: string) {
    exists path: seq<string> | PublicPath(files, path) :: path[0] in names && path[|path| - 1] == n
  }

  lemma {:induction false} PublicFromExact(f: File, i: nat, m: string)
    ensures m in PublicFrom(f, i) <==>
            exists k | i <= k < |f.proto.public| ::
              0 <= f.proto.public[k] < |f.imports| && f.imports[f.proto.public[k]] == Found(m)
    decreases |f.proto.public| - i
  {
    if i < |f.proto.public| {
      PublicFromExact(f, i + 1, m);
    }
  }

  lemma {:induction false} PathIsRecorded(files: map<string, Entry<File>>, names: seq<string>, path: seq<string>)
    requires PublicPath(files, path) && path[0] in names
    ensures path[|path| - 1] in RecordAll(files, names, {})
    decreases |path|
  {
    DependenciesAreClosure(files, names);
    if |path| > 1 {
      var front := path[..|path| - 1];
      assert forall i | 0 <= i < |front| :: front[i] == path[i];
      PathIsRecorded(files, names, front);
      var a, b := path[|path| - 2], path[|path| - 1];
      assert ImportsPublicly(files, a, path[|path| - 2 + 1]);
      PublicFromExact(files[a].value, 0, b);
    }
  }

  lemma ReachedFurther(files: map<string, Entry<File>>, names: seq<string>, a: string, b: string)
    requires a in files && b in files && Reached(files, names, a) && b in PublicImports(files[a].value)
    ensures Reached(files, names, b)
  {
    hide PublicFrom;
    var path :| PublicPath(files, path) && path[0] in names && path[|path| - 1] == a;
    PublicFromExact(files[a].value, 0, b);
    var more := path + [b];
    assert forall i | 0 <= i < |path| :: more[i] == path[i];
    assert PublicPath(files, more) && more[|more| - 1] == b;
  }

  /** What a file sees, without an algorithm: exactly the files its imports reach. */
  lemma RecordedAreReached(files: map<string, Entry<File>>, names: seq<string>, n: string)
    ensures n in RecordAll(files, names, {}) <==> Reached(files, names, n)
  {
    hide RecordAll, PublicImports;
    if Reached(files, names, n) {
      var path :| PublicPath(files, path) && path[0] in names && path[|path| - 1] == n;
      PathIsRecorded(files, names, path);
    }
    var bound := set m | m in files && Reached(files, names, m);
    forall m | m in names && m in files ensures Reached(files, names, m) {
      assert PublicPath(files, [m]) && [m][0] == m;
    }
    assert PublicClosed(files, bound, {}) by {
      forall a, b | a in bound && b in PublicImports(files[a].value) && b in files ensures b in bound {
        ReachedFurther(files, names, a, b);
      }
    }
    RecordIsLeast(files, names, {}, bound);
  }

  /** Only files of the pool are recorded. */
  lemma RecordedAreFiles(files: map<string, Entry<File>>, names: seq<string>)
    ensures RecordAll(files, names, {}) <= files.Keys
  {
    RecordWithin(files, names, {});
  }

  lemma {:induction false} RecordWithin(files: map<string, Entry<File>>, names: seq<string>, deps: set<string>)
    requires deps <= files.Keys
    ensures RecordAll(files, names, deps) <= files.Keys
    decreases |files.Keys - deps|, |names|
  {
    if names != [] {
      var name := names[0];
      var r := Record(files, name, deps);
      if name in files && name !in deps {
        assert files.Keys - (deps + {name}) == (files.Keys - deps) - {name};
        RecordWithin(files, PublicImports(files[name].value), deps + {name});
      }
      SubsetSize(files.Keys - r, files.Keys - deps);
      RecordWithin(files, names[1..], r);
    }
  }

  /** What a file can see is exactly the least set of files that holds its own imports and is
      closed under public imports. */
  lemma DependenciesAreClosure(files: map<string, Entry<File>>, names: seq<string>)
    ensures var r := RecordAll(files, names, {});
            && (forall m | m in names && m in files :: m in r)
            && PublicClosed(files, r, {})
    ensures forall bound: set<string> |
              PublicClosed(files, bound, {}) && (forall m | m in names && m in files :: m in bound) ::
              RecordAll(files, names, {}) <= bound
  {
    RecordAllCloses(files, names, {}, {});
    forall bound: set<string> |
      PublicClosed(files, bound, {}) && (forall m | m in names && m in files :: m in bound)
      ensures RecordAll(files, names, {}) <= bound
    {
      RecordIsLeast(files, names, {}, bound);
    }
  }
}
