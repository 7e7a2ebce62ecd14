/** Which files a pool without a fallback database accepts, and what they add: the specification
    that DescriptorBuilder meets. */
module BuildSpec {
  import opened Protos
  import opened Wrappers
  import opened Tables
  import opened Builder

  /** Names to be added, with what they stand for. */
  type Pairs = seq<(string, Symbol)>

  type Symbols = map<string, Entry<Symbol>>

  function NamesOf(pairs: Pairs): set<string> {
    set i | 0 <= i < |pairs| :: pairs[i].0
  }

  // ---------------------------------------------------------------- declarations

  /** What is declared by an element: everything inside it, then itself.  The values of an enum
      are its siblings. */
  function Declared(scope: string, d: Decl, file: string): Pairs
    decreases d, |d.children| + 1
  {
    DeclaredUpTo(scope, d, |d.children|, file) + [(Join(scope, d.name), Symbol(d.kind, file))]
  }

  function Inner(scope: string, d: Decl): string {
    if d.kind == Enum then scope else Join(scope, d.name)
  }

  function DeclaredUpTo(scope: string, d: Decl, n: nat, file: string): Pairs
    requires n <= |d.children|
    decreases d, n
  {
    if n == 0 then [] else DeclaredUpTo(scope, d, n - 1, file) + Declared(Inner(scope, d), d.children[n - 1], file)
  }

  function DeclaredAll(scope: string, decls: seq<Decl>, file: string): Pairs {
    if decls == [] then []
    else DeclaredAll(scope, decls[..|decls| - 1], file) + Declared(scope, decls[|decls| - 1], file)
  }

  /** What an element contains is named after it, but the values of an enum after the enum's
      scope. */
  lemma ChildrenAreNamed(scope: string, d: Decl, i: nat, file: string)
    requires i < |d.children|
    ensures var value := d.children[i];
            d.kind == Enum ==> (Join(scope, value.name), Symbol(value.kind, file)) in Declared(scope, d, file)
    ensures var child := d.children[i];
            d.kind != Enum ==> (Join(Join(scope, d.name), child.name), Symbol(child.kind, file)) in Declared(scope, d, file)
  {
    DeclaredUpToGrows(scope, d, i + 1, |d.children|, file);
    var inside := Declared(Inner(scope, d), d.children[i], file);
    assert inside[|inside| - 1] in DeclaredUpTo(scope, d, i + 1, file);
  }

  lemma {:induction false} DeclaredUpToGrows(scope: string, d: Decl, m: nat, n: nat, file: string)
    requires m <= n <= |d.children|
    ensures DeclaredUpTo(scope, d, m, file) <= DeclaredUpTo(scope, d, n, file)
    decreases n
  {
    if m < n {
      DeclaredUpToGrows(scope, d, m, n - 1, file);
    }
  }

  /** All names in it are identifiers. */
  predicate DeclValid(d: Decl) {
    ValidName(d.name) && forall i | 0 <= i < |d.children| :: DeclValid(d.children[i])
  }

  predicate ValidUpTo(d: Decl, n: nat)
    requires n <= |d.children|
  {
    ValidName(d.name) && forall i | 0 <= i < n :: DeclValid(d.children[i])
  }

  /** None of the names is taken, none occurs twice, and none has a null character. */
  predicate Fresh(pairs: Pairs, taken: set<string>) {
    && (forall i | 0 <= i < |pairs| :: pairs[i].0 !in taken && '\0' !in pairs[i].0)
    && (forall i, j | 0 <= i < j < |pairs| :: pairs[i].0 != pairs[j].0)
  }

  // ---------------------------------------------------------------- packages

  /** The package and its parents, up to the first that exists. */
  function Chain(symbols: Symbols, p: string, file: string): Pairs
    decreases |p|
  {
    if p in symbols then []
    else [(p, Symbol(Package, file))] + if LastDot(p) < 0 then [] else Chain(symbols, p[..LastDot(p)], file)
  }

  /** The part behind the last dot is an identifier. */
  predicate LastPartValid(p: string) {
    if LastDot(p) < 0 then ValidName(p) else ValidName(p[LastDot(p) + 1..])
  }

  /** Up to the first that exists their names are valid, and that one is a package. */
  predicate PackageOk(symbols: Symbols, p: string)
    decreases |p|
  {
    && '\0' !in p
    && if p in symbols then symbols[p].value.kind == Package
       else LastPartValid(p) && (LastDot(p) >= 0 ==> PackageOk(symbols, p[..LastDot(p)]))
  }

  /** A longer name makes no difference. */
  lemma {:induction false} ChainIgnores(symbols: Symbols, name: string, e: Entry<Symbol>, p: string, file: string)
    requires |p| < |name|
    ensures Chain(symbols[name := e], p, file) == Chain(symbols, p, file)
    ensures PackageOk(symbols[name := e], p) == PackageOk(symbols, p)
    decreases |p|
  {
    if p !in symbols && LastDot(p) >= 0 {
      ChainIgnores(symbols, name, e, p[..LastDot(p)], file);
    }
  }

  /** A package or a parent of one: a package if it is there, else properly named. */
  predicate PartOk(symbols: Symbols, q: string) {
    if q in symbols then symbols[q].value.kind == Package else LastPartValid(q)
  }

  predicate PartsOk(symbols: Symbols, p: string) {
    forall i | 0 <= i <= |p| && (i == |p| || p[i] == '.') :: PartOk(symbols, p[..i])
  }

  /** In a parent-closed table stopping early makes no difference: the package is in order
      exactly if it and all its parents are. */
  lemma {:induction false} PackageOkIff(symbols: Symbols, p: string)
    requires Closed(symbols)
    ensures PackageOk(symbols, p) <==> '\0' !in p && PartsOk(symbols, p)
    decreases |p|
  {
    hide Closed, PartsOk, PartOk, LastPartValid;
    var dot := LastDot(p);
    if p in symbols {
      ExistingParts(symbols, p);
    } else {
      MissingParts(symbols, p);
      if dot >= 0 {
        var parent := p[..dot];
        PackageOkIff(symbols, parent);
        assert '\0' in p[..dot] ==> '\0' in p;
      }
    }
  }

  lemma ExistingParts(symbols: Symbols, p: string)
    requires Closed(symbols) && p in symbols
    ensures PartsOk(symbols, p) <==> symbols[p].value.kind == Package
  {
    hide Closed;
    assert p[..|p|] == p;
    if symbols[p].value.kind == Package {
      forall i | 0 <= i < |p| && p[i] == '.' ensures PartOk(symbols, p[..i]) {
        PrefixesAreSymbols(symbols, p, i);
      }
    } else {
      assert !PartOk(symbols, p[..|p|]);
    }
  }

  lemma MissingParts(symbols: Symbols, p: string)
    requires p !in symbols
    ensures var dot := LastDot(p);
            PartsOk(symbols, p) <==>
            LastPartValid(p) && (dot >= 0 ==> PartsOk(symbols, p[..dot]))
  {
    hide PartOk, PartsOk, LastDot, LastPartValid;
    var dot := LastDot(p);
    MissingPart(symbols, p);
    if dot < 0 {
      if PartOk(symbols, p) {
        OnlyPart(symbols, p);
      } else {
        WholePart(symbols, p);
      }
    } else if !PartOk(symbols, p) {
      WholePart(symbols, p);
    } else {
      PartsOfParent(symbols, p, dot);
    }
  }

  lemma WholePart(symbols: Symbols, p: string)
    requires !PartOk(symbols, p)
    ensures !PartsOk(symbols, p)
  {
    assert p[..|p|] == p;
  }

  lemma OnlyPart(symbols: Symbols, p: string)
    requires PartOk(symbols, p) && forall i | 0 <= i < |p| :: p[i] != '.'
    ensures PartsOk(symbols, p)
  {
    assert p[..|p|] == p;
  }

  lemma PartsOfParent(symbols: Symbols, p: string, dot: nat)
    requires dot < |p| && p[dot] == '.' && forall i | dot < i < |p| :: p[i] != '.'
    requires PartOk(symbols, p)
    ensures PartsOk(symbols, p) <==> PartsOk(symbols, p[..dot])
  {
    hide PartOk;
    var parent := p[..dot];
    if PartsOk(symbols, p) {
      forall i | 0 <= i <= dot && (i == dot || parent[i] == '.') ensures PartOk(symbols, parent[..i]) {
        SamePrefix(p, dot, i);
        assert p[i] == '.';
      }
    } else {
      var i :| 0 <= i <= |p| && (i == |p| || p[i] == '.') && !PartOk(symbols, p[..i]);
      assert p[..|p|] == p;
      assert i <= dot;
      SamePrefix(p, dot, i);
      assert !PartOk(symbols, parent[..i]);
    }
  }

  lemma SamePrefix(p: string, dot: nat, i: nat)
    requires i <= dot <= |p|
    ensures p[..dot][..i] == p[..i]
  {
  }

  lemma MissingPart(symbols: Symbols, p: string)
    requires p !in symbols
    ensures PartOk(symbols, p) <==> LastPartValid(p)
  {
    hide LastPartValid;
  }

  // ---------------------------------------------------------------- outcomes

  /** Exactly `pairs` were added. */
  predicate Added(before: Symbols, after: Symbols, pairs: Pairs) {
    && after.Keys == before.Keys + NamesOf(pairs)
    && (forall k | k in before :: after[k] == before[k])
    && (forall i | 0 <= i < |pairs| :: after[pairs[i].0].value == pairs[i].1)
  }

  /** A part of a file was built; errors before and after are `had` and `has`.  There is a new
      error exactly if the part is not `valid` or one of its names is not fresh; without an error
      exactly its names were added. */
  predicate Outcome(before: Symbols, after: Symbols, had: bool, has: bool, valid: bool, pairs: Pairs) {
    && (has <==> had || !(valid && Fresh(pairs, before.Keys)))
    && (!has ==> Added(before, after, pairs))
  }

  lemma FreshAppend(a: Pairs, b: Pairs, taken: set<string>)
    ensures Fresh(a + b, taken) <==> Fresh(a, taken) && Fresh(b, taken + NamesOf(a))
  {
    var all := a + b;
    if Fresh(all, taken) {
      assert forall i | 0 <= i < |a| :: all[i] == a[i];
      assert forall i | 0 <= i < |b| :: all[|a| + i] == b[i];
    } else if Fresh(a, taken) && Fresh(b, taken + NamesOf(a)) {
      forall i | 0 <= i < |all| ensures all[i].0 !in taken && '\0' !in all[i].0 {
        if i >= |a| {
          assert all[i] == b[i - |a|];
        }
      }
      forall i, j | 0 <= i < j < |all| ensures all[i].0 != all[j].0 {
        if i >= |a| {
          assert all[i] == b[i - |a|] && all[j] == b[j - |a|];
        } else if j >= |a| {
          assert all[i].0 in NamesOf(a) && all[j] == b[j - |a|];
        }
      }
      assert false;
    }
  }

  lemma NamesAppend(a: Pairs, b: Pairs)
    ensures NamesOf(a + b) == NamesOf(a) + NamesOf(b)
  {
    forall x | x in NamesOf(a) + NamesOf(b) ensures x in NamesOf(a + b) {
      if i :| 0 <= i < |a| && a[i].0 == x {
        assert (a + b)[i].0 == x;
      } else {
        var j :| 0 <= j < |b| && b[j].0 == x;
        assert (a + b)[|a| + j].0 == x;
      }
    }
  }

  lemma AddedThen(x: Symbols, y: Symbols, z: Symbols, p: Pairs, q: Pairs)
    requires Added(x, y, p) && Added(y, z, q)
    ensures Added(x, z, p + q)
  {
    NamesAppend(p, q);
    var all := p + q;
    forall i | 0 <= i < |all| ensures all[i].0 in z && z[all[i].0].value == all[i].1 {
      if i < |p| {
        assert p[i].0 in NamesOf(p);
      } else {
        assert all[i] == q[i - |p|] && q[i - |p|].0 in NamesOf(q);
      }
    }
  }

  /** One part after the other. */
  lemma OutcomeThen(x: Symbols, y: Symbols, z: Symbols, ex: bool, ey: bool, ez: bool, v: bool, w: bool, p: Pairs, q: Pairs)
    requires Outcome(x, y, ex, ey, v, p) && Outcome(y, z, ey, ez, w, q)
    ensures Outcome(x, z, ex, ez, v && w, p + q)
  {
    hide Fresh, Added;
    FreshAppend(p, q, x.Keys);
    if !ey {
      AddedKeys(x, y, p);
      if !ez {
        AddedThen(x, y, z, p, q);
      }
    }
  }

  lemma AddedKeys(x: Symbols, y: Symbols, p: Pairs)
    requires Added(x, y, p)
    ensures y.Keys == x.Keys + NamesOf(p)
  {
  }

  /** A check that adds nothing. */
  lemma OutcomeCheck(x: Symbols, had: bool, has: bool, valid: bool)
    requires has <==> had || !valid
    ensures Outcome(x, x, had, has, valid, [])
  {
  }

  /** One symbol. */
  lemma OutcomeSymbol(x: Symbols, y: Symbols, had: bool, has: bool, name: string, e: Entry<Symbol>)
    requires has <==> had || name in x || '\0' in name
    requires y == if name in x || '\0' in name then x else x[name := e]
    ensures Outcome(x, y, had, has, true, [(name, e.value)])
  {
    assert NamesOf([(name, e.value)]) == {name} by {
      assert [(name, e.value)][0].0 == name;
    }
  }

  lemma OutcomeError(x: Symbols, y: Symbols, had: bool, valid: bool, pairs: Pairs)
    requires !valid
    ensures Outcome(x, y, had, true, valid, pairs)
  {
  }

  // The parts of an element in turn.

  lemma OutcomeStart(scope: string, d: Decl, file: string, x: Symbols, had: bool, has: bool)
    requires has <==> had || !ValidName(d.name)
    ensures Outcome(x, x, had, has, ValidUpTo(d, 0), DeclaredUpTo(scope, d, 0, file))
  {
    OutcomeCheck(x, had, has, ValidName(d.name));
  }

  lemma NothingDeclared(scope: string, decls: seq<Decl>, file: string, x: Symbols, had: bool)
    ensures Outcome(x, x, had, had, AllValid(decls[..0]), DeclaredAll(scope, decls[..0], file))
  {
    OutcomeCheck(x, had, had, true);
  }

  lemma OutcomeChild(scope: string, d: Decl, i: nat, file: string,
                     x: Symbols, y: Symbols, z: Symbols, ex: bool, ey: bool, ez: bool)
    requires i < |d.children|
    requires Outcome(x, y, ex, ey, ValidUpTo(d, i), DeclaredUpTo(scope, d, i, file))
    requires Outcome(y, z, ey, ez, DeclValid(d.children[i]), Declared(Inner(scope, d), d.children[i], file))
    ensures Outcome(x, z, ex, ez, ValidUpTo(d, i + 1), DeclaredUpTo(scope, d, i + 1, file))
  {
    hide Outcome, Declared;
    OutcomeThen(x, y, z, ex, ey, ez, ValidUpTo(d, i), DeclValid(d.children[i]),
                DeclaredUpTo(scope, d, i, file), Declared(Inner(scope, d), d.children[i], file));
  }

  lemma OutcomeDecl(scope: string, d: Decl, file: string,
                    x: Symbols, y: Symbols, z: Symbols, ex: bool, ey: bool, ez: bool)
    requires Outcome(x, y, ex, ey, ValidUpTo(d, |d.children|), DeclaredUpTo(scope, d, |d.children|, file))
    requires Outcome(y, z, ey, ez, true, [(Join(scope, d.name), Symbol(d.kind, file))])
    ensures Outcome(x, z, ex, ez, DeclValid(d), Declared(scope, d, file))
  {
    hide Outcome, DeclaredUpTo;
    OutcomeThen(x, y, z, ex, ey, ez, ValidUpTo(d, |d.children|), true,
                DeclaredUpTo(scope, d, |d.children|, file), [(Join(scope, d.name), Symbol(d.kind, file))]);
  }

  predicate AllValid(decls: seq<Decl>) {
    forall i | 0 <= i < |decls| :: DeclValid(decls[i])
  }

  lemma OutcomeNext(scope: string, decls: seq<Decl>, i: nat, file: string,
                    x: Symbols, y: Symbols, z: Symbols, ex: bool, ey: bool, ez: bool)
    requires i < |decls|
    requires Outcome(x, y, ex, ey, AllValid(decls[..i]), DeclaredAll(scope, decls[..i], file))
    requires Outcome(y, z, ey, ez, DeclValid(decls[i]), Declared(scope, decls[i], file))
    ensures Outcome(x, z, ex, ez, AllValid(decls[..i + 1]), DeclaredAll(scope, decls[..i + 1], file))
  {
    hide Outcome, Declared;
    assert decls[..i + 1] == decls[..i] + [decls[i]];
    assert decls[..i + 1][..i] == decls[..i];
    OutcomeThen(x, y, z, ex, ey, ez, AllValid(decls[..i]), DeclValid(decls[i]),
                DeclaredAll(scope, decls[..i], file), Declared(scope, decls[i], file));
  }

  /** A new package, then its parents, then its own name. */
  lemma OutcomePackage(x: Symbols, y: Symbols, z: Symbols, name: string, e: Entry<Symbol>, file: string,
                       ex: bool, ey: bool, ez: bool, e4: bool)
    requires '\0' !in name && name !in x && y == x[name := e] && e.value == Symbol(Package, file)
    requires Outcome(x, y, ex, ey, true, [(name, e.value)])
    requires if LastDot(name) < 0 then z == y && ez == ey
             else Outcome(y, z, ey, ez, PackageOk(y, name[..LastDot(name)]), Chain(y, name[..LastDot(name)], file))
    requires e4 <==> ez || !LastPartValid(name)
    ensures Outcome(x, z, ex, e4, PackageOk(x, name), Chain(x, name, file))
  {
    hide Outcome, LastPartValid;
    OutcomeCheck(z, ez, e4, LastPartValid(name));
    var own := [(name, e.value)];
    if LastDot(name) < 0 {
      OutcomeThen(x, y, z, ex, ey, e4, true, LastPartValid(name), own, []);
    } else {
      var p := name[..LastDot(name)];
      var parents := Chain(y, p, file);
      ChainIgnores(x, name, e, p, file);
      OutcomeThen(x, y, z, ex, ey, ez, true, PackageOk(y, p), own, parents);
      OutcomeThen(x, z, z, ex, ez, e4, PackageOk(y, p), LastPartValid(name), own + parents, []);
      assert own + parents + [] == own + parents;
    }
  }

  // ---------------------------------------------------------------- files

  predicate MayBePlaceholder(options: Options, proto: Proto, j: nat) {
    options.allowUnknown || (!options.enforceWeak && j in proto.weak)
  }

  /** What each dependency is resolved to. */
  function ImportsOf(options: Options, files: set<string>, proto: Proto): (imports: seq<Import>)
    ensures |imports| == |proto.dependencies|
  {
    seq(|proto.dependencies|, j requires 0 <= j < |proto.dependencies| =>
      var name := proto.dependencies[j];
      if name in files then Found(name)
      else if MayBePlaceholder(options, proto, j) then Placeholder(name)
      else Missing(name))
  }

  /** No import is listed twice and none is missing. */
  predicate ImportsOk(options: Options, files: set<string>, proto: Proto) {
    ImportsOkUpTo(options, files, proto, |proto.dependencies|)
  }

  predicate ImportsOkUpTo(options: Options, files: set<string>, proto: Proto, n: nat)
    requires n <= |proto.dependencies|
  {
    && (forall i, j | 0 <= i < j < n :: proto.dependencies[i] != proto.dependencies[j])
    && (forall j | 0 <= j < n :: proto.dependencies[j] in files || MayBePlaceholder(options, proto, j))
  }

  lemma ImportStep(options: Options, files: set<string>, proto: Proto, i: nat)
    requires i < |proto.dependencies|
    ensures var name := proto.dependencies[i];
            ImportsOkUpTo(options, files, proto, i + 1) <==>
            && ImportsOkUpTo(options, files, proto, i)
            && name !in proto.dependencies[..i]
            && (name in files || MayBePlaceholder(options, proto, i))
  {
    var name := proto.dependencies[i];
    if name in proto.dependencies[..i] {
      var k :| 0 <= k < i && proto.dependencies[..i][k] == name;
      assert proto.dependencies[k] == proto.dependencies[i];
    } else {
      forall k | 0 <= k < i ensures proto.dependencies[k] != name {
        assert proto.dependencies[..i][k] == proto.dependencies[k];
      }
    }
  }

  lemma ImportsFacts(options: Options, files: set<string>, proto: Proto)
    ensures var f := File(proto, ImportsOf(options, files, proto));
            && ImportsMatch(f)
            && (ImportsOk(options, files, proto) ==> ImportsAllowed(options, f))
            && forall j | 0 <= j < |f.imports| && f.imports[j].Found? :: f.imports[j].name in files
  {
  }

  predicate IndexesOk(indexes: seq<int>, n: nat) {
    forall i | 0 <= i < |indexes| :: 0 <= indexes[i] < n
  }

  /** Everything about the file that does not depend on names being free or found. */
  predicate Sound(options: Options, c: Contents, proto: Proto) {
    && ImportsOk(options, c.files.Keys, proto)
    && (proto.package == [] || PackageOk(c.symbols, proto.package))
    && IndexesOk(proto.public, |proto.dependencies|)
    && IndexesOk(proto.weak, |proto.dependencies|)
    && AllValid(proto.decls)
  }

  /** All symbols the file adds: its package, then what it declares. */
  function NewSymbols(c: Contents, proto: Proto): Pairs {
    (if proto.package == [] then [] else Chain(c.symbols, proto.package, proto.name)) +
    DeclaredAll(proto.package, proto.decls, proto.name)
  }

  /** The files with this one added. */
  function FilesWith(options: Options, c: Contents, proto: Proto): map<string, Entry<File>> {
    c.files[proto.name := Entry(|c.strings|, File(proto, ImportsOf(options, c.files.Keys, proto)))]
  }

  function Visible(files: map<string, Entry<File>>, imports: seq<Import>): set<string> {
    RecordAll(files, Imported(imports), {})
  }

  function Imported(imports: seq<Import>): seq<string> {
    if imports == [] then []
    else (if imports[0].Found? then [imports[0].name] else []) + Imported(imports[1..])
  }

  lemma {:induction false} ImportedExact(imports: seq<Import>, m: string)
    ensures m in Imported(imports) <==> Found(m) in imports
  {
    if imports != [] {
      ImportedExact(imports[1..], m);
    }
  }

  /** What the file sees, in terms of the dependencies it names: those of them that were there, and
      what these import publicly. */
  ghost predicate Sees(files: map<string, Entry<File>>, before: set<string>, proto: Proto, n: string) {
    exists path: seq<string> | PublicPath(files, path) ::
      path[0] in proto.dependencies && path[0] in before && path[|path| - 1] == n
  }

  lemma VisibleIsSeen(options: Options, c: Contents, proto: Proto, n: string)
    ensures var files := FilesWith(options, c, proto);
            n in Visible(files, ImportsOf(options, c.files.Keys, proto)) <==> Sees(files, c.files.Keys, proto, n)
  {
    hide RecordAll;
    var files, imports := FilesWith(options, c, proto), ImportsOf(options, c.files.Keys, proto);
    RecordedAreReached(files, Imported(imports), n);
    forall m ensures m in Imported(imports) <==> m in proto.dependencies && m in c.files {
      ImportedExact(imports, m);
      if m in proto.dependencies && m in c.files {
        var j :| 0 <= j < |proto.dependencies| && proto.dependencies[j] == m;
        assert imports[j] == Found(m);
      }
    }
  }

  lemma AllVisibleAreSeen(options: Options, c: Contents, proto: Proto)
    ensures var files := FilesWith(options, c, proto);
            forall n :: n in Visible(files, ImportsOf(options, c.files.Keys, proto)) <==> Sees(files, c.files.Keys, proto, n)
  {
    var files := FilesWith(options, c, proto);
    forall n
      ensures n in Visible(files, ImportsOf(options, c.files.Keys, proto)) <==> Sees(files, c.files.Keys, proto, n)
    {
      VisibleIsSeen(options, c, proto, n);
    }
  }

  /** What the file can see once it has been added. */
  function ViewOf(options: Options, c: Contents, proto: Proto, symbols: Symbols): View {
    var files := FilesWith(options, c, proto);
    View(symbols, files, proto.name, proto.package,
         Visible(files, ImportsOf(options, c.files.Keys, proto)), options.enforceDependencies)
  }

  /** The reference leads nowhere and no placeholder may stand in for it. */
  predicate Unresolved(options: Options, v: View, ref: Reference) {
    Resolution(v, ref.name, ref.from, ref.mode).None? && !(options.allowUnknown && ValidQualifiedName(ref.name))
  }

  /** ValidateQualifiedName. */
  predicate ValidQualifiedName(name: string) {
    && name != [] && name[|name| - 1] != '.'
    && forall i | 0 <= i < |name| :: IdentifierChar(name[i]) || (name[i] == '.' && (i == 0 || name[i - 1] != '.'))
  }

  predicate AllResolved(options: Options, v: View, references: seq<Reference>) {
    forall i | 0 <= i < |references| :: !Unresolved(options, v, references[i])
  }

  /** The name leads somewhere: from one of the scopes, or globally; or a placeholder may stand in
      for it. */
  predicate Resolvable(options: Options, v: View, ref: Reference) {
    || (options.allowUnknown && ValidQualifiedName(ref.name))
    || if ref.name != [] && ref.name[0] == '.' then Find(v, ref.name[1..]).Some?
       else exists c | -1 <= c < |ref.from| :: LeadsFrom(v, ref, c)
  }

  predicate LeadsFrom(v: View, ref: Reference, c: int)
    requires -1 <= c < |ref.from|
  {
    (c >= 0 ==> ref.from[c] == '.') && Find(v, Scoped(ref.from, c, ref.name)).Some?
  }

  predicate AllResolvable(options: Options, v: View, references: seq<Reference>) {
    forall i | 0 <= i < |references| :: Resolvable(options, v, references[i])
  }

  lemma ResolvableGrows(options: Options, v: View, w: View, ref: Reference)
    requires Grows(v, w) && Resolvable(options, v, ref)
    ensures Resolvable(options, w, ref)
  {
    hide Find, ValidQualifiedName;
    if ref.name != [] && ref.name[0] == '.' {
      if Find(v, ref.name[1..]).Some? {
        FindGrows(v, w, ref.name[1..]);
      }
    } else if c :| -1 <= c < |ref.from| && LeadsFrom(v, ref, c) {
      FindGrows(v, w, Scoped(ref.from, c, ref.name));
      assert LeadsFrom(w, ref, c);
    }
  }

  lemma FoundIsResolvable(options: Options, v: View, w: View, ref: Reference, r: Option<Symbol>)
    requires ResolvesBetween(v, w, ref.name, ref.from, ref.mode, r) && r.Some?
    ensures Resolvable(options, w, ref)
  {
    hide Find, Acceptable, ValidQualifiedName;
    if !(ref.name != [] && ref.name[0] == '.') {
      var c: int :| -1 <= c < |ref.from| && Decides(v, w, ref.from, c, ref.name, ref.mode) &&
                    FoundBetween(v, w, Scoped(ref.from, c, ref.name), r);
      assert LeadsFrom(w, ref, c);
    }
  }

  lemma NoReferences(options: Options, v: View, references: seq<Reference>)
    ensures AllResolvable(options, v, references[..0])
  {
  }

  /** One more reference, with the view grown meanwhile. */
  lemma ResolvableStep(options: Options, v: View, w: View, references: seq<Reference>, i: nat, r: Option<Symbol>)
    requires i < |references| && AllResolvable(options, v, references[..i]) && Grows(v, w)
    requires ResolvesBetween(v, w, references[i].name, references[i].from, references[i].mode, r)
    requires r.Some? || (options.allowUnknown && ValidQualifiedName(references[i].name))
    ensures AllResolvable(options, w, references[..i + 1])
  {
    hide ValidQualifiedName, Grows, ResolvesBetween, Find;
    forall j | 0 <= j <= i ensures Resolvable(options, w, references[j]) {
      if j < i {
        assert Resolvable(options, v, references[..i][j]);
        ResolvableGrows(options, v, w, references[j]);
      } else if r.Some? {
        FoundIsResolvable(options, v, w, references[i], r);
      }
    }
  }

  /** The symbols before the file and those it adds; where the strings are does not matter. */
  function SymbolsWith(symbols: Symbols, pairs: Pairs): Symbols
  {
    if pairs == [] then symbols
    else SymbolsWith(symbols, pairs[..|pairs| - 1])[pairs[|pairs| - 1].0 := Entry(0, pairs[|pairs| - 1].1)]
  }

  /** The file may be added to these contents, its references aside. */
  predicate Admissible(options: Options, c: Contents, proto: Proto) {
    && '\0' !in proto.name && proto.name !in c.files && proto.name !in proto.dependencies
    && Sound(options, c, proto)
    && Fresh(NewSymbols(c, proto), c.symbols.Keys)
    && !proto.otherErrors
  }

  /** What a file added to contents `c` can see when the pool has become `now`. */
  function SightOf(options: Options, c: Contents, proto: Proto, now: Contents): View {
    View(now.symbols, now.files, proto.name, proto.package,
         Visible(FilesWith(options, c, proto), ImportsOf(options, c.files.Keys, proto)), options.enforceDependencies)
  }

  /** The file is accepted by a pool with these contents. */
  predicate Buildable(options: Options, c: Contents, proto: Proto) {
    && Admissible(options, c, proto)
    && AllResolved(options, ViewOf(options, c, proto, SymbolsWith(c.symbols, NewSymbols(c, proto))), proto.references)
  }

  /** The file is in the pool, unchanged. */
  predicate Present(c: Contents, proto: Proto) {
    proto.name in c.files && c.files[proto.name].value.proto == proto
  }

  /** What the pool has gained by building the file: the file and its symbols, nothing else. */
  predicate Gained(options: Options, before: Contents, after: Contents, proto: Proto) {
    && after.files == FilesWith(options, before, proto)
    && Added(before.symbols, after.symbols, NewSymbols(before, proto))
  }

  /** The file and its symbols are there, maybe with others. */
  predicate Includes(options: Options, before: Contents, now: Contents, proto: Proto) {
    && proto.name in now.files && now.files[proto.name] == FilesWith(options, before, proto)[proto.name]
    && var pairs := NewSymbols(before, proto);
       forall i | 0 <= i < |pairs| :: pairs[i].0 in now.symbols && now.symbols[pairs[i].0].value == pairs[i].1
  }

  lemma IncludesLater(options: Options, before: Contents, added: Contents, now: Contents, proto: Proto)
    requires added.files == FilesWith(options, before, proto)
    requires Added(before.symbols, added.symbols, NewSymbols(before, proto)) && Later(added, now)
    ensures Includes(options, before, now, proto)
  {
    hide NewSymbols, VectorsGrown, ImportsOf;
    var pairs := NewSymbols(before, proto);
    forall i | 0 <= i < |pairs| ensures pairs[i].0 in now.symbols && now.symbols[pairs[i].0].value == pairs[i].1 {
      assert pairs[i].0 in NamesOf(pairs);
    }
  }

  lemma ResolvedStep(options: Options, v: View, references: seq<Reference>, i: nat)
    requires i < |references|
    ensures AllResolved(options, v, references[..i + 1]) <==>
            AllResolved(options, v, references[..i]) && !Unresolved(options, v, references[i])
  {
    hide Unresolved;
    assert references[..i + 1] == references[..i] + [references[i]];
    if AllResolved(options, v, references[..i + 1]) {
      assert references[..i + 1][i] == references[i];
      assert forall j | 0 <= j < i :: references[..i + 1][j] == references[..i][j];
    }
  }

  lemma NoImports(options: Options, files: set<string>, proto: Proto)
    ensures ImportsOkUpTo(options, files, proto, 0)
    ensures ImportsOf(options, files, proto)[..0] == []
  {
  }

  /** All parts of a file in turn: imports, package, indexes, declarations. */
  lemma OutcomeFile(options: Options, c: Contents, proto: Proto, y: Symbols, z: Symbols, e1: bool, e2: bool, e3: bool, e4: bool)
    requires e1 <==> !ImportsOk(options, c.files.Keys, proto)
    requires Outcome(c.symbols, y, e1, e2, proto.package == [] || PackageOk(c.symbols, proto.package),
                     if proto.package == [] then [] else Chain(c.symbols, proto.package, proto.name))
    requires e3 <==> e2 || !(IndexesOk(proto.public, |proto.dependencies|) && IndexesOk(proto.weak, |proto.dependencies|))
    requires Outcome(y, z, e3, e4, AllValid(proto.decls), DeclaredAll(proto.package, proto.decls, proto.name))
    ensures Outcome(c.symbols, z, false, e4, Sound(options, c, proto), NewSymbols(c, proto))
  {
    hide Outcome, ImportsOk, PackageOk, Chain, IndexesOk, AllValid, DeclaredAll;
    var x := c.symbols;
    var packageOk := proto.package == [] || PackageOk(x, proto.package);
    var indexesOk := IndexesOk(proto.public, |proto.dependencies|) && IndexesOk(proto.weak, |proto.dependencies|);
    var chain := if proto.package == [] then [] else Chain(x, proto.package, proto.name);
    OutcomeCheck(x, false, e1, ImportsOk(options, c.files.Keys, proto));
    OutcomeThen(x, x, y, false, e1, e2, ImportsOk(options, c.files.Keys, proto), packageOk, [], chain);
    assert [] + chain == chain;
    OutcomeCheck(y, e2, e3, indexesOk);
    OutcomeThen(x, y, y, false, e2, e3, ImportsOk(options, c.files.Keys, proto) && packageOk, indexesOk, chain, []);
    assert chain + [] == chain;
    OutcomeThen(x, y, z, false, e3, e4, ImportsOk(options, c.files.Keys, proto) && packageOk && indexesOk,
                AllValid(proto.decls), chain, DeclaredAll(proto.package, proto.decls, proto.name));
  }

  lemma NotBuildable(options: Options, c: Contents, proto: Proto)
    requires '\0' in proto.name || proto.name in c.files || proto.name in proto.dependencies
    ensures !Buildable(options, c, proto)
  {
  }

  /** With the actual symbols in place of the abstract ones. */
  lemma BuildableIff(options: Options, c: Contents, proto: Proto, symbols: Symbols, has: bool)
    requires '\0' !in proto.name && proto.name !in c.files && proto.name !in proto.dependencies
    requires Outcome(c.symbols, symbols, false, has, Sound(options, c, proto), NewSymbols(c, proto))
    ensures Admissible(options, c, proto) <==> !has && !proto.otherErrors
    ensures Buildable(options, c, proto) <==>
            !has && !proto.otherErrors && AllResolved(options, ViewOf(options, c, proto, symbols), proto.references)
    ensures !has ==> Added(c.symbols, symbols, NewSymbols(c, proto))
  {
    hide Sound, NewSymbols, AllResolved, FilesWith, Visible, ImportsOf;
    if !has {
      var pairs := NewSymbols(c, proto);
      SymbolsWithAdded(c.symbols, pairs);
      AddedSame(c.symbols, symbols, SymbolsWith(c.symbols, pairs), pairs);
      SameReferences(options, ViewOf(options, c, proto, symbols),
                     ViewOf(options, c, proto, SymbolsWith(c.symbols, pairs)), proto.references);
    }
  }

  // ---------------------------------------------------------------- what the new symbols are like

  predicate OfFile(pairs: Pairs, file: string) {
    forall i | 0 <= i < |pairs| :: pairs[i].1.file == file
  }

  predicate Nonempty(pairs: Pairs) {
    forall i | 0 <= i < |pairs| :: pairs[i].0 != []
  }

  lemma {:induction false} ChainOf(symbols: Symbols, p: string, file: string)
    ensures OfFile(Chain(symbols, p, file), file)
    ensures PackageOk(symbols, p) && (forall k | k in symbols :: k != []) ==> Nonempty(Chain(symbols, p, file))
    ensures p !in symbols ==> Chain(symbols, p, file) != [] && Chain(symbols, p, file)[0].0 == p
    decreases |p|
  {
    if p !in symbols && LastDot(p) >= 0 {
      ChainOf(symbols, p[..LastDot(p)], file);
    }
  }

  lemma {:induction false} DeclaredOf(scope: string, d: Decl, file: string)
    ensures OfFile(Declared(scope, d, file), file)
    ensures DeclValid(d) ==> Nonempty(Declared(scope, d, file))
    decreases d, |d.children| + 1
  {
    DeclaredUpToOf(scope, d, |d.children|, file);
  }

  lemma {:induction false} DeclaredUpToOf(scope: string, d: Decl, n: nat, file: string)
    requires n <= |d.children|
    ensures OfFile(DeclaredUpTo(scope, d, n, file), file)
    ensures DeclValid(d) ==> Nonempty(DeclaredUpTo(scope, d, n, file))
    decreases d, n
  {
    if n > 0 {
      DeclaredUpToOf(scope, d, n - 1, file);
      DeclaredOf(Inner(scope, d), d.children[n - 1], file);
    }
  }

  lemma {:induction false} DeclaredAllOf(scope: string, decls: seq<Decl>, file: string)
    ensures OfFile(DeclaredAll(scope, decls, file), file)
    ensures AllValid(decls) ==> Nonempty(DeclaredAll(scope, decls, file))
  {
    hide Declared, DeclValid;
    if decls != [] {
      DeclaredAllOf(scope, decls[..|decls| - 1], file);
      DeclaredOf(scope, decls[|decls| - 1], file);
    }
  }

  /** All of them belong to the file. */
  lemma NewSymbolsAreNew(c: Contents, now: Contents, proto: Proto)
    requires Added(c.symbols, now.symbols, NewSymbols(c, proto)) && proto.name !in c.files
    ensures FromNewFiles(c, now)
  {
    hide Chain, DeclaredAll;
    var pairs := NewSymbols(c, proto);
    ChainOf(c.symbols, proto.package, proto.name);
    DeclaredAllOf(proto.package, proto.decls, proto.name);
    assert OfFile(pairs, proto.name);
    forall k | k in now.symbols && k !in c.symbols ensures now.symbols[k].value.file == proto.name {
      var i :| 0 <= i < |pairs| && pairs[i].0 == k;
    }
  }

  /** They have names, and the file's package is among what is known. */
  lemma NamesStayKnown(options: Options, c: Contents, now: Contents, proto: Proto)
    requires NamesKnown(c) && Sound(options, c, proto) && now.files == FilesWith(options, c, proto)
    requires Added(c.symbols, now.symbols, NewSymbols(c, proto))
    ensures NamesKnown(now)
  {
    hide Chain, DeclaredAll, PackageOk, ImportsOk, IndexesOk, ImportsOf;
    var pairs := NewSymbols(c, proto);
    ChainOf(c.symbols, proto.package, proto.name);
    DeclaredAllOf(proto.package, proto.decls, proto.name);
    assert Nonempty(pairs);
    forall k | k in now.symbols ensures k != [] {
      if k !in c.symbols {
        var i :| 0 <= i < |pairs| && pairs[i].0 == k;
      }
    }
    if proto.package != [] && proto.package !in c.symbols {
      assert pairs[0].0 == proto.package && pairs[0].0 in NamesOf(pairs);
    }
  }

  lemma OutcomeWithoutError(x: Symbols, y: Symbols, valid: bool, pairs: Pairs)
    requires Outcome(x, y, false, false, valid, pairs)
    ensures valid && Fresh(pairs, x.Keys) && Added(x, y, pairs)
  {
  }

  // ---------------------------------------------------------------- where the strings are does not matter

  predicate SameSymbols(a: Symbols, b: Symbols) {
    && a.Keys == b.Keys
    && forall k | k in a :: a[k].value == b[k].value
  }

  lemma {:induction false} SymbolsWithAdded(symbols: Symbols, pairs: Pairs)
    requires Fresh(pairs, symbols.Keys)
    ensures Added(symbols, SymbolsWith(symbols, pairs), pairs)
  {
    if pairs == [] {
      assert NamesOf(pairs) == {};
    } else {
      var n := |pairs| - 1;
      var front, last := pairs[..n], pairs[n];
      assert pairs == front + [last];
      FreshAppend(front, [last], symbols.Keys);
      SymbolsWithAdded(symbols, front);
      var mid := SymbolsWith(symbols, front);
      assert [last][0].0 !in mid;
      OutcomeSymbol(mid, mid[last.0 := Entry(0, last.1)], false, false, last.0, Entry(0, last.1));
      AddedThen(symbols, mid, SymbolsWith(symbols, pairs), front, [last]);
    }
  }

  lemma AddedSame(x: Symbols, a: Symbols, b: Symbols, pairs: Pairs)
    requires Added(x, a, pairs) && Added(x, b, pairs)
    ensures SameSymbols(a, b)
  {
    forall k | k in a ensures a[k].value == b[k].value {
      if k !in x {
        var i :| 0 <= i < |pairs| && pairs[i].0 == k;
      }
    }
  }

  lemma {:induction false} SameResolutionUpTo(v: View, w: View, name: string, from: string, n: nat, mode: Mode)
    requires w == v.(symbols := w.symbols) && SameSymbols(v.symbols, w.symbols) && n <= |from|
    ensures ResolutionUpTo(v, name, from, n, mode) == ResolutionUpTo(w, name, from, n, mode)
  {
    if n > 0 {
      SameResolutionUpTo(v, w, name, from, n - 1, mode);
    }
  }

  lemma SameReferences(options: Options, v: View, w: View, references: seq<Reference>)
    requires w == v.(symbols := w.symbols) && SameSymbols(v.symbols, w.symbols)
    ensures AllResolved(options, v, references) <==> AllResolved(options, w, references)
  {
    hide Find, ResolutionUpTo, ValidQualifiedName;
    forall i | 0 <= i < |references| ensures Unresolved(options, v, references[i]) == Unresolved(options, w, references[i]) {
      var ref := references[i];
      SameResolutionUpTo(v, w, ref.name, ref.from, |ref.from|, ref.mode);
      SameFind(v, w, if ref.name != [] then ref.name[1..] else []);
    }
  }

  lemma SameFind(v: View, w: View, name: string)
    requires w == v.(symbols := w.symbols) && SameSymbols(v.symbols, w.symbols)
    ensures Find(v, name) == Find(w, name)
  {
  }
}
