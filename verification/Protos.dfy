/** The inputs of the descriptor builder: file protos, the fallback database, and dotted names. */
module Protos {

  import opened Wrappers

  /** What a name stands for. */
  datatype Kind = Message | Field | Oneof | Enum | EnumValue | Service | Method | Package

  /** Packages are not declared by what is in a file. */
  type DeclKind = k: Kind | k != Package witness Message

  /** A message, field, enum, service, ... with what is declared in it. */
  datatype Decl = Decl(name: string, kind: DeclKind, children: seq<Decl>)

  datatype Mode = LookupAll | LookupTypes

  /** A name to be resolved when the file is cross-linked, as seen from the element `from`. */
  datatype Reference = Reference(name: string, from: string, mode: Mode)

  /** A FileDescriptorProto.  `otherErrors` says whether a check that is not part of this model
      reports an error. */
  datatype Proto = Proto(
    name: string, package: string,
    dependencies: seq<string>, public: seq<int>, weak: seq<int>,
    decls: seq<Decl>, references: seq<Reference>, otherErrors: bool)

  /** The fallback database: what it answers when asked for a file by name, or for the file
      containing a symbol.  The second answer may be wrong either way. */
  datatype Database = Database(files: map<string, Proto>, symbols: map<string, Proto>)

  /** The names of all files the database can come up with. */
  function Names(db: Option<Database>): set<string> {
    if db.None? then {}
    else (set n | n in db.value.files :: db.value.files[n].name) + (set n | n in db.value.symbols :: db.value.symbols[n].name)
  }

  datatype Options = Options(allowUnknown: bool, enforceWeak: bool, enforceDependencies: bool)

  // ---------------------------------------------------------------- dotted names

  /** `find_last_of('.')`, or -1. */
  function LastDot(s: string): (r: int)
    ensures -1 <= r < |s|
    ensures r >= 0 ==> s[r] == '.'
    ensures forall i | r < i < |s| :: s[i] != '.'
  {
    if s == [] then -1
    else if s[|s| - 1] == '.' then |s| - 1
    else LastDot(s[..|s| - 1])
  }

  /** `find_first_of('.')`, or the length. */
  function FirstDot(s: string): (r: nat)
    ensures r <= |s|
    ensures r < |s| ==> s[r] == '.'
    ensures forall i | 0 <= i < r :: s[i] != '.'
  {
    if s == [] then 0
    else if s[0] == '.' then 0
    else 1 + FirstDot(s[1..])
  }

  function FirstPart(s: string): (r: string)
    ensures r <= s && '.' !in r
    ensures |r| < |s| ==> s[|r|] == '.'
  {
    s[..FirstDot(s)]
  }

  /** AllocateNameString. */
  function Join(scope: string, name: string): string {
    if scope == [] then name else scope + "." + name
  }

  /** The characters ValidateSymbolName lets pass. */
  predicate IdentifierChar(c: char) {
    'a' <= c <= 'z' || 'A' <= c <= 'Z' || '0' <= c <= '9' || c == '_'
  }

  predicate ValidName(name: string) {
    name != [] && forall i | 0 <= i < |name| :: IdentifierChar(name[i])
  }

  lemma JoinParent(scope: string, name: string)
    requires ValidName(name)
    ensures scope != [] ==> LastDot(Join(scope, name)) == |scope| && Join(scope, name)[..|scope|] == scope
    ensures scope == [] ==> LastDot(Join(scope, name)) == -1
  {
    var full := Join(scope, name);
    if scope != [] {
      assert full[|scope|] == '.';
      assert forall i | |scope| < i < |full| :: full[i] == name[i - |scope| - 1];
    }
  }
}
