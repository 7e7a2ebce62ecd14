/** DescriptorPool::Tables: the pool's symbol, file and extension maps with their stack of
    checkpoints.

    The keys of the symbol and file maps are not copied: they are pointers to strings that the
    tables own.  A pointer is modelled as the position of the string in `strings`, so that
    following one is only possible while the string is still there. */
module Tables {

  import opened Protos

  /** What a name stands for, and the file it was defined in. */
  datatype Symbol = Symbol(kind: Kind, file: string)
  {
    /** Symbol::IsType. */
    predicate IsType() {
      kind == Message || kind == Enum
    }

    /** Symbol::IsAggregate. */
    predicate IsAggregate() {
      kind == Message || kind == Package || kind == Enum || kind == Service
    }
  }

  /** A FileDescriptor as far as it matters here: what it was built from, and what each import
      was resolved to. */
  datatype File = File(proto: Proto, imports: seq<Import>)

  datatype Import = Found(name: string) | Placeholder(name: string) | Missing(name: string)

  /** The key of an extension: extendee and number. */
  type ExtensionKey = (string, int)

  /** An entry of a map whose key is the string at position `at`. */
  datatype Entry<V> = Entry(at: nat, value: V)

  /** Everything a rollback has to restore.  `allocations` stands for the vectors of raw bytes,
      messages, once-flags and file tables, by kind. */
  datatype Contents = Contents(
    symbols: map<string, Entry<Symbol>>,
    files: map<string, Entry<File>>,
    extensions: map<ExtensionKey, string>,
    strings: seq<string>,
    messages: seq<nat>, onceDynamics: seq<nat>, fileTables: seq<nat>, allocations: seq<nat>,
    // The files in the order in which they were added.
    order: seq<string>)
  {
    /** Every key in the maps points at a string that is alive and spells that key. */
    predicate KeysAlive() {
      && (forall k | k in symbols :: symbols[k].at < |strings| && strings[symbols[k].at] == k)
      && (forall k | k in files :: files[k].at < |strings| && strings[files[k].at] == k)
    }
  }

  datatype CheckPoint = CheckPoint(
    strings: nat, messages: nat, onceDynamics: nat, fileTables: nat, allocations: nat,
    pendingSymbols: nat, pendingFiles: nat, pendingExtensions: nat)

  /** What has been added since the logs were last cleared. */
  datatype Logs = Logs(symbols: seq<nat>, files: seq<nat>, extensions: seq<ExtensionKey>)

  // ---------------------------------------------------------------- one map and its log

  /** `now` is `before` with exactly the keys of `added` on top. */
  predicate Grown<K(==), V(==)>(before: map<K, V>, now: map<K, V>, added: seq<K>) {
    && (forall k | k in before :: k in now && now[k] == before[k])
    && (forall k | k in now :: k in before <==> k !in added)
  }

  function Without<K, V>(m: map<K, V>, keys: seq<K>): map<K, V> {
    map k | k in m && k !in keys :: m[k]
  }

  lemma GrownWithout<K, V>(before: map<K, V>, now: map<K, V>, added: seq<K>)
    requires Grown(before, now, added)
    ensures Without(now, added) == before
  {
  }

  /** Undoing the later part of a log leaves what the earlier part had added. */
  lemma GrownEarlier<K, V>(first: map<K, V>, mid: map<K, V>, now: map<K, V>, a: seq<K>, b: seq<K>)
    requires Grown(first, now, a + b) && Grown(mid, now, b)
    requires forall k | k in first :: k in mid
    ensures Grown(first, mid, a)
  {
  }

  function KeysAt(strings: seq<string>, log: seq<nat>): (keys: seq<string>)
    requires forall i | 0 <= i < |log| :: log[i] < |strings|
    ensures |keys| == |log|
    ensures forall i | 0 <= i < |log| :: keys[i] == strings[log[i]]
  {
    seq(|log|, i requires 0 <= i < |log| => strings[log[i]])
  }

  // ---------------------------------------------------------------- checkpoints

  /** The vectors of `before` are beginnings of those of `now`. */
  predicate VectorsGrown(before: Contents, now: Contents) {
    && before.strings <= now.strings && before.messages <= now.messages
    && before.onceDynamics <= now.onceDynamics && before.fileTables <= now.fileTables
    && before.allocations <= now.allocations && before.order <= now.order
  }

  predicate Sizes(c: CheckPoint, before: Contents) {
    && c.strings == |before.strings| && c.messages == |before.messages|
    && c.onceDynamics == |before.onceDynamics| && c.fileTables == |before.fileTables|
    && c.allocations == |before.allocations|
  }

  predicate LogsValid(logs: Logs, strings: seq<string>) {
    && (forall i | 0 <= i < |logs.symbols| :: logs.symbols[i] < |strings|)
    && (forall i | 0 <= i < |logs.files| :: logs.files[i] < |strings|)
  }

  function Pending(c: CheckPoint, logs: Logs): Logs
    requires c.pendingSymbols <= |logs.symbols| && c.pendingFiles <= |logs.files|
    requires c.pendingExtensions <= |logs.extensions|
  {
    Logs(logs.symbols[c.pendingSymbols..], logs.files[c.pendingFiles..], logs.extensions[c.pendingExtensions..])
  }

  function Earlier(c: CheckPoint, logs: Logs): Logs
    requires c.pendingSymbols <= |logs.symbols| && c.pendingFiles <= |logs.files|
    requires c.pendingExtensions <= |logs.extensions|
  {
    Logs(logs.symbols[..c.pendingSymbols], logs.files[..c.pendingFiles], logs.extensions[..c.pendingExtensions])
  }

  /** Checkpoint `c`, taken in state `before`, can be rolled back to from `now`. */
  predicate Restorable(c: CheckPoint, before: Contents, now: Contents, logs: Logs) {
    && VectorsGrown(before, now) && Sizes(c, before) && before.KeysAlive()
    && c.pendingSymbols <= |logs.symbols| && c.pendingFiles <= |logs.files|
    && c.pendingExtensions <= |logs.extensions|
    && LogsValid(logs, now.strings)
    && LogsValid(Earlier(c, logs), before.strings)
    && Grown(before.symbols, now.symbols, KeysAt(now.strings, Pending(c, logs).symbols))
    && Grown(before.files, now.files, KeysAt(now.strings, Pending(c, logs).files))
    && Grown(before.extensions, now.extensions, Pending(c, logs).extensions)
  }

  /** A checkpoint below another one on the stack. */
  predicate Below(c: CheckPoint, d: CheckPoint) {
    && c.strings <= d.strings && c.messages <= d.messages && c.onceDynamics <= d.onceDynamics
    && c.fileTables <= d.fileTables && c.allocations <= d.allocations
    && c.pendingSymbols <= d.pendingSymbols && c.pendingFiles <= d.pendingFiles
    && c.pendingExtensions <= d.pendingExtensions
  }

  predicate Consistent(now: Contents, logs: Logs, checkpoints: seq<CheckPoint>, snaps: seq<Contents>) {
    && now.KeysAlive() && LogsValid(logs, now.strings)
    && |checkpoints| == |snaps|
    && (forall i | 0 <= i < |snaps| :: Restorable(checkpoints[i], snaps[i], now, logs))
    && (forall i, j | 0 <= i < j < |snaps| :: Below(checkpoints[i], checkpoints[j]) && Inside(snaps[i], snaps[j]))
  }

  /** The maps and the order of `a` are contained in those of `b`. */
  predicate Inside(a: Contents, b: Contents) {
    && (forall k | k in a.symbols :: k in b.symbols)
    && (forall k | k in a.files :: k in b.files)
    && (forall k | k in a.extensions :: k in b.extensions)
    && a.order <= b.order
  }

  // ---------------------------------------------------------------- additions

  /** Growing the vectors only. */
  lemma AllocateKeeps(now: Contents, now': Contents, logs: Logs, c: CheckPoint, before: Contents)
    requires Restorable(c, before, now, logs) && VectorsGrown(now, now')
    requires now'.symbols == now.symbols && now'.files == now.files && now'.extensions == now.extensions
    ensures Restorable(c, before, now', logs)
  {
    assert KeysAt(now.strings, Pending(c, logs).symbols) == KeysAt(now'.strings, Pending(c, logs).symbols);
    assert KeysAt(now.strings, Pending(c, logs).files) == KeysAt(now'.strings, Pending(c, logs).files);
  }

  lemma AllAllocateKeeps(now: Contents, now': Contents, logs: Logs, checkpoints: seq<CheckPoint>, snaps: seq<Contents>)
    requires Consistent(now, logs, checkpoints, snaps) && VectorsGrown(now, now')
    requires now'.symbols == now.symbols && now'.files == now.files && now'.extensions == now.extensions
    ensures Consistent(now', logs, checkpoints, snaps)
  {
    hide Restorable;
    forall i | 0 <= i < |snaps| ensures Restorable(checkpoints[i], snaps[i], now', logs) {
      AllocateKeeps(now, now', logs, checkpoints[i], snaps[i]);
    }
  }

  lemma GrownByOne<K, V>(before: map<K, V>, now: map<K, V>, added: seq<K>, k: K, v: V)
    requires Grown(before, now, added) && k !in now
    ensures Grown(before, now[k := v], added + [k])
  {
  }

  lemma AddSymbolKeeps(now: Contents, logs: Logs, c: CheckPoint, before: Contents, at: nat, v: Symbol)
    requires Restorable(c, before, now, logs) && at < |now.strings| && now.strings[at] !in now.symbols
    ensures Restorable(c, before, now.(symbols := now.symbols[now.strings[at] := Entry(at, v)]),
                       logs.(symbols := logs.symbols + [at]))
  {
    hide Grown;
    var logs' := logs.(symbols := logs.symbols + [at]);
    GrownByOne(before.symbols, now.symbols, KeysAt(now.strings, Pending(c, logs).symbols), now.strings[at], Entry(at, v));
    assert Pending(c, logs').symbols == Pending(c, logs).symbols + [at];
    assert KeysAt(now.strings, Pending(c, logs').symbols) ==
           KeysAt(now.strings, Pending(c, logs).symbols) + [now.strings[at]];
    assert Earlier(c, logs') == Earlier(c, logs);
  }

  lemma AddFileKeeps(now: Contents, logs: Logs, c: CheckPoint, before: Contents, at: nat, v: File)
    requires Restorable(c, before, now, logs) && at < |now.strings| && now.strings[at] !in now.files
    ensures Restorable(c, before,
                       now.(files := now.files[now.strings[at] := Entry(at, v)], order := now.order + [now.strings[at]]),
                       logs.(files := logs.files + [at]))
  {
    hide Grown;
    var logs' := logs.(files := logs.files + [at]);
    GrownByOne(before.files, now.files, KeysAt(now.strings, Pending(c, logs).files), now.strings[at], Entry(at, v));
    assert Pending(c, logs').files == Pending(c, logs).files + [at];
    assert KeysAt(now.strings, Pending(c, logs').files) ==
           KeysAt(now.strings, Pending(c, logs).files) + [now.strings[at]];
    assert Earlier(c, logs') == Earlier(c, logs);
  }

  lemma AddExtensionKeeps(now: Contents, logs: Logs, c: CheckPoint, before: Contents, k: ExtensionKey, v: string)
    requires Restorable(c, before, now, logs) && k !in now.extensions
    ensures Restorable(c, before, now.(extensions := now.extensions[k := v]),
                       logs.(extensions := logs.extensions + [k]))
  {
    hide Grown;
    var logs' := logs.(extensions := logs.extensions + [k]);
    GrownByOne(before.extensions, now.extensions, Pending(c, logs).extensions, k, v);
    assert Pending(c, logs').extensions == Pending(c, logs).extensions + [k];
    assert Earlier(c, logs') == Earlier(c, logs);
  }

  // ---------------------------------------------------------------- rollback

  /** `before` is what a rollback to `c` makes of `now`: the logged keys are erased and the
      vectors cut. */
  predicate Undone(c: CheckPoint, now: Contents, logs: Logs, before: Contents)
    requires c.pendingSymbols <= |logs.symbols| && c.pendingFiles <= |logs.files|
    requires c.pendingExtensions <= |logs.extensions| && LogsValid(logs, now.strings)
    requires c.strings <= |now.strings| && c.messages <= |now.messages|
    requires c.onceDynamics <= |now.onceDynamics| && c.fileTables <= |now.fileTables|
    requires c.allocations <= |now.allocations|
  {
    && before.symbols == Without(now.symbols, KeysAt(now.strings, Pending(c, logs).symbols))
    && before.files == Without(now.files, KeysAt(now.strings, Pending(c, logs).files))
    && before.extensions == Without(now.extensions, Pending(c, logs).extensions)
    && before.strings == now.strings[..c.strings] && before.messages == now.messages[..c.messages]
    && before.onceDynamics == now.onceDynamics[..c.onceDynamics]
    && before.fileTables == now.fileTables[..c.fileTables]
    && before.allocations == now.allocations[..c.allocations]
  }

  /** It is exactly the contents when the checkpoint was taken, whatever has been added since,
      and whatever inner checkpoints have been cleared since. */
  lemma RollbackRestores(c: CheckPoint, before: Contents, now: Contents, logs: Logs)
    requires Restorable(c, before, now, logs)
    ensures Undone(c, now, logs, before)
  {
    var pending := Pending(c, logs);
    GrownWithout(before.symbols, now.symbols, KeysAt(now.strings, pending.symbols));
    GrownWithout(before.files, now.files, KeysAt(now.strings, pending.files));
    GrownWithout(before.extensions, now.extensions, pending.extensions);
  }

  /** And the checkpoints below stay restorable. */
  lemma RollbackKeepsOuter(c: CheckPoint, first: Contents, d: CheckPoint, mid: Contents, now: Contents, logs: Logs)
    requires Restorable(c, first, now, logs) && Restorable(d, mid, now, logs)
    requires Below(c, d) && Inside(first, mid)
    ensures Restorable(c, first, mid, Earlier(d, logs))
  {
    hide Grown;
    var logs' := Earlier(d, logs);
    var mine, late := Pending(c, logs'), Pending(d, logs);
    PendingSplits(c, d, logs);
    KeysSplit(mid.strings, now.strings, mine.symbols, late.symbols, Pending(c, logs).symbols);
    KeysSplit(mid.strings, now.strings, mine.files, late.files, Pending(c, logs).files);
    GrownEarlier(first.symbols, mid.symbols, now.symbols,
                 KeysAt(mid.strings, mine.symbols), KeysAt(now.strings, late.symbols));
    GrownEarlier(first.files, mid.files, now.files,
                 KeysAt(mid.strings, mine.files), KeysAt(now.strings, late.files));
    GrownEarlier(first.extensions, mid.extensions, now.extensions, mine.extensions, late.extensions);
    VectorsNested(first, mid, now);
  }

  lemma PendingSplits(c: CheckPoint, d: CheckPoint, logs: Logs)
    requires Below(c, d)
    requires d.pendingSymbols <= |logs.symbols| && d.pendingFiles <= |logs.files|
    requires d.pendingExtensions <= |logs.extensions|
    ensures var mine, late := Pending(c, Earlier(d, logs)), Pending(d, logs);
            Pending(c, logs) == Logs(mine.symbols + late.symbols, mine.files + late.files, mine.extensions + late.extensions)
    ensures Earlier(c, Earlier(d, logs)) == Earlier(c, logs)
  {
    SeqSplits(logs.symbols, c.pendingSymbols, d.pendingSymbols);
    SeqSplits(logs.files, c.pendingFiles, d.pendingFiles);
    SeqSplits(logs.extensions, c.pendingExtensions, d.pendingExtensions);
  }

  lemma SeqSplits<T>(s: seq<T>, i: nat, j: nat)
    requires i <= j <= |s|
    ensures s[i..] == s[..j][i..] + s[j..]
    ensures s[..j][..i] == s[..i]
  {
  }

  /** The keys of the two parts of a log; the first part was logged when only `before` was there. */
  lemma KeysSplit(before: seq<string>, now: seq<string>, a: seq<nat>, b: seq<nat>, log: seq<nat>)
    requires before <= now && log == a + b
    requires forall i | 0 <= i < |a| :: a[i] < |before|
    requires forall i | 0 <= i < |log| :: log[i] < |now|
    ensures forall i | 0 <= i < |b| :: b[i] < |now|
    ensures KeysAt(now, log) == KeysAt(before, a) + KeysAt(now, b)
  {
    assert forall i | 0 <= i < |b| :: b[i] == log[|a| + i];
  }

  lemma VectorsNested(first: Contents, mid: Contents, now: Contents)
    requires VectorsGrown(first, now) && VectorsGrown(mid, now)
    requires |first.strings| <= |mid.strings| && |first.messages| <= |mid.messages|
    requires |first.onceDynamics| <= |mid.onceDynamics| && |first.fileTables| <= |mid.fileTables|
    requires |first.allocations| <= |mid.allocations| && first.order <= mid.order
    ensures VectorsGrown(first, mid)
  {
  }

  lemma NewCheckpointRestorable(c: CheckPoint, now: Contents, logs: Logs)
    requires now.KeysAlive() && LogsValid(logs, now.strings) && Sizes(c, now)
    requires c.pendingSymbols == |logs.symbols| && c.pendingFiles == |logs.files|
    requires c.pendingExtensions == |logs.extensions|
    ensures Restorable(c, now, now, logs)
  {
    assert Earlier(c, logs) == logs && Pending(c, logs) == Logs([], [], []);
  }

  lemma NewCheckpoint(now: Contents, logs: Logs, checkpoints: seq<CheckPoint>, snaps: seq<Contents>, c: CheckPoint)
    requires Consistent(now, logs, checkpoints, snaps)
    requires c == CheckPoint(|now.strings|, |now.messages|, |now.onceDynamics|, |now.fileTables|, |now.allocations|,
                             |logs.symbols|, |logs.files|, |logs.extensions|)
    ensures Consistent(now, logs, checkpoints + [c], snaps + [now])
  {
    hide Restorable;
    NewCheckpointRestorable(c, now, logs);
    forall i | 0 <= i < |snaps| ensures Below(checkpoints[i], c) && Inside(snaps[i], now) {
      RestorableBelow(checkpoints[i], snaps[i], now, logs, c);
    }
  }

  lemma RestorableBelow(b: CheckPoint, before: Contents, now: Contents, logs: Logs, c: CheckPoint)
    requires Restorable(b, before, now, logs)
    requires c == CheckPoint(|now.strings|, |now.messages|, |now.onceDynamics|, |now.fileTables|, |now.allocations|,
                             |logs.symbols|, |logs.files|, |logs.extensions|)
    ensures Below(b, c) && Inside(before, now)
  {
  }

  /** Without the last checkpoint; and without any, the logs may be emptied. */
  lemma OneFewer(now: Contents, logs: Logs, checkpoints: seq<CheckPoint>, snaps: seq<Contents>)
    requires Consistent(now, logs, checkpoints, snaps) && snaps != []
    ensures Consistent(now, logs, checkpoints[..|checkpoints| - 1], snaps[..|snaps| - 1])
    ensures |snaps| == 1 ==> Consistent(now, Logs([], [], []), [], [])
  {
    hide Restorable, Below, Inside;
  }

  lemma ConsistentLengths(now: Contents, logs: Logs, checkpoints: seq<CheckPoint>, snaps: seq<Contents>)
    requires Consistent(now, logs, checkpoints, snaps)
    ensures |checkpoints| == |snaps| && LogsValid(logs, now.strings)
  {
  }

  /** After a rollback everything below the checkpoint is as it was. */
  lemma RollbackConsistent(now: Contents, logs: Logs, checkpoints: seq<CheckPoint>, snaps: seq<Contents>)
    requires Consistent(now, logs, checkpoints, snaps) && snaps != []
    ensures var top := |snaps| - 1;
            var c := checkpoints[top];
            && c.pendingSymbols <= |logs.symbols| && c.pendingFiles <= |logs.files|
            && c.pendingExtensions <= |logs.extensions|
            && c.strings <= |now.strings| && c.messages <= |now.messages|
            && c.onceDynamics <= |now.onceDynamics| && c.fileTables <= |now.fileTables|
            && c.allocations <= |now.allocations|
            && LogsValid(logs, now.strings)
            && snaps[top].order <= now.order
            && Undone(c, now, logs, snaps[top])
            && Consistent(snaps[top], Earlier(c, logs), checkpoints[..top], snaps[..top])
  {
    hide Below, Inside, Grown;
    var top := |snaps| - 1;
    var c := checkpoints[top];
    assert Restorable(c, snaps[top], now, logs);
    RollbackRestores(c, snaps[top], now, logs);
    forall i | 0 <= i < top ensures Restorable(checkpoints[i], snaps[i], snaps[top], Earlier(c, logs)) {
      RollbackKeepsOuter(checkpoints[i], snaps[i], c, snaps[top], now, logs);
    }
  }

  lemma EraseOne<K, V>(m: map<K, V>, keys: seq<K>, i: nat)
    requires i < |keys|
    ensures Without(m, keys[..i + 1]) == Without(m, keys[..i]) - {keys[i]}
  {
    assert keys[..i + 1] == keys[..i] + [keys[i]];
  }

  // ---------------------------------------------------------------- the tables

  class Pool {
    var symbols: map<string, Entry<Symbol>>
    var files: map<string, Entry<File>>
    var extensions: map<ExtensionKey, string>
    var strings: seq<string>
    var messages: seq<nat>
    var onceDynamics: seq<nat>
    var fileTables: seq<nat>
    var allocations: seq<nat>
    var checkpoints: seq<CheckPoint>
    var symbolsAfterCheckpoint: seq<nat>
    var filesAfterCheckpoint: seq<nat>
    var extensionsAfterCheckpoint: seq<ExtensionKey>
    // Not rolled back: the files being built, and the files and symbols known to be bad.
    var pendingFiles: seq<string>
    var knownBadFiles: set<string>
    var knownBadSymbols: set<string>
    // The files in the order they were added, and the contents at each open checkpoint.
    ghost var order: seq<string>
    ghost var snaps: seq<Contents>

    ghost function Now(): Contents
      reads this
    {
      Contents(symbols, files, extensions, strings, messages, onceDynamics, fileTables, allocations, order)
    }

    ghost function Log(): Logs
      reads this
    {
      Logs(symbolsAfterCheckpoint, filesAfterCheckpoint, extensionsAfterCheckpoint)
    }

    ghost predicate Valid()
      reads this
    {
      Consistent(Now(), Log(), checkpoints, snaps)
    }

    constructor ()
      ensures Valid() && snaps == []
      ensures Now() == Contents(map[], map[], map[], [], [], [], [], [], [])
      ensures pendingFiles == [] && knownBadFiles == {} && knownBadSymbols == {}
    {
      symbols, files, extensions, strings := map[], map[], map[], [];
      messages, onceDynamics, fileTables, allocations := [], [], [], [];
      checkpoints, symbolsAfterCheckpoint, filesAfterCheckpoint, extensionsAfterCheckpoint := [], [], [], [];
      pendingFiles, knownBadFiles, knownBadSymbols := [], {}, {};
      order, snaps := [], [];
    }

    /** AllocateString: a new string; the old ones stay where they are. */
    method AllocateString(value: string) returns (at: nat)
      requires Valid()
      modifies this`strings
      ensures Valid()
      ensures at == |old(strings)| && strings == old(strings) + [value]
    {
      ghost var before := Now();
      at := |strings|;
      strings := strings + [value];
      forall i | 0 <= i < |snaps| ensures Restorable(checkpoints[i], snaps[i], Now(), Log()) {
        AllocateKeeps(before, Now(), Log(), checkpoints[i], snaps[i]);
      }
    }

    method AllocateBytes(size: nat)
      requires Valid()
      modifies this`allocations
      ensures Valid()
      ensures allocations == if size != 0 then old(allocations) + [size] else old(allocations)
    {
      hide Consistent;
      ghost var before := Now();
      if size != 0 {
        allocations := allocations + [size];
      }
      AllAllocateKeeps(before, Now(), Log(), checkpoints, snaps);
    }

    method AllocateMessage()
      requires Valid()
      modifies this`messages
      ensures Valid()
      ensures messages == old(messages) + [0]
    {
      hide Consistent;
      ghost var before := Now();
      messages := messages + [0];
      AllAllocateKeeps(before, Now(), Log(), checkpoints, snaps);
    }

    method AllocateOnceDynamic()
      requires Valid()
      modifies this`onceDynamics
      ensures Valid()
      ensures onceDynamics == old(onceDynamics) + [0]
    {
      hide Consistent;
      ghost var before := Now();
      onceDynamics := onceDynamics + [0];
      AllAllocateKeeps(before, Now(), Log(), checkpoints, snaps);
    }

    method AllocateFileTables()
      requires Valid()
      modifies this`fileTables
      ensures Valid()
      ensures fileTables == old(fileTables) + [0]
    {
      hide Consistent;
      ghost var before := Now();
      fileTables := fileTables + [0];
      AllAllocateKeeps(before, Now(), Log(), checkpoints, snaps);
    }

    /** AddSymbol: the first symbol of a name stays. */
    method AddSymbol(at: nat, symbol: Symbol) returns (added: bool)
      requires Valid() && at < |strings|
      modifies this`symbols, this`symbolsAfterCheckpoint
      ensures Valid()
      ensures added == (strings[at] !in old(symbols))
      ensures symbols == if added then old(symbols)[strings[at] := Entry(at, symbol)] else old(symbols)
    {
      if strings[at] in symbols {
        return false;
      }
      forall i | 0 <= i < |snaps|
        ensures Restorable(checkpoints[i], snaps[i],
                           Now().(symbols := symbols[strings[at] := Entry(at, symbol)]),
                           Log().(symbols := symbolsAfterCheckpoint + [at]))
      {
        AddSymbolKeeps(Now(), Log(), checkpoints[i], snaps[i], at, symbol);
      }
      symbols := symbols[strings[at] := Entry(at, symbol)];
      symbolsAfterCheckpoint := symbolsAfterCheckpoint + [at];
      added := true;
    }

    method AddFile(at: nat, file: File) returns (added: bool)
      requires Valid() && at < |strings|
      modifies this`files, this`filesAfterCheckpoint, this`order
      ensures Valid()
      ensures added == (strings[at] !in old(files))
      ensures files == if added then old(files)[strings[at] := Entry(at, file)] else old(files)
      ensures order == if added then old(order) + [strings[at]] else old(order)
    {
      if strings[at] in files {
        return false;
      }
      forall i | 0 <= i < |snaps|
        ensures Restorable(checkpoints[i], snaps[i],
                           Now().(files := files[strings[at] := Entry(at, file)], order := order + [strings[at]]),
                           Log().(files := filesAfterCheckpoint + [at]))
      {
        AddFileKeeps(Now(), Log(), checkpoints[i], snaps[i], at, file);
      }
      files := files[strings[at] := Entry(at, file)];
      order := order + [strings[at]];
      filesAfterCheckpoint := filesAfterCheckpoint + [at];
      added := true;
    }

    method AddExtension(key: ExtensionKey, field: string) returns (added: bool)
      requires Valid()
      modifies this`extensions, this`extensionsAfterCheckpoint
      ensures Valid()
      ensures added == (key !in old(extensions))
      ensures extensions == if added then old(extensions)[key := field] else old(extensions)
    {
      if key in extensions {
        return false;
      }
      forall i | 0 <= i < |snaps|
        ensures Restorable(checkpoints[i], snaps[i], Now().(extensions := extensions[key := field]),
                           Log().(extensions := extensionsAfterCheckpoint + [key]))
      {
        AddExtensionKeeps(Now(), Log(), checkpoints[i], snaps[i], key, field);
      }
      extensions := extensions[key := field];
      extensionsAfterCheckpoint := extensionsAfterCheckpoint + [key];
      added := true;
    }

    method AddCheckpoint()
      requires Valid()
      modifies this`checkpoints, this`snaps
      ensures Valid()
      ensures snaps == old(snaps) + [Now()]
    {
      var c := CheckPoint(|strings|, |messages|, |onceDynamics|, |fileTables|, |allocations|,
                          |symbolsAfterCheckpoint|, |filesAfterCheckpoint|, |extensionsAfterCheckpoint|);
      hide Consistent;
      NewCheckpoint(Now(), Log(), checkpoints, snaps, c);
      checkpoints := checkpoints + [c];
      snaps := snaps + [Now()];
    }

    /** What was added since stays, and stays undoable by the checkpoints below, if any. */
    method ClearLastCheckpoint()
      requires Valid() && snaps != []
      modifies this`checkpoints, this`snaps
      modifies this`symbolsAfterCheckpoint, this`filesAfterCheckpoint, this`extensionsAfterCheckpoint
      ensures Valid()
      ensures snaps == old(snaps)[..|old(snaps)| - 1]
    {
      hide Consistent, Restorable;
      ConsistentLengths(Now(), Log(), checkpoints, snaps);
      OneFewer(Now(), Log(), checkpoints, snaps);
      checkpoints := checkpoints[..|checkpoints| - 1];
      snaps := snaps[..|snaps| - 1];
      if checkpoints == [] {
        symbolsAfterCheckpoint := [];
        filesAfterCheckpoint := [];
        extensionsAfterCheckpoint := [];
      }
    }

    /** The contents are again exactly those at the matching checkpoint. */
    method RollbackToLastCheckpoint()
      requires Valid() && snaps != []
      modifies this`symbols, this`files, this`extensions, this`strings, this`messages, this`onceDynamics
      modifies this`fileTables, this`allocations, this`order, this`checkpoints, this`snaps
      modifies this`symbolsAfterCheckpoint, this`filesAfterCheckpoint, this`extensionsAfterCheckpoint
      ensures Valid()
      ensures Now() == old(snaps)[|old(snaps)| - 1]
      ensures snaps == old(snaps)[..|old(snaps)| - 1]
    {
      hide Consistent, Without, KeysAt, LogsValid, Pending;
      ghost var now, log := Now(), Log();
      ConsistentLengths(now, log, checkpoints, snaps);
      var top := |checkpoints| - 1;
      var checkpoint := checkpoints[top];
      RollbackConsistent(now, log, checkpoints, snaps);
      EraseSince(checkpoint);
      CutTo(checkpoint);
      order := order[..|snaps[top].order|];
      checkpoints := checkpoints[..top];
      snaps := snaps[..top];
      assert Now() == old(snaps)[top] && Log() == Earlier(checkpoint, log);
    }

    /** The `resize` calls. */
    method CutTo(c: CheckPoint)
      requires c.pendingSymbols <= |symbolsAfterCheckpoint| && c.pendingFiles <= |filesAfterCheckpoint|
      requires c.pendingExtensions <= |extensionsAfterCheckpoint|
      requires c.strings <= |strings| && c.messages <= |messages| && c.onceDynamics <= |onceDynamics|
      requires c.fileTables <= |fileTables| && c.allocations <= |allocations|
      modifies this`strings, this`messages, this`onceDynamics, this`fileTables, this`allocations
      modifies this`symbolsAfterCheckpoint, this`filesAfterCheckpoint, this`extensionsAfterCheckpoint
      ensures Log() == old(Earlier(c, Log()))
      ensures strings == old(strings)[..c.strings] && messages == old(messages)[..c.messages]
      ensures onceDynamics == old(onceDynamics)[..c.onceDynamics]
      ensures fileTables == old(fileTables)[..c.fileTables]
      ensures allocations == old(allocations)[..c.allocations]
    {
      symbolsAfterCheckpoint := symbolsAfterCheckpoint[..c.pendingSymbols];
      filesAfterCheckpoint := filesAfterCheckpoint[..c.pendingFiles];
      extensionsAfterCheckpoint := extensionsAfterCheckpoint[..c.pendingExtensions];
      strings := strings[..c.strings];
      messages := messages[..c.messages];
      onceDynamics := onceDynamics[..c.onceDynamics];
      fileTables := fileTables[..c.fileTables];
      allocations := allocations[..c.allocations];
    }

    method EraseSince(c: CheckPoint)
      requires LogsValid(Log(), strings)
      requires c.pendingSymbols <= |symbolsAfterCheckpoint| && c.pendingFiles <= |filesAfterCheckpoint|
      requires c.pendingExtensions <= |extensionsAfterCheckpoint|
      modifies this`symbols, this`files, this`extensions
      ensures symbols == Without(old(symbols), KeysAt(strings, Pending(c, Log()).symbols))
      ensures files == Without(old(files), KeysAt(strings, Pending(c, Log()).files))
      ensures extensions == Without(old(extensions), Pending(c, Log()).extensions)
    {
      hide Without, KeysAt;
      EraseSymbols(c.pendingSymbols);
      EraseFiles(c.pendingFiles);
      EraseExtensions(c.pendingExtensions);
    }

    /** Erasing the symbols logged from position `from` on, through pointers that are alive. */
    method EraseSymbols(from: nat)
      requires LogsValid(Log(), strings) && from <= |symbolsAfterCheckpoint|
      modifies this`symbols
      ensures symbols == Without(old(symbols), KeysAt(strings, symbolsAfterCheckpoint[from..]))
    {
      ghost var keys := KeysAt(strings, symbolsAfterCheckpoint[from..]);
      var i := from;
      while i < |symbolsAfterCheckpoint|
        invariant from <= i <= |symbolsAfterCheckpoint|
        invariant symbols == Without(old(symbols), keys[..i - from])
      {
        EraseOne(old(symbols), keys, i - from);
        symbols := symbols - {strings[symbolsAfterCheckpoint[i]]};
        i := i + 1;
      }
      assert keys[..i - from] == keys;
    }

    method EraseFiles(from: nat)
      requires LogsValid(Log(), strings) && from <= |filesAfterCheckpoint|
      modifies this`files
      ensures files == Without(old(files), KeysAt(strings, filesAfterCheckpoint[from..]))
    {
      ghost var keys := KeysAt(strings, filesAfterCheckpoint[from..]);
      var i := from;
      while i < |filesAfterCheckpoint|
        invariant from <= i <= |filesAfterCheckpoint|
        invariant files == Without(old(files), keys[..i - from])
      {
        EraseOne(old(files), keys, i - from);
        files := files - {strings[filesAfterCheckpoint[i]]};
        i := i + 1;
      }
      assert keys[..i - from] == keys;
    }

    method EraseExtensions(from: nat)
      requires from <= |extensionsAfterCheckpoint|
      modifies this`extensions
      ensures extensions == Without(old(extensions), extensionsAfterCheckpoint[from..])
    {
      ghost var keys := extensionsAfterCheckpoint[from..];
      var i := from;
      while i < |extensionsAfterCheckpoint|
        invariant from <= i <= |extensionsAfterCheckpoint|
        invariant extensions == Without(old(extensions), keys[..i - from])
      {
        EraseOne(old(extensions), keys, i - from);
        extensions := extensions - {extensionsAfterCheckpoint[i]};
        i := i + 1;
      }
      assert keys[..i - from] == keys;
    }
  }
}
