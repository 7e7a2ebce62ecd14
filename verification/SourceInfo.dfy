/** OptionInterpreter::UpdateSourceCodeInfo: when uninterpreted options have been interpreted,
    the source locations of the old paths move to the new ones, and the locations below them,
    which describe parts that no longer exist, go away. */
module SourceInfo {

  type Path = seq<int>

  /** A SourceCodeInfo_Location; `data` stands for everything but the path. */
  datatype Location = Location(path: Path, data: nat)

  function DropUnder(locs: seq<Location>, p: Path): (r: seq<Location>)
    ensures |r| <= |locs|
  {
    if locs != [] && p <= locs[0].path then DropUnder(locs[1..], p) else locs
  }

  /** The locations as they ought to be. */
  function Rewrite(locs: seq<Location>, paths: map<Path, Path>): seq<Location>
    decreases |locs|
  {
    if locs == [] then []
    else
      var loc := locs[0];
      if loc.path in paths then [loc.(path := paths[loc.path])] + Rewrite(DropUnder(locs[1..], loc.path), paths)
      else [loc] + Rewrite(locs[1..], paths)
  }

  predicate NoKey(locs: seq<Location>, paths: map<Path, Path>) {
    forall i | 0 <= i < |locs| :: locs[i].path !in paths
  }

  predicate Under(locs: seq<Location>, p: Path) {
    forall i | 0 <= i < |locs| :: p <= locs[i].path
  }

  /** Where no path is a key nothing changes. */
  lemma {:induction false} RewriteUntouched(locs: seq<Location>, paths: map<Path, Path>, rest: seq<Location>)
    requires NoKey(locs, paths)
    ensures Rewrite(locs + rest, paths) == locs + Rewrite(rest, paths)
  {
    if locs == [] {
      assert locs + rest == rest;
    } else {
      assert (locs + rest)[1..] == locs[1..] + rest;
      RewriteUntouched(locs[1..], paths, rest);
    }
  }

  lemma {:induction false} DropUnderRun(run: seq<Location>, rest: seq<Location>, p: Path)
    requires Under(run, p) && (rest == [] || !(p <= rest[0].path))
    ensures DropUnder(run + rest, p) == rest
  {
    if run == [] {
      assert run + rest == rest;
    } else {
      assert (run + rest)[1..] == run[1..] + rest;
      DropUnderRun(run[1..], rest, p);
    }
  }

  /** At the first location `key` whose path is one of the keys: what comes before is kept, the
      location gets its new path, the whole run of locations under the old path that follows is
      dropped, and it goes on in the same way behind that run. */
  lemma RewriteAtKey(front: seq<Location>, key: Location, run: seq<Location>, rest: seq<Location>, paths: map<Path, Path>)
    requires NoKey(front, paths) && key.path in paths
    requires Under(run, key.path) && (rest == [] || !(key.path <= rest[0].path))
    ensures Rewrite(front + [key] + run + rest, paths) ==
            front + [key.(path := paths[key.path])] + Rewrite(rest, paths)
  {
    hide Rewrite, DropUnder, NoKey, Under;
    var tail := [key] + (run + rest);
    assert front + [key] + run + rest == front + tail;
    RewriteUntouched(front, paths, tail);
    KeyFirst(key, run, rest, paths);
    var after := [key.(path := paths[key.path])];
    assert front + (after + Rewrite(rest, paths)) == front + after + Rewrite(rest, paths);
  }

  lemma KeyFirst(key: Location, run: seq<Location>, rest: seq<Location>, paths: map<Path, Path>)
    requires key.path in paths
    requires Under(run, key.path) && (rest == [] || !(key.path <= rest[0].path))
    ensures Rewrite([key] + (run + rest), paths) == [key.(path := paths[key.path])] + Rewrite(rest, paths)
  {
    assert ([key] + (run + rest))[1..] == run + rest;
    DropUnderRun(run, rest, key.path);
  }

  /** One step along the list. */
  lemma Unfold(locs: seq<Location>, i: nat, paths: map<Path, Path>, p: Path)
    requires i < |locs|
    ensures DropUnder(locs[i..], p) == if p <= locs[i].path then DropUnder(locs[i + 1..], p) else locs[i..]
    ensures Rewrite(locs[i..], paths) ==
            if locs[i].path in paths
            then [locs[i].(path := paths[locs[i].path])] + Rewrite(DropUnder(locs[i + 1..], locs[i].path), paths)
            else [locs[i]] + Rewrite(locs[i + 1..], paths)
  {
    assert locs[i..][1..] == locs[i + 1..];
  }

  class SourceCodeInfo {
    var location: seq<Location>

    /** The comparison of a path with the remembered one. */
    method StartsWith(path: Path, pathv: Path) returns (matches: bool)
      ensures matches == (pathv <= path)
    {
      matches := true;
      if |path| < |pathv| {
        return false;
      }
      var j := 0;
      while j < |pathv|
        invariant 0 <= j <= |pathv| && pathv[..j] == path[..j]
      {
        if path[j] != pathv[j] {
          return false;
        }
        j := j + 1;
      }
    }

    /** UpdateSourceCodeInfo, which starts a copy only at the first match. */
    method Update(interpretedPaths: map<Path, Path>)
      modifies this
      ensures location == Rewrite(old(location), interpretedPaths)
      ensures NoKey(old(location), interpretedPaths) ==> location == old(location)
    {
      if NoKey(location, interpretedPaths) {
        NothingToDo(location, interpretedPaths);
      }
      if interpretedPaths == map[] {
        return;
      }
      var copying, newLocs := NewLocations(location, interpretedPaths);
      if copying {
        location := newLocs;
      }
    }

    method NewLocations(locs: seq<Location>, paths: map<Path, Path>) returns (copying: bool, newLocs: seq<Location>)
      ensures Rewrite(locs, paths) == if copying then newLocs else locs
      ensures !copying ==> NoKey(locs, paths)
    {
      hide Done, NoKey;
      newLocs, copying := [], false;
      var matched := false;
      var pathv: Path := [];
      var i := 0;
      AtStart(locs, paths);
      while i < |locs|
        invariant 0 <= i <= |locs|
        invariant matched ==> copying
        invariant !copying ==> NoKey(locs[..i], paths)
        invariant Done(locs, paths, i, matched, pathv, if copying then newLocs else locs[..i])
      {
        ghost var before := if copying then newLocs else locs[..i];
        var loc := locs[i];
        var under := false;
        if matched {
          under := StartsWith(loc.path, pathv);
        }
        if under {
          DoneUnder(locs, paths, i, pathv, before);
        } else if loc.path in paths {
          DoneKey(locs, paths, i, matched, pathv, before);
          if !copying {
            copying := true;
            newLocs := locs[..i];
          }
          newLocs := newLocs + [loc.(path := paths[loc.path])];
          matched, pathv := true, loc.path;
        } else {
          DoneKeep(locs, paths, i, matched, pathv, before);
          if copying {
            newLocs := newLocs + [loc];
          } else {
            NoKeySnoc(locs, i, paths);
            assert locs[..i + 1] == locs[..i] + [loc];
          }
          matched, pathv := false, loc.path;
        }
        i := i + 1;
      }
      DoneAll(locs, paths, i, matched, pathv, if copying then newLocs else locs[..i]);
      assert locs[..i] == locs;
    }
  }

  /** After `i` locations the output so far is `out`; what follows depends on whether a match is
      still open, and on its path. */
  predicate Done(locs: seq<Location>, paths: map<Path, Path>, i: nat, matched: bool, p: Path, out: seq<Location>)
    requires i <= |locs|
  {
    Rewrite(locs, paths) == out + Rewrite(if matched then DropUnder(locs[i..], p) else locs[i..], paths)
  }

  lemma DoneUnder(locs: seq<Location>, paths: map<Path, Path>, i: nat, p: Path, out: seq<Location>)
    requires i < |locs| && Done(locs, paths, i, true, p, out) && p <= locs[i].path
    ensures Done(locs, paths, i + 1, true, p, out)
  {
    hide Rewrite;
    Unfold(locs, i, paths, p);
  }

  lemma DoneKey(locs: seq<Location>, paths: map<Path, Path>, i: nat, matched: bool, p: Path, out: seq<Location>)
    requires i < |locs| && Done(locs, paths, i, matched, p, out)
    requires !matched || !(p <= locs[i].path)
    requires locs[i].path in paths
    ensures Done(locs, paths, i + 1, true, locs[i].path, out + [locs[i].(path := paths[locs[i].path])])
  {
    hide Rewrite, DropUnder;
    Unfold(locs, i, paths, p);
    var next := [locs[i].(path := paths[locs[i].path])];
    var rest := Rewrite(DropUnder(locs[i + 1..], locs[i].path), paths);
    assert (out + next) + rest == out + (next + rest);
  }

  lemma DoneKeep(locs: seq<Location>, paths: map<Path, Path>, i: nat, matched: bool, p: Path, out: seq<Location>)
    requires i < |locs| && Done(locs, paths, i, matched, p, out)
    requires !matched || !(p <= locs[i].path)
    requires locs[i].path !in paths
    ensures Done(locs, paths, i + 1, false, locs[i].path, out + [locs[i]])
  {
    hide Rewrite, DropUnder;
    Unfold(locs, i, paths, p);
    var rest := Rewrite(locs[i + 1..], paths);
    assert (out + [locs[i]]) + rest == out + ([locs[i]] + rest);
  }

  lemma DoneAll(locs: seq<Location>, paths: map<Path, Path>, i: nat, matched: bool, p: Path, out: seq<Location>)
    requires i == |locs| && Done(locs, paths, i, matched, p, out)
    ensures Rewrite(locs, paths) == out
  {
    AtEnd(locs, i, paths, p);
    assert out + [] == out;
  }

  lemma AtStart(locs: seq<Location>, paths: map<Path, Path>)
    ensures NoKey(locs[..0], paths)
    ensures Done(locs, paths, 0, false, [], locs[..0])
  {
    assert locs[0..] == locs;
  }

  lemma NoKeySnoc(locs: seq<Location>, i: nat, paths: map<Path, Path>)
    requires i < |locs| && NoKey(locs[..i], paths) && locs[i].path !in paths
    ensures NoKey(locs[..i + 1], paths)
  {
    assert locs[..i + 1] == locs[..i] + [locs[i]];
  }

  lemma AtEnd(locs: seq<Location>, i: nat, paths: map<Path, Path>, p: Path)
    requires i == |locs|
    ensures locs[i..] == [] && DropUnder(locs[i..], p) == []
    ensures Rewrite([], paths) == []
  {
  }

  lemma NothingToDo(locs: seq<Location>, paths: map<Path, Path>)
    requires NoKey(locs, paths)
    ensures Rewrite(locs, paths) == locs
  {
    RewriteUntouched(locs, paths, []);
    assert locs + [] == locs;
  }
}
