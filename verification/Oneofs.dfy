/** The oneof part of DescriptorBuilder::CrossLinkMessage: count the fields of each oneof, allocate
    the arrays, fill them, and check the rules for oneofs. */
module Oneofs {

  import opened Wrappers

  /** A field of the message: the index of its oneof, and the proto3_optional flag. */
  datatype Field = Field(oneof: Option<nat>, proto3Optional: bool)

  /** All fields name one of the `n` oneofs, or none. */
  predicate InRange(fields: seq<Field>, n: nat) {
    forall i | 0 <= i < |fields| && fields[i].oneof.Some? :: fields[i].oneof.value < n
  }

  /** The specification: the positions of the fields of oneof `o`, in order. */
  function Members(fields: seq<Field>, o: nat): (ms: seq<nat>)
    ensures forall k | 0 <= k < |ms| :: ms[k] < |fields|
    ensures |ms| <= |fields|
  {
    if fields == [] then []
    else
      var n := |fields| - 1;
      Members(fields[..n], o) + if fields[n].oneof == Some(o) then [n] else []
  }

  /** Members lists exactly the fields of the oneof, each once, in increasing order. */
  lemma {:induction false} MembersExact(fields: seq<Field>, o: nat)
    ensures forall k | 0 <= k < |Members(fields, o)| :: fields[Members(fields, o)[k]].oneof == Some(o)
    ensures forall j, k | 0 <= j < k < |Members(fields, o)| :: Members(fields, o)[j] < Members(fields, o)[k]
    ensures forall i | 0 <= i < |fields| && fields[i].oneof == Some(o) :: i in Members(fields, o)
  {
    if fields != [] {
      var n := |fields| - 1;
      MembersExact(fields[..n], o);
      var front, ms := Members(fields[..n], o), Members(fields, o);
      assert forall k | 0 <= k < |front| :: ms[k] == front[k];
      forall i | 0 <= i < |fields| && fields[i].oneof == Some(o) ensures i in ms {
        if i < n {
          assert fields[..n][i].oneof == Some(o);
          assert i in front;
        }
      }
    }
  }

  lemma MembersStep(fields: seq<Field>, i: nat, o: nat)
    requires i < |fields|
    ensures Members(fields[..i + 1], o) ==
            Members(fields[..i], o) + if fields[i].oneof == Some(o) then [i] else []
  {
    assert fields[..i + 1][..i] == fields[..i];
  }

  lemma {:induction false} MembersGrow(fields: seq<Field>, i: nat, o: nat)
    requires i <= |fields|
    ensures Members(fields[..i], o) <= Members(fields, o)
    decreases |fields| - i
  {
    if i < |fields| {
      MembersStep(fields, i, o);
      MembersGrow(fields, i + 1, o);
    } else {
      assert fields[..i] == fields;
    }
  }

  /** The fields of oneof `o` follow one another without a gap. */
  predicate Contiguous(fields: seq<Field>, o: nat) {
    forall i, j, k | 0 <= i < j < k < |fields| && fields[i].oneof == Some(o) && fields[k].oneof == Some(o) ::
      fields[j].oneof == Some(o)
  }

  /** OneofDescriptor::is_synthetic, on the fields_ of the oneof. */
  predicate IsSynthetic(fields: seq<Field>, own: seq<nat>)
    requires forall k | 0 <= k < |own| :: own[k] < |fields|
  {
    |own| == 1 && fields[own[0]].proto3Optional
  }

  /** The oneof has one field only, and that has proto3_optional. */
  predicate Synthetic(fields: seq<Field>, o: nat) {
    exists i | 0 <= i < |fields| ::
      && fields[i].oneof == Some(o) && fields[i].proto3Optional
      && forall j | 0 <= j < |fields| && fields[j].oneof == Some(o) :: j == i
  }

  lemma SyntheticIff(fields: seq<Field>, o: nat)
    ensures IsSynthetic(fields, Members(fields, o)) <==> Synthetic(fields, o)
  {
    MembersExact(fields, o);
    var ms := Members(fields, o);
    assert forall k | 0 <= k < |ms| :: fields[ms[k]].oneof == Some(o);
    hide Members;
    if |ms| == 1 {
      assert forall j | 0 <= j < |fields| && fields[j].oneof == Some(o) :: j in ms;
      assert fields[ms[0]].oneof == Some(o);
    } else if |ms| > 1 {
      assert ms[0] < ms[1] && fields[ms[0]].oneof == Some(o) && fields[ms[1]].oneof == Some(o);
    }
  }

  /** A field with proto3_optional that is not the only member of a oneof. */
  predicate Stray(fields: seq<Field>, i: nat)
    requires i < |fields|
  {
    && fields[i].proto3Optional
    && (fields[i].oneof.None? || exists j | 0 <= j < |fields| && j != i :: fields[j].oneof == fields[i].oneof)
  }

  lemma StrayIff(fields: seq<Field>, i: nat)
    requires i < |fields| && fields[i].proto3Optional
    ensures Stray(fields, i) <==>
            fields[i].oneof.None? || !IsSynthetic(fields, Members(fields, fields[i].oneof.value))
  {
    hide Members, IsSynthetic;
    if fields[i].oneof.Some? {
      SyntheticIff(fields, fields[i].oneof.value);
    }
  }

  /** The check of the counting pass: a field whose oneof has been seen before, but not just
      before. */
  predicate Broken(fields: seq<Field>, i: nat)
    requires i < |fields|
  {
    && fields[i].oneof.Some?
    && Members(fields[..i], fields[i].oneof.value) != []
    && fields[i - 1].oneof != fields[i].oneof
  }

  /** The check finds a break exactly when some oneof has a gap. */
  lemma BreaksAreGaps(fields: seq<Field>, n: nat)
    requires InRange(fields, n)
    ensures (forall i | 0 <= i < |fields| :: !Broken(fields, i)) <==> forall o | 0 <= o < n :: Contiguous(fields, o)
  {
    hide Members, Contiguous;
    if i :| 0 <= i < |fields| && Broken(fields, i) {
      BreakIsGap(fields, i);
    } else {
      forall o | 0 <= o < n ensures Contiguous(fields, o) {
        NoBreakNoGap(fields, o);
      }
    }
  }

  lemma BreakIsGap(fields: seq<Field>, i: nat)
    requires i < |fields| && Broken(fields, i)
    ensures !Contiguous(fields, fields[i].oneof.value)
  {
    hide Members;
    var o := fields[i].oneof.value;
    var m := FirstMember(fields[..i], o);
    assert fields[m].oneof == Some(o) && fields[i - 1].oneof != Some(o) && m < i - 1;
  }

  lemma FirstMember(fields: seq<Field>, o: nat) returns (m: nat)
    requires Members(fields, o) != []
    ensures m < |fields| && fields[m].oneof == Some(o)
  {
    MembersExact(fields, o);
    m := Members(fields, o)[0];
  }

  lemma NoBreakNoGap(fields: seq<Field>, o: nat)
    requires forall i | 0 <= i < |fields| :: !Broken(fields, i)
    ensures Contiguous(fields, o)
  {
    forall i, j, k | 0 <= i < j < k < |fields| && fields[i].oneof == Some(o) && fields[k].oneof == Some(o)
      ensures fields[j].oneof == Some(o)
    {
      BackToFirst(fields, o, i, j, k);
    }
  }

  /** Without a break, going back from a field of the oneof stays in the oneof until its first. */
  lemma {:induction false} BackToFirst(fields: seq<Field>, o: nat, i: nat, j: nat, k: nat)
    requires forall x | 0 <= x < |fields| :: !Broken(fields, x)
    requires i < j < k < |fields| && fields[i].oneof == Some(o) && fields[k].oneof == Some(o)
    ensures fields[j].oneof == Some(o)
    decreases k
  {
    MembersExact(fields[..k], o);
    assert fields[..k][i].oneof == Some(o);
    assert i in Members(fields[..k], o);
    assert !Broken(fields, k);
    if j < k - 1 {
      BackToFirst(fields, o, i, j, k - 1);
    }
  }

  /** What cross-linking leaves in the descriptors. */
  datatype Result = Result(
    arrays: seq<seq<nat>>, indexInOneof: seq<nat>, realCount: nat,
    gap: bool, empty: bool, strayOptional: bool, misplaced: bool)

  /** The three passes.  The arrays are allocated with exactly the size counted and every element
      written lies inside them; in the end each holds its oneof's fields in order, and the index
      of a field in its oneof points back at it. */
  method CrossLink(fields: seq<Field>, n: nat) returns (r: Result)
    requires InRange(fields, n)
    ensures |r.arrays| == n && |r.indexInOneof| == |fields|
    ensures forall o | 0 <= o < n :: r.arrays[o] == Members(fields, o)
    ensures forall i | 0 <= i < |fields| && fields[i].oneof.Some? ::
              var o := fields[i].oneof.value;
              r.indexInOneof[i] < |r.arrays[o]| && r.arrays[o][r.indexInOneof[i]] == i
    ensures r.gap <==> exists o | 0 <= o < n :: !Contiguous(fields, o)
    ensures r.empty <==> exists o | 0 <= o < n :: Members(fields, o) == []
    ensures r.strayOptional <==> exists i | 0 <= i < |fields| :: Stray(fields, i)
    // Without an error the real oneofs are exactly the first ones.
    ensures r.realCount <= n && (r.realCount < n ==> Synthetic(fields, r.realCount))
    ensures forall o | 0 <= o < r.realCount :: !Synthetic(fields, o)
    ensures !r.misplaced <==> forall o | 0 <= o < n :: o < r.realCount <==> !Synthetic(fields, o)
  {
    hide Members, Stray, Synthetic, Contiguous, Broken, CountOk;
    var counts, gap := CountPass(fields, n);
    BreaksAreGaps(fields, n);
    var arrays, empty := AllocatePass(fields, n, counts);
    var indexInOneof;
    arrays, indexInOneof := FillPass(fields, n, arrays);
    assert forall o | 0 <= o < n :: arrays[o] == Members(fields, o);
    var stray := OptionalPass(fields, n, arrays);
    var realCount, misplaced := RealOneofs(fields, n, arrays);
    r := Result(arrays, indexInOneof, realCount, gap, empty, stray, misplaced);
  }

  method OptionalPass(fields: seq<Field>, n: nat, arrays: seq<seq<nat>>) returns (stray: bool)
    requires InRange(fields, n)
    requires |arrays| == n && forall o | 0 <= o < n :: arrays[o] == Members(fields, o)
    ensures stray <==> exists i | 0 <= i < |fields| :: Stray(fields, i)
  {
    stray := false;
    var i: nat := 0;
    while i < |fields|
      invariant 0 <= i <= |fields|
      invariant stray <==> exists j | 0 <= j < i :: Stray(fields, j)
    {
      if fields[i].proto3Optional {
        StrayIff(fields, i);
        if fields[i].oneof.None? || !IsSynthetic(fields, arrays[fields[i].oneof.value]) {
          assert Stray(fields, i);
          stray := true;
        }
      }
      i := i + 1;
    }
  }

  method CountPass(fields: seq<Field>, n: nat) returns (counts: seq<nat>, gap: bool)
    requires InRange(fields, n)
    ensures |counts| == n && forall o | 0 <= o < n :: counts[o] == |Members(fields, o)|
    ensures gap <==> exists i | 0 <= i < |fields| :: Broken(fields, i)
  {
    hide Members, Broken;
    counts, gap := seq(n, o => 0), false;
    var i: nat := 0;
    forall o | 0 <= o < n ensures CountOk(fields, 0, o, counts[o]) {
      NoMembers(fields, o);
    }
    while i < |fields|
      invariant 0 <= i <= |fields| && |counts| == n
      invariant forall o | 0 <= o < n :: CountOk(fields, i, o, counts[o])
      invariant gap <==> exists j | 0 <= j < i :: Broken(fields, j)
    {
      forall o | 0 <= o < n
        ensures CountOk(fields, i + 1, o, counts[o] + if fields[i].oneof == Some(o) then 1 else 0)
      {
        assert CountOk(fields, i, o, counts[o]);
        MembersStep(fields, i, o);
      }
      if fields[i].oneof.Some? {
        var o := fields[i].oneof.value;
        assert CountOk(fields, i, o, counts[o]);
        BrokenIff(fields, i);
        if counts[o] > 0 && fields[i - 1].oneof != Some(o) {
          gap := true;
        }
        counts := counts[o := counts[o] + 1];
      } else {
        BrokenIff(fields, i);
      }
      i := i + 1;
    }
    assert fields[..i] == fields;
    assert forall o | 0 <= o < n :: CountOk(fields, i, o, counts[o]);
  }

  predicate CountOk(fields: seq<Field>, i: nat, o: nat, count: nat)
    requires i <= |fields|
  {
    count == |Members(fields[..i], o)|
  }

  lemma NoMembers(fields: seq<Field>, o: nat)
    ensures CountOk(fields, 0, o, 0)
  {
  }

  lemma BrokenIff(fields: seq<Field>, i: nat)
    requires i < |fields|
    ensures fields[i].oneof.Some? && |Members(fields[..i], fields[i].oneof.value)| > 0 ==> i > 0
    ensures Broken(fields, i) <==>
            && fields[i].oneof.Some?
            && |Members(fields[..i], fields[i].oneof.value)| > 0
            && fields[i - 1].oneof != fields[i].oneof
  {
  }

  /** Arrays of the sizes counted; their contents are arbitrary. */
  method AllocatePass(fields: seq<Field>, n: nat, counts: seq<nat>) returns (arrays: seq<seq<nat>>, empty: bool)
    requires |counts| == n && forall o | 0 <= o < n :: counts[o] == |Members(fields, o)|
    ensures |arrays| == n && forall o | 0 <= o < n :: |arrays[o]| == |Members(fields, o)|
    ensures empty <==> exists o | 0 <= o < n :: Members(fields, o) == []
  {
    hide Members;
    arrays, empty := [], false;
    var i: nat := 0;
    while i < n
      invariant 0 <= i <= n && |arrays| == i
      invariant forall o | 0 <= o < i :: |arrays[o]| == counts[o]
      invariant empty <==> exists o | 0 <= o < i :: Members(fields, o) == []
    {
      if counts[i] == 0 {
        assert Members(fields, i) == [];
        empty := true;
      }
      arrays := arrays + [seq(counts[i], k => 0)];
      i := i + 1;
    }
  }

  method FillPass(fields: seq<Field>, n: nat, room: seq<seq<nat>>) returns (arrays: seq<seq<nat>>, indexInOneof: seq<nat>)
    requires InRange(fields, n)
    requires |room| == n && forall o | 0 <= o < n :: |room[o]| == |Members(fields, o)|
    ensures |arrays| == n && |indexInOneof| == |fields|
    ensures forall o | 0 <= o < n :: arrays[o] == Members(fields, o)
    ensures forall i | 0 <= i < |fields| && fields[i].oneof.Some? ::
              var o := fields[i].oneof.value;
              indexInOneof[i] < |arrays[o]| && arrays[o][indexInOneof[i]] == i
  {
    hide Members, FilledTo, IndexOk;
    var fieldCount: seq<nat> := seq(n, o => 0);
    arrays, indexInOneof := room, seq(|fields|, i => 0);
    var i: nat := 0;
    forall o | 0 <= o < n ensures FilledTo(fields, 0, o, arrays[o], 0) {
      NothingFilled(fields, o, arrays[o]);
    }
    while i < |fields|
      invariant 0 <= i <= |fields|
      invariant |arrays| == n && |indexInOneof| == |fields| && |fieldCount| == n
      invariant forall o | 0 <= o < n :: FilledTo(fields, i, o, arrays[o], fieldCount[o])
      invariant forall j | 0 <= j < i && fields[j].oneof.Some? :: IndexOk(fields, i, j, indexInOneof[j])
    {
      forall j | 0 <= j < i && fields[j].oneof.Some? ensures IndexOk(fields, i + 1, j, indexInOneof[j]) {
        IndexStep(fields, i, j, indexInOneof[j]);
      }
      forall o | 0 <= o < n
        ensures fields[i].oneof != Some(o) ==> FilledTo(fields, i + 1, o, arrays[o], fieldCount[o])
        ensures fields[i].oneof == Some(o) ==> fieldCount[o] < |arrays[o]|
        ensures fields[i].oneof == Some(o) ==>
                  && FilledTo(fields, i + 1, o, arrays[o][fieldCount[o] := i], fieldCount[o] + 1)
                  && IndexOk(fields, i + 1, i, fieldCount[o])
      {
        FillStep(fields, i, o, arrays[o], fieldCount[o]);
      }
      if fields[i].oneof.Some? {
        var o := fields[i].oneof.value;
        indexInOneof := indexInOneof[i := fieldCount[o]];
        var own: seq<nat> := arrays[o][fieldCount[o] := i];
        arrays := arrays[o := own];
        fieldCount := fieldCount[o := fieldCount[o] + 1];
      }
      i := i + 1;
    }
    forall o | 0 <= o < n ensures arrays[o] == Members(fields, o) {
      AllFilled(fields, o, arrays[o], fieldCount[o]);
    }
    forall j | 0 <= j < |fields| && fields[j].oneof.Some?
      ensures indexInOneof[j] < |arrays[fields[j].oneof.value]| && arrays[fields[j].oneof.value][indexInOneof[j]] == j
    {
      AllIndexed(fields, j, indexInOneof[j]);
    }
  }

  /** The first `count` elements of the array of oneof `o` are its members among the first `i`
      fields. */
  predicate FilledTo(fields: seq<Field>, i: nat, o: nat, a: seq<nat>, count: nat)
    requires i <= |fields|
  {
    && |a| == |Members(fields, o)| && count <= |a|
    && a[..count] == Members(fields[..i], o)
  }

  predicate IndexOk(fields: seq<Field>, i: nat, j: nat, index: nat)
    requires j < i <= |fields| && fields[j].oneof.Some?
  {
    var ms := Members(fields[..i], fields[j].oneof.value);
    index < |ms| && ms[index] == j
  }

  lemma FillStep(fields: seq<Field>, i: nat, o: nat, a: seq<nat>, count: nat)
    requires i < |fields| && FilledTo(fields, i, o, a, count)
    ensures fields[i].oneof != Some(o) ==> FilledTo(fields, i + 1, o, a, count)
    ensures fields[i].oneof == Some(o) ==>
              count < |a| && FilledTo(fields, i + 1, o, a[count := i], count + 1) && IndexOk(fields, i + 1, i, count)
  {
    MembersStep(fields, i, o);
    MembersGrow(fields, i + 1, o);
    if fields[i].oneof == Some(o) {
      assert a[count := i][..count + 1] == a[..count] + [i];
    }
  }

  lemma NothingFilled(fields: seq<Field>, o: nat, a: seq<nat>)
    requires |a| == |Members(fields, o)|
    ensures FilledTo(fields, 0, o, a, 0)
  {
  }

  lemma AllFilled(fields: seq<Field>, o: nat, a: seq<nat>, count: nat)
    requires FilledTo(fields, |fields|, o, a, count)
    ensures a == Members(fields, o)
  {
    assert fields[..|fields|] == fields;
  }

  lemma IndexStep(fields: seq<Field>, i: nat, j: nat, index: nat)
    requires j < i < |fields| && fields[j].oneof.Some? && IndexOk(fields, i, j, index)
    ensures IndexOk(fields, i + 1, j, index)
  {
    MembersStep(fields, i, fields[j].oneof.value);
  }

  lemma AllIndexed(fields: seq<Field>, j: nat, index: nat)
    requires j < |fields| && fields[j].oneof.Some? && IndexOk(fields, |fields|, j, index)
    ensures index < |Members(fields, fields[j].oneof.value)| && Members(fields, fields[j].oneof.value)[index] == j
  {
    assert fields[..|fields|] == fields;
  }

  /** real_oneof_decl_count: up to the first synthetic oneof. */
  method RealOneofs(fields: seq<Field>, n: nat, arrays: seq<seq<nat>>) returns (realCount: nat, misplaced: bool)
    requires |arrays| == n && forall o | 0 <= o < n :: arrays[o] == Members(fields, o)
    ensures realCount <= n && (realCount < n ==> Synthetic(fields, realCount))
    ensures forall o | 0 <= o < realCount :: !Synthetic(fields, o)
    ensures !misplaced <==> forall o | 0 <= o < n :: o < realCount <==> !Synthetic(fields, o)
  {
    var firstSynthetic := -1;
    misplaced := false;
    var i: nat := 0;
    while i < n
      invariant 0 <= i <= n && -1 <= firstSynthetic < i
      invariant firstSynthetic == -1 ==> !misplaced && forall o | 0 <= o < i :: !Synthetic(fields, o)
      invariant firstSynthetic != -1 ==>
                  && Synthetic(fields, firstSynthetic)
                  && (forall o | 0 <= o < firstSynthetic :: !Synthetic(fields, o))
                  && (!misplaced <==> forall o | firstSynthetic <= o < i :: Synthetic(fields, o))
    {
      assert arrays[i] == Members(fields, i);
      SyntheticIff(fields, i);
      if IsSynthetic(fields, arrays[i]) {
        if firstSynthetic == -1 {
          firstSynthetic := i;
        }
      } else if firstSynthetic != -1 {
        misplaced := true;
      }
      i := i + 1;
    }
    realCount := if firstSynthetic == -1 then n else firstSynthetic;
  }
}
