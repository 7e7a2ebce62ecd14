/** The lowercase and camelcase field indexes of FileDescriptorTables.  They are filled on first
    use from the fields-by-number table, in whatever order that table is iterated; only fields
    whose name was already taken when they were cross-linked leave a trace before. */
module FieldNames {

  import opened Wrappers

  datatype Style = Lowercase | Camelcase

  /** A FieldDescriptor; `parent` is what FindParentForFieldsByMap returns. */
  datatype Field = Field(id: nat, parent: nat, container: nat, number: int, lowercase: string, camelcase: string)
  {
    function Key(style: Style): (nat, string) {
      (parent, if style == Lowercase then lowercase else camelcase)
    }

    function Number(): (nat, int) {
      (container, number)
    }
  }

  /** The specification: the first of the fields, in the order they were cross-linked, that has
      this key. */
  function First(fields: seq<Field>, style: Style, key: (nat, string)): Option<Field> {
    if fields == [] then None
    else
      var f := First(fields[..|fields| - 1], style, key);
      if f.Some? then f
      else if fields[|fields| - 1].Key(style) == key then Some(fields[|fields| - 1])
      else None
  }

  /** First is what its name says. */
  lemma {:induction false} FirstIsFirst(fields: seq<Field>, style: Style, key: (nat, string))
    ensures var f := First(fields, style, key);
            && (f.None? <==> forall i | 0 <= i < |fields| :: fields[i].Key(style) != key)
            && (f.Some? ==> exists i | 0 <= i < |fields| ::
                  fields[i] == f.value && fields[i].Key(style) == key &&
                  forall j | 0 <= j < i :: fields[j].Key(style) != key)
  {
    if fields != [] {
      var n := |fields| - 1;
      var front := fields[..n];
      FirstIsFirst(front, style, key);
      var f := First(front, style, key);
      if f.Some? {
        var i :| 0 <= i < |front| && front[i] == f.value && front[i].Key(style) == key &&
                 forall j | 0 <= j < i :: front[j].Key(style) != key;
        assert fields[i] == f.value;
        forall j | 0 <= j < i ensures fields[j].Key(style) != key {
          assert front[j] == fields[j];
        }
      } else {
        forall j | 0 <= j < n ensures fields[j].Key(style) != key {
          assert front[j] == fields[j];
        }
      }
    }
  }

  /** The field at `i` is in this parent, and has this name in this style. */
  predicate Named(fields: seq<Field>, i: nat, style: Style, parent: nat, name: string)
    requires i < |fields|
  {
    && fields[i].parent == parent
    && match style
       case Lowercase => fields[i].lowercase == name
       case Camelcase => fields[i].camelcase == name
  }

  /** What a lookup answers, in terms of the fields alone: the first of this name, if there is one. */
  predicate IsFirstNamed(fields: seq<Field>, style: Style, parent: nat, name: string, r: Option<Field>) {
    && (r.None? <==> forall i | 0 <= i < |fields| :: !Named(fields, i, style, parent, name))
    && (r.Some? ==> exists i | 0 <= i < |fields| ::
          && fields[i] == r.value && Named(fields, i, style, parent, name)
          && forall j | 0 <= j < i :: !Named(fields, j, style, parent, name))
  }

  lemma FirstIsFirstNamed(fields: seq<Field>, style: Style, parent: nat, name: string)
    ensures IsFirstNamed(fields, style, parent, name, First(fields, style, (parent, name)))
  {
    FirstIsFirst(fields, style, (parent, name));
    forall i | 0 <= i < |fields|
      ensures Named(fields, i, style, parent, name) <==> fields[i].Key(style) == (parent, name)
    {
    }
    var f := First(fields, style, (parent, name));
    if f.Some? {
      var i :| 0 <= i < |fields| && fields[i] == f.value && fields[i].Key(style) == (parent, name) &&
               forall j | 0 <= j < i :: fields[j].Key(style) != (parent, name);
      assert Named(fields, i, style, parent, name);
    }
  }

  lemma FirstSnoc(fields: seq<Field>, f: Field, style: Style, key: (nat, string))
    ensures First(fields + [f], style, key) ==
            if First(fields, style, key).Some? then First(fields, style, key)
            else if f.Key(style) == key then Some(f) else None
  {
    assert (fields + [f])[..|fields|] == fields;
  }

  /** Two different fields have the key. */
  predicate Conflict(fields: seq<Field>, style: Style, key: (nat, string)) {
    exists i, j | 0 <= i < j < |fields| :: fields[i].Key(style) == key && fields[j].Key(style) == key
  }

  /** The table by number holds exactly the cross-linked fields. */
  predicate Complete(byNumber: map<(nat, int), Field>, fields: seq<Field>) {
    && (forall i | 0 <= i < |fields| :: fields[i].Number() in byNumber && byNumber[fields[i].Number()] == fields[i])
    && (forall k | k in byNumber :: byNumber[k] in fields && byNumber[k].Number() == k)
  }

  /** One of the two indexes: the map that stays, the temporary one that FinalizeTables drops,
      and the once-flag. */
  class NameIndex {
    const style: Style
    var index: map<(nat, string), Field>
    var tmp: map<(nat, string), Field>
    var filled: bool
    // The fields added so far, in cross-link order.
    ghost var fields: seq<Field>

    /** Before it is filled, the index holds the first field of every name that occurs twice. */
    ghost predicate Conflicts()
      reads this
    {
      && (forall k | k in index :: First(fields, style, k) == Some(index[k]))
      && (forall k | Conflict(fields, style, k) :: k in index)
    }

    ghost predicate Building()
      reads this
    {
      && !filled && Conflicts()
      && (forall k | k in tmp :: First(fields, style, k) == Some(tmp[k]))
      && (forall i | 0 <= i < |fields| :: fields[i].Key(style) in tmp)
    }

    ghost predicate Valid()
      reads this
    {
      if filled then forall k :: First(fields, style, k) == if k in index then Some(index[k]) else None
      else Conflicts()
    }

    constructor (style: Style)
      ensures this.style == style && Building() && fields == []
    {
      this.style := style;
      index, tmp, filled, fields := map[], map[], false, [];
    }

    /** AddFieldByStylizedNames. */
    method Add(f: Field)
      requires Building()
      modifies this
      ensures Building()
      ensures fields == old(fields) + [f]
    {
      var key := f.Key(style);
      forall k ensures First(fields + [f], style, k) ==
                       if First(fields, style, k).Some? then First(fields, style, k)
                       else if key == k then Some(f) else None
      {
        FirstSnoc(fields, f, style, k);
      }
      FirstIsFirst(fields, style, key);
      ghost var before := fields;
      fields := fields + [f];
      if key !in tmp {
        tmp := tmp[key := f];
        NoNewConflict(before, f, style);
      } else {
        if key !in index {
          index := index[key := tmp[key]];
        }
        OnlyConflict(before, f, style);
      }
    }

    /** FinalizeTables. */
    method Finalize()
      requires Building()
      modifies this`tmp
      ensures Valid() && !filled && tmp == map[]
    {
      tmp := map[];
    }

    /** The lazy initialization, in an arbitrary order of the table. */
    method Fill(byNumber: map<(nat, int), Field>)
      requires Valid() && !filled && Complete(byNumber, fields)
      modifies this`index, this`filled
      ensures Valid() && filled
    {
      var todo := byNumber.Keys;
      while todo != {}
        invariant todo <= byNumber.Keys
        invariant forall k | k in index :: First(fields, style, k) == Some(index[k])
        invariant forall k | Conflict(fields, style, k) :: k in index
        invariant forall n | n in byNumber && n !in todo :: byNumber[n].Key(style) in index
        decreases todo
      {
        var n :| n in todo;
        var f := byNumber[n];
        if f.Key(style) !in index {
          WithoutConflict(fields, f, style);
          index := index[f.Key(style) := f];
        }
        todo := todo - {n};
      }
      filled := true;
      forall k ensures First(fields, style, k) == if k in index then Some(index[k]) else None {
        FirstIsFirst(fields, style, k);
        if i :| 0 <= i < |fields| && fields[i].Key(style) == k {
          assert byNumber[fields[i].Number()].Key(style) in index;
        }
      }
    }

    /** FindFieldByLowercaseName and FindFieldByCamelcaseName of a file that was built without
        errors: exactly the first field of that name, whenever it is asked for. */
    method Find(parent: nat, name: string, byNumber: map<(nat, int), Field>) returns (r: Option<Field>)
      requires Valid() && Complete(byNumber, fields)
      modifies this`index, this`filled
      ensures Valid() && filled
      ensures r == First(fields, style, (parent, name))
      ensures IsFirstNamed(fields, style, parent, name, r)
    {
      if !filled {
        Fill(byNumber);
      }
      FirstIsFirstNamed(fields, style, parent, name);
      r := if (parent, name) in index then Some(index[(parent, name)]) else None;
    }
  }

  lemma NoNewConflict(fields: seq<Field>, f: Field, style: Style)
    requires forall i | 0 <= i < |fields| :: fields[i].Key(style) != f.Key(style)
    ensures forall k | Conflict(fields + [f], style, k) :: Conflict(fields, style, k)
  {
    forall k | Conflict(fields + [f], style, k) ensures Conflict(fields, style, k) {
      var i, j :| 0 <= i < j < |fields + [f]| && (fields + [f])[i].Key(style) == k && (fields + [f])[j].Key(style) == k;
      assert fields[i].Key(style) == k && fields[j].Key(style) == k;
    }
  }

  lemma OnlyConflict(fields: seq<Field>, f: Field, style: Style)
    ensures forall k | Conflict(fields + [f], style, k) && k != f.Key(style) :: Conflict(fields, style, k)
  {
    forall k | Conflict(fields + [f], style, k) && k != f.Key(style) ensures Conflict(fields, style, k) {
      var i, j :| 0 <= i < j < |fields + [f]| && (fields + [f])[i].Key(style) == k && (fields + [f])[j].Key(style) == k;
      assert fields[i].Key(style) == k && fields[j].Key(style) == k;
    }
  }

  /** A field whose name no other field has is the first of it. */
  lemma WithoutConflict(fields: seq<Field>, f: Field, style: Style)
    requires f in fields && !Conflict(fields, style, f.Key(style))
    ensures First(fields, style, f.Key(style)) == Some(f)
  {
    FirstIsFirst(fields, style, f.Key(style));
    var i :| 0 <= i < |fields| && fields[i] == f;
    var g := First(fields, style, f.Key(style));
    var j :| 0 <= j < |fields| && fields[j] == g.value && fields[j].Key(style) == f.Key(style);
    if i < j {
      assert Conflict(fields, style, f.Key(style));
    } else if j < i {
      assert Conflict(fields, style, f.Key(style));
    }
  }

  /** How the checks of a field between the two tables went: they passed, reported an error and
      went on, or reported one and returned. */
  datatype Checks = Passed | Reported | GaveUp

  /** The tables of one file: both indexes and the fields by number. */
  class FileDescriptorTables {
    const lowercase: NameIndex
    const camelcase: NameIndex
    var byNumber: map<(nat, int), Field>

    ghost predicate Building()
      reads this, lowercase, camelcase
    {
      && lowercase != camelcase && lowercase.style == Lowercase && camelcase.style == Camelcase
      && lowercase.Building() && camelcase.Building()
      && lowercase.fields == camelcase.fields
      && (forall k | k in byNumber :: byNumber[k] in lowercase.fields && byNumber[k].Number() == k)
    }

    constructor ()
      ensures Building() && lowercase.fields == [] && byNumber == map[]
      ensures fresh(lowercase) && fresh(camelcase)
    {
      lowercase := new NameIndex(Lowercase);
      camelcase := new NameIndex(Camelcase);
      byNumber := map[];
    }

    /** AddFieldByNumber. */
    method AddFieldByNumber(f: Field) returns (added: bool)
      modifies this`byNumber
      ensures added == (f.Number() !in old(byNumber))
      ensures byNumber == if added then old(byNumber)[f.Number() := f] else old(byNumber)
    {
      added := f.Number() !in byNumber;
      if added {
        byNumber := byNumber[f.Number() := f];
      }
    }

    /** CrossLinkField: the name indexes first, the number last, unless the checks in between give
        up.  Some of them report an error and go on, and then the field still gets its number. */
    method CrossLinkField(f: Field, checks: Checks) returns (ok: bool)
      requires Building()
      modifies this`byNumber, lowercase, camelcase
      ensures Building()
      ensures lowercase.fields == old(lowercase.fields) + [f]
      // The field is in the table exactly if the checks did not give up and its number was free, ...
      ensures byNumber == if checks != GaveUp && f.Number() !in old(byNumber) then old(byNumber)[f.Number() := f]
                          else old(byNumber)
      // ... and there is no error exactly if they passed as well.
      ensures ok <==> checks == Passed && f.Number() !in old(byNumber)
      ensures ok && old(Complete(byNumber, lowercase.fields)) ==> Complete(byNumber, lowercase.fields)
    {
      hide First, Conflict, Complete, NameIndex.Building;
      ghost var fields, numbers := lowercase.fields, byNumber;
      lowercase.Add(f);
      camelcase.Add(f);
      if checks == GaveUp {
        return false;
      }
      var added := AddFieldByNumber(f);
      ok := checks == Passed && added;
      if added && Complete(numbers, fields) {
        CompleteSnoc(numbers, fields, f);
      }
    }

    /** All fields of a file in cross-link order.  If there is no error, lookups in both indexes
        agree from then on with the first-wins rule. */
    method CrossLinkFields(fields: seq<Field>, checks: seq<Checks>) returns (ok: bool)
      requires Building() && lowercase.fields == [] && byNumber == map[] && |checks| == |fields|
      modifies this`byNumber, lowercase, camelcase
      ensures lowercase.Valid() && camelcase.Valid() && !lowercase.filled && !camelcase.filled
      ensures lowercase.fields == fields && camelcase.fields == fields
      ensures ok ==> Complete(byNumber, fields)
      ensures ok <==> Clean(fields, checks, |fields|)
    {
      hide Complete, Clean, First, Conflict, NameIndex.Building, NameIndex.Valid;
      ok := true;
      var i := 0;
      NothingLinked(fields, checks);
      while i < |fields|
        invariant 0 <= i <= |fields|
        invariant Building() && lowercase.fields == fields[..i]
        invariant ok ==> Complete(byNumber, fields[..i])
        invariant ok <==> Clean(fields, checks, i)
      {
        ghost var numbers := byNumber;
        var one := CrossLinkField(fields[i], checks[i]);
        assert fields[..i + 1] == fields[..i] + [fields[i]];
        CleanStep(numbers, fields, checks, i);
        ok := ok && one;
        i := i + 1;
      }
      assert fields[..i] == fields;
      lowercase.Finalize();
      camelcase.Finalize();
    }
  }

  lemma CompleteSnoc(byNumber: map<(nat, int), Field>, fields: seq<Field>, f: Field)
    requires Complete(byNumber, fields) && f.Number() !in byNumber
    ensures Complete(byNumber[f.Number() := f], fields + [f])
  {
    var after := byNumber[f.Number() := f];
    forall i | 0 <= i < |fields + [f]|
      ensures (fields + [f])[i].Number() in after && after[(fields + [f])[i].Number()] == (fields + [f])[i]
    {
      if i < |fields| {
        assert fields[i].Number() in byNumber;
      }
    }
  }

  /** The first `n` fields passed their checks and none took a number that was taken. */
  predicate Clean(fields: seq<Field>, checks: seq<Checks>, n: nat)
    requires n <= |fields| == |checks|
  {
    && (forall i | 0 <= i < n :: checks[i] == Passed)
    && (forall i, j | 0 <= i < j < n :: fields[i].container != fields[j].container || fields[i].number != fields[j].number)
  }

  lemma NothingLinked(fields: seq<Field>, checks: seq<Checks>)
    requires |checks| == |fields|
    ensures Complete(map[], fields[..0]) && Clean(fields, checks, 0)
  {
  }

  lemma CleanStep(byNumber: map<(nat, int), Field>, fields: seq<Field>, checks: seq<Checks>, i: nat)
    requires i < |fields| == |checks| && (Clean(fields, checks, i) ==> Complete(byNumber, fields[..i]))
    ensures Clean(fields, checks, i + 1) <==>
            Clean(fields, checks, i) && checks[i] == Passed && fields[i].Number() !in byNumber
  {
    if !Clean(fields, checks, i) {
    } else if fields[i].Number() in byNumber {
      TakenNumber(byNumber, fields, i);
    } else {
      FreeNumber(byNumber, fields, i);
    }
  }

  lemma TakenNumber(byNumber: map<(nat, int), Field>, fields: seq<Field>, i: nat)
    requires i < |fields| && Complete(byNumber, fields[..i]) && fields[i].Number() in byNumber
    ensures exists m | 0 <= m < i :: fields[m].Number() == fields[i].Number()
  {
    var g := byNumber[fields[i].Number()];
    var m :| 0 <= m < i && fields[..i][m] == g;
  }

  lemma FreeNumber(byNumber: map<(nat, int), Field>, fields: seq<Field>, i: nat)
    requires i < |fields| && Complete(byNumber, fields[..i]) && fields[i].Number() !in byNumber
    ensures forall m | 0 <= m < i :: fields[m].Number() != fields[i].Number()
  {
    forall m | 0 <= m < i ensures fields[m].Number() != fields[i].Number() {
      assert fields[..i][m].Number() in byNumber;
    }
  }
}
