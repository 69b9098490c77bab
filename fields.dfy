/** HTTP fields (`HttpField`) and the name-keyed collection that accumulates
    them (`HttpFieldCollection`). A name maps to one field, or to the ordered
    list of fields once the name has been added more than once. */
module Fields {
  import opened Results

  datatype Field = Field(name: string, value: string)

  /** What the collection stores under a name: one field, or a list of them. */
  datatype Entry = Single(field: Field) | Many(fields: seq<Field>)

  /** `HttpFieldNotFoundOnCollection`, carrying the missing key. */
  datatype FieldError = FieldNotFound(key: string)

  type Table = map<string, Entry>

  /** The fields an entry holds, in insertion order. */
  function Values(e: Entry): seq<Field> {
    match e
    case Single(f) => [f]
    case Many(fs) => fs
  }

  /** The fields stored under `key`, or none when the key is absent. */
  function ValuesOf(t: Table, key: string): seq<Field> {
    if key in t then Values(t[key]) else []
  }

  /** The fields of `fs` named `key`, in order. */
  function Named(fs: seq<Field>, key: string): (r: seq<Field>)
    ensures forall f :: f in r ==> f in fs && f.name == key
  {
    if fs == [] then []
    else (if fs[0].name == key then [fs[0]] else []) + Named(fs[1..], key)
  }

  /** An entry filed under `key`: every field it holds has that name, and a
      list holds at least two fields. */
  predicate EntryUnder(key: string, e: Entry) {
    match e
    case Single(f) => f.name == key
    case Many(fs) => |fs| >= 2 && forall f :: f in fs ==> f.name == key
  }

  /** The collection invariant. */
  predicate WellFormed(t: Table) {
    forall key :: key in t ==> EntryUnder(key, t[key])
  }

  /** The table after `add(f)`: the new field is appended to the fields stored
      under its name; no other name is touched and nothing is dropped. */
  function Added(t: Table, f: Field): (r: Table)
    ensures r.Keys == t.Keys + {f.name}
    ensures forall key :: ValuesOf(r, key) == ValuesOf(t, key) + (if key == f.name then [f] else [])
    ensures forall key :: key in t && key != f.name ==> r[key] == t[key]
    ensures WellFormed(t) ==> WellFormed(r)
  {
    if f.name in t then
      match t[f.name]
      case Single(g) => t[f.name := Many([g, f])]
      case Many(gs) => t[f.name := Many(gs + [f])]
    else
      t[f.name := Single(f)]
  }

  /** The shape `add` gives the entry under the added name: a new name holds a
      single field, the first duplicate promotes it to a two-field list, and
      later duplicates extend the list. */
  lemma AddedEntry(t: Table, f: Field)
    requires WellFormed(t)
    ensures f.name !in t ==> Added(t, f)[f.name] == Single(f)
    ensures f.name in t && t[f.name].Single? ==> Added(t, f)[f.name] == Many([t[f.name].field, f])
    ensures f.name in t && t[f.name].Many? ==> Added(t, f)[f.name] == Many(t[f.name].fields + [f])
    ensures Added(t, f)[f.name].Single? <==> f.name !in t
  {
  }

  /** The table after adding `fs` one by one, as repeated `add` calls do. */
  function AddAll(t: Table, fs: seq<Field>): Table
    decreases |fs|
  {
    if fs == [] then t else AddAll(Added(t, fs[0]), fs[1..])
  }

  /** Repeated `add` drops nothing and keeps order: the fields under a name
      afterwards are those before, followed by the added fields of that name. */
  lemma {:induction false} AddAllValues(t: Table, fs: seq<Field>, key: string)
    ensures ValuesOf(AddAll(t, fs), key) == ValuesOf(t, key) + Named(fs, key)
    decreases |fs|
  {
    if fs != [] {
      AddAllValues(Added(t, fs[0]), fs[1..], key);
    }
  }

  /** Adding two runs of fields is adding their concatenation. */
  lemma {:induction false} AddAllAppend(t: Table, a: seq<Field>, b: seq<Field>)
    ensures AddAll(t, a + b) == AddAll(AddAll(t, a), b)
    decreases |a|
  {
    if a == [] {
      assert a + b == b;
    } else {
      assert (a + b)[0] == a[0] && (a + b)[1..] == a[1..] + b;
      AddAllAppend(Added(t, a[0]), a[1..], b);
    }
  }

  /** Repeated `add` keeps the collection invariant. */
  lemma {:induction false} AddAllWellFormed(t: Table, fs: seq<Field>)
    requires WellFormed(t)
    ensures WellFormed(AddAll(t, fs))
    decreases |fs|
  {
    if fs != [] {
      AddAllWellFormed(Added(t, fs[0]), fs[1..]);
    }
  }

  /** The table the constructor builds: each field is stored alone under its
      name and a later field with the same name replaces an earlier one. */
  function LastWins(fs: seq<Field>): Table
  {
    if fs == [] then map[]
    else LastWins(fs[..|fs| - 1])[fs[|fs| - 1].name := Single(fs[|fs| - 1])]
  }

  /** Under last-wins the names stored are exactly the names of the fields. */
  lemma {:induction false} LastWinsKeys(fs: seq<Field>)
    ensures LastWins(fs).Keys == set f | f in fs :: f.name
    decreases |fs|
  {
    if fs != [] {
      var init := fs[..|fs| - 1];
      LastWinsKeys(init);
      assert fs == init + [fs[|fs| - 1]];
    }
  }

  /** Under last-wins each name stores a single field taken from the input. */
  lemma {:induction false} LastWinsFromInput(fs: seq<Field>, key: string)
    requires key in LastWins(fs)
    ensures LastWins(fs)[key].Single? && LastWins(fs)[key].field in fs
    decreases |fs|
  {
    var init := fs[..|fs| - 1];
    var last := fs[|fs| - 1];
    if key != last.name {
      LastWinsFromInput(init, key);
      assert fs == init + [last];
    }
  }

  /** Under last-wins the field stored under a name is the last field with it. */
  lemma {:induction false} LastWinsLast(fs: seq<Field>, j: nat)
    requires j < |fs| && forall j' :: j < j' < |fs| ==> fs[j'].name != fs[j].name
    ensures fs[j].name in LastWins(fs) && LastWins(fs)[fs[j].name] == Single(fs[j])
    decreases |fs|
  {
    var init := fs[..|fs| - 1];
    if j < |fs| - 1 {
      assert forall j' :: j < j' < |init| ==> init[j'] == fs[j'];
      LastWinsLast(init, j);
    }
  }

  /** Last-wins builds a well-formed collection. */
  lemma {:induction false} LastWinsWellFormed(fs: seq<Field>)
    ensures WellFormed(LastWins(fs))
    decreases |fs|
  {
    if fs != [] {
      LastWinsWellFormed(fs[..|fs| - 1]);
    }
  }

  /** The constructor is not a sequence of `add` calls: two fields with the
      same name leave only the second under last-wins, and both under `add`. */
  lemma LastWinsIsNotRepeatedAdd(f: Field, g: Field)
    requires f.name == g.name
    ensures LastWins([f, g]) == map[f.name := Single(g)]
    ensures AddAll(map[], [f, g]) == map[f.name := Many([f, g])]
    ensures LastWins([f, g]) != AddAll(map[], [f, g])
  {
    assert [f, g][1..] == [g];
    assert [f, g][..1] == [f] && [f][..0] == [];
    assert LastWins([f]) == map[f.name := Single(f)];
    var t := Added(map[], f);
    assert t == map[f.name := Single(f)];
    assert Added(t, g) == map[f.name := Many([f, g])];
    assert [g][1..] == [];
    assert AddAll(map[], [f, g]) == AddAll(t, [g]) == AddAll(Added(t, g), []);
  }

  class FieldCollection {
    var fields: Table

    predicate Valid()
      reads this
    {
      WellFormed(fields)
    }

    /** `__construct(array $httpFields)`: key each field by its name, last one wins. */
    constructor (init: seq<Field>)
      ensures Valid() && fields == LastWins(init)
    {
      var t: Table := map[];
      for i := 0 to |init|
        invariant t == LastWins(init[..i])
      {
        assert init[..i + 1][..i] == init[..i];
        t := t[init[i].name := Single(init[i])];
      }
      assert init[..|init|] == init;
      LastWinsWellFormed(init);
      fields := t;
    }

    /** `fromHttpFieldArray`. */
    static method FromFieldArray(init: seq<Field>) returns (c: FieldCollection)
      ensures fresh(c) && c.Valid() && c.fields == LastWins(init)
    {
      c := new FieldCollection(init);
    }

    /** `add`: a new name stores the field alone; on the first duplicate the stored
        field becomes a one-element list, and the new field is appended. */
    method Add(f: Field)
      requires Valid()
      modifies this
      ensures Valid() && fields == Added(old(fields), f)
    {
      if f.name in fields {
        var stored := fields[f.name];
        if stored.Single? {
          fields := fields[f.name := Many([stored.field])];
          assert [stored.field] + [f] == [stored.field, f];
        }
        fields := fields[f.name := Many(fields[f.name].fields + [f])];
        return;
      }
      fields := fields[f.name := Single(f)];
    }

    /** `delete`: fails on an absent key, otherwise removes exactly that key. */
    method Delete(key: string) returns (r: Outcome<FieldError>)
      requires Valid()
      modifies this
      ensures Valid()
      ensures r.Pass? <==> key in old(fields)
      ensures r.Pass? ==> fields == old(fields) - {key}
      ensures r.Fail? ==> r.error == FieldNotFound(key) && fields == old(fields)
    {
      r := CheckKeyExists(key);
      if r.Pass? {
        fields := fields - {key};
      }
    }

    /** `get`: the stored entry, or not-found on an absent key. */
    method Get(key: string) returns (r: Result<Entry, FieldError>)
      ensures key in fields ==> r == Ok(fields[key])
      ensures key !in fields ==> r == Err(FieldNotFound(key))
    {
      var check := CheckKeyExists(key);
      if check.Fail? {
        return Err(check.error);
      }
      r := Ok(fields[key]);
    }

    /** `checkKeyExists`: passes exactly when the key is present. */
    method CheckKeyExists(key: string) returns (r: Outcome<FieldError>)
      ensures r.Pass? <==> key in fields
      ensures r.Fail? ==> r.error == FieldNotFound(key)
    {
      if key !in fields {
        return Fail(FieldNotFound(key));
      }
      r := Pass;
    }
  }
}
