/** The abstract state of one entity and, as pure functions of that state
    and the store's, what each operation of the engine does to both: the
    load modes, the reload, insert, update, delete, save and set. */
module Lifecycle {
  import opened Wrappers
  import opened PhpValue
  import opened PhpArray
  import opened Errors
  import opened Store
  import opened Binding
  import opened ChangeTracker
  import opened Statements

  /** The entity's hooks, as they run, so that their number can be stated. */
  datatype Hook = Initialise | PreInsert | PostInsert

  datatype EntityState = EntityState(
    attrs: Fields,      // the public properties, in order
    isNew: bool,        // not yet in the store
    modified: Fields,   // the change tracker
    hooks: seq<Hook>)   // the hooks run so far

  /** The outcome of an operation, with the entity's and the store's state
      after it (on failure: at the point where the exception was thrown). */
  datatype Step = Step(outcome: Outcome<Error>, entity: EntityState, store: StoreState)

  /** The constructor's load method with its data. `Unknown` stands for a
      method number that matches none of the four cases. */
  datatype LoadMode = ByPK(key: Value) | ByArray(data: Fields) | New(data: Fields) | Empty | Unknown

  /** `get($f)`: the property's value; an undefined one reads as null. */
  function Field(attrs: Fields, f: string): (v: Value)
    ensures f !in Keys(attrs) ==> v == VNull
    ensures f in Keys(attrs) ==> Lookup(attrs, f) == Some(v)
  {
    match Lookup(attrs, f) case Some(v) => v case None => VNull
  }

  /** `id()`: the value of the key column's property. */
  function Id(b: TableBinding, attrs: Fields): Value
  {
    Field(attrs, b.pk)
  }

  /** One null entry per name. */
  function Nulls(cs: seq<string>): (r: seq<(string, Value)>)
    ensures |r| == |cs| && forall i :: 0 <= i < |cs| ==> r[i] == (cs[i], VNull)
  {
    seq(|cs|, i requires 0 <= i < |cs| => (cs[i], VNull))
  }

  lemma {:induction false} NullsLast(cs: seq<string>, c: string)
    requires c in cs
    ensures LookupLast(Nulls(cs), c) == Some(VNull)
  {
    var r := Nulls(cs);
    if r[|r| - 1].0 != c {
      var front := cs[..|cs| - 1];
      assert r[..|r| - 1] == Nulls(front);
      assert c in front by {
        assert cs == front + [cs[|cs| - 1]];
      }
      NullsLast(front, c);
    }
  }

  /** Every name listed reads as null once each has been assigned null in turn. */
  lemma AllNull(a: Fields, cs: seq<string>)
    ensures forall c :: c in cs ==> Lookup(PutAll(a, Nulls(cs)), c) == Some(VNull)
  {
    PutAllLookup(a, Nulls(cs));
    forall c | c in cs ensures Lookup(PutAll(a, Nulls(cs)), c) == Some(VNull) {
      NullsLast(cs, c);
    }
  }

  /** A freshly constructed object: the declared properties, all null. */
  function Blank(b: TableBinding): (e: EntityState)
    ensures !e.isNew && e.modified == [] && e.hooks == []
  {
    EntityState(PutAll([], Nulls(b.declared)), false, [], [])
  }

  /** `hydrateFromDatabase`: reads the row with the entity's key, copies
      every column into the properties and runs the output filters. */
  function Reload(b: TableBinding, e: EntityState, ss: StoreState): (r: Step)
    ensures r.entity.isNew == e.isNew && r.entity.modified == e.modified && r.entity.hooks == e.hooks
    ensures SameShape(ss, r.store) && r.store.rows == ss.rows && r.store.nextKey == ss.nextKey
    ensures |ss.log| <= |r.store.log| && r.store.log[..|ss.log|] == ss.log
    ensures r.outcome.Fail? ==> r.entity == e
    ensures r.outcome.Pass? <==> ss.connected && b.pk in ss.columns && Id(b, e.attrs) != VNull && Id(b, e.attrs) in ss.rows
  {
    if !ss.connected then Step(Fail(ConnectionNotConfigured), e, ss)
    else
      var id := Id(b, e.attrs);
      var out := StoreSelect(ss, SelectByPkStatement(TableName(b), b.pk, id), b.pk, id);
      match out.0
      case Err(err) => Step(Fail(err), e, out.1)
      case Ok(None) => Step(Fail(RecordNotFound), e, out.1)
      case Ok(Some(row)) => Step(Pass, e.(attrs := Chain(b.outputFilters, PutAll(e.attrs, row))), out.1)
  }

  /** `loadByArray`: copies every entry into the properties, then runs the output filters. */
  function LoadArray(b: TableBinding, e: EntityState, data: Fields): EntityState
  {
    e.(attrs := Chain(b.outputFilters, PutAll(e.attrs, data)))
  }

  /** `hydrateEmpty`: every column of the table set to null, and the entity marked new. */
  function HydrateEmpty(b: TableBinding, e: EntityState, ss: StoreState): (r: Step)
    ensures r.store == ss && r.entity.modified == e.modified && r.entity.hooks == e.hooks
  {
    if !ss.connected then Step(Fail(ConnectionNotConfigured), e, ss)
    else if ss.columns == [] then Step(Fail(SchemaLookupError), e, ss)
    else Step(Pass, e.(attrs := PutAll(e.attrs, Nulls(ss.columns)), isNew := true), ss)
  }

  /** The fields an INSERT of `e` binds: taken from the properties as they
      were before `preInsert` ran. */
  function InsertBound(b: TableBinding, e: EntityState, ss: StoreState): Fields
  {
    BoundFields(b.inputFilters, e.attrs, ss.columns, b.pk, b.ignoreKeyOnInsert)
  }

  function UpdateBound(b: TableBinding, e: EntityState, ss: StoreState): Fields
  {
    BoundFields(b.inputFilters, e.attrs, ss.columns, b.pk, b.ignoreKeyOnUpdate)
  }

  /** The part of `insert` after the store accepted the row with key `key`:
      assign the key if it is truthy, mark the entity stored, reload it, run `postInsert`. */
  function AfterInsert(b: TableBinding, e: EntityState, key: Value, ss: StoreState): (r: Step)
    ensures !r.entity.isNew && r.entity.modified == e.modified
    ensures r.store.rows == ss.rows && SameShape(ss, r.store)
    ensures |ss.log| <= |r.store.log| && r.store.log[..|ss.log|] == ss.log
    ensures r.entity.hooks == if r.outcome.Pass? then e.hooks + [PostInsert] else e.hooks
  {
    var e2 := e.(attrs := if Truthy(key) then Put(e.attrs, b.pk, key) else e.attrs, isNew := false);
    var h := Reload(b, e2, ss);
    if h.outcome.Fail? then h
    else Step(Pass, h.entity.(attrs := b.postInsert(h.entity.attrs), hooks := h.entity.hooks + [PostInsert]), h.store)
  }

  /** `insert`. */
  function InsertStep(b: TableBinding, e: EntityState, ss: StoreState): (r: Step)
    ensures r.entity.modified == e.modified
    ensures r.entity.hooks == e.hooks || r.entity.hooks == e.hooks + [PreInsert] || r.entity.hooks == e.hooks + [PreInsert] + [PostInsert]
  {
    if !ss.connected then Step(Fail(ConnectionNotConfigured), e, ss)
    else
      var e1 := e.(attrs := b.preInsert(e.attrs), hooks := e.hooks + [PreInsert]);
      if ss.columns == [] then Step(Fail(SchemaLookupError), e1, ss)
      else
        var bound := InsertBound(b, e, ss);
        var out := StoreInsert(ss, InsertStatement(TableName(b), bound, b.pk), bound, b.pk);
        match out.0
        case Err(err) => Step(Fail(err), e1, out.1)
        case Ok(key) => AfterInsert(b, e1, key, out.1)
  }

  /** `update`. */
  function UpdateStep(b: TableBinding, e: EntityState, ss: StoreState): (r: Step)
    ensures r.entity.attrs == e.attrs && r.entity.isNew == e.isNew && r.entity.hooks == e.hooks
    ensures r.outcome.Pass? ==> r.entity.modified == []
    ensures r.outcome.Fail? ==> r.entity == e
  {
    if e.isNew then Step(Fail(InvalidStateError), e, ss)
    else if !ss.connected then Step(Fail(ConnectionNotConfigured), e, ss)
    else if ss.columns == [] then Step(Fail(SchemaLookupError), e, ss)
    else
      var id := Id(b, e.attrs);
      var bound := UpdateBound(b, e, ss);
      var out := StoreUpdate(ss, UpdateStatement(TableName(b), bound, b.pk, id), bound, b.pk, id);
      if out.0.Fail? then Step(out.0, e, out.1) else Step(Pass, e.(modified := []), out.1)
  }

  /** `delete`. The entity itself is left as it was. */
  function DeleteStep(b: TableBinding, e: EntityState, ss: StoreState): (r: Step)
    ensures r.entity == e
  {
    if e.isNew then Step(Fail(InvalidStateError), e, ss)
    else if !ss.connected then Step(Fail(ConnectionNotConfigured), e, ss)
    else
      var id := Id(b, e.attrs);
      var out := StoreDelete(ss, DeleteStatement(TableName(b), b.pk, id), b.pk, id);
      Step(out.0, e, out.1)
  }

  /** `save`: insert a new entity, update a stored one. */
  function SaveStep(b: TableBinding, e: EntityState, ss: StoreState): Step
  {
    if e.isNew then InsertStep(b, e, ss) else UpdateStep(b, e, ss)
  }

  /** `set($f, $v)`. */
  function SetStep(e: EntityState, f: string, v: Value): EntityState
  {
    var s := SetField(e.attrs, e.modified, f, v);
    e.(attrs := s.0, modified := s.1)
  }

  /** The `switch` of the constructor: each load method on a blank object. */
  function Load(b: TableBinding, load: LoadMode, ss: StoreState): (r: Step)
    ensures r.entity.hooks == [] || r.entity.hooks == [PreInsert] || r.entity.hooks == [PreInsert, PostInsert]
  {
    var blank := Blank(b);
    match load
    case ByPK(key) => Reload(b, blank.(attrs := Put(blank.attrs, b.pk, key)), ss)
    case ByArray(data) => Step(Pass, LoadArray(b, blank, data), ss)
    case New(data) =>
      var r := InsertStep(b, LoadArray(b, blank, data), ss);
      assert [] + [PreInsert] == [PreInsert] && [] + [PreInsert] + [PostInsert] == [PreInsert, PostInsert];
      r
    case Empty => HydrateEmpty(b, blank, ss)
    case Unknown => Step(Pass, blank, ss)
  }

  /** The constructor: load as the method says, then run `initialise`. An
      exception on the way leaves no object and skips `initialise`. */
  function Construct(b: TableBinding, load: LoadMode, ss: StoreState): Step
  {
    Initialised(b, Load(b, load, ss))
  }

  /** After a load that did not throw, `initialise` runs on the properties. */
  function Initialised(b: TableBinding, loaded: Step): Step
  {
    if loaded.outcome.Fail? then loaded
    else
      var e := loaded.entity;
      Step(Pass, e.(attrs := b.initialise(e.attrs), hooks := e.hooks + [Initialise]), loaded.store)
  }

  // ---------------------------------------------------------------------
  // Properties

  /** A load by key that finds no row throws the not-found exception (code 2)
      and leaves the rows alone. */
  lemma ReloadMissingRow(b: TableBinding, e: EntityState, ss: StoreState)
    requires ss.connected && b.pk in ss.columns
    requires Id(b, e.attrs) == VNull || Id(b, e.attrs) !in ss.rows
    ensures Reload(b, e, ss).outcome == Fail(RecordNotFound)
    ensures Code(Reload(b, e, ss).outcome.error) == 2
  {
  }

  /** Without output filters, a reload leaves every column of the stored row in the properties. */
  lemma ReloadCopiesRow(b: TableBinding, e: EntityState, ss: StoreState)
    requires Reload(b, e, ss).outcome.Pass? && b.outputFilters == []
    ensures var row := ss.rows[Id(b, e.attrs)];
            forall c :: c in Keys(row) ==> Lookup(Reload(b, e, ss).entity.attrs, c) == Lookup(row, c)
    ensures forall c :: c !in Keys(ss.rows[Id(b, e.attrs)]) ==> Lookup(Reload(b, e, ss).entity.attrs, c) == Lookup(e.attrs, c)
  {
    var row := ss.rows[Id(b, e.attrs)];
    PutAllLookup(e.attrs, row);
    PutAllDistinct(e.attrs, row);
  }

  /** `update` of a new entity throws before the connection or the store is
      touched, and changes nothing. */
  lemma UpdateNewRejected(b: TableBinding, e: EntityState, ss: StoreState)
    requires e.isNew
    ensures UpdateStep(b, e, ss) == Step(Fail(InvalidStateError), e, ss)
  {
  }

  /** `delete` of a new entity throws before the connection or the store is
      touched, and changes nothing. */
  lemma DeleteNewRejected(b: TableBinding, e: EntityState, ss: StoreState)
    requires e.isNew
    ensures DeleteStep(b, e, ss) == Step(Fail(InvalidStateError), e, ss)
  {
  }

  /** A new entity is saved by insert. */
  lemma SaveNewInserts(b: TableBinding, e: EntityState, ss: StoreState)
    requires e.isNew
    ensures SaveStep(b, e, ss) == InsertStep(b, e, ss)
  {
  }

  /** A stored entity is saved by update, and a successful update empties the
      change tracker (so `isModified()` is false) and changes no property. */
  lemma SaveStoredUpdates(b: TableBinding, e: EntityState, ss: StoreState)
    requires !e.isNew
    ensures SaveStep(b, e, ss) == UpdateStep(b, e, ss)
    ensures UpdateStep(b, e, ss).outcome.Pass? ==>
              IsModified(UpdateStep(b, e, ss).entity.modified).None? && UpdateStep(b, e, ss).entity.attrs == e.attrs
  {
  }

  /** The UPDATE sent: the filtered properties narrowed to the columns (without
      the key when the type says so), one `?` per value and the id bound last. */
  lemma UpdateSends(b: TableBinding, e: EntityState, ss: StoreState)
    requires !e.isNew && ss.connected && ss.columns != []
    requires PlainName(TableName(b)) && PlainName(b.pk) && forall c :: c in ss.columns ==> PlainName(c)
    ensures var bound := UpdateBound(b, e, ss);
            var st := UpdateStatement(TableName(b), bound, b.pk, Id(b, e.attrs));
            UpdateStep(b, e, ss).store.log == ss.log + [st]
            && Placeheld(st) && st.params[|st.params| - 1] == Id(b, e.attrs)
            && st.params[..|bound|] == Values(bound)
    ensures forall k :: Lookup(UpdateBound(b, e, ss), k)
                        == if k in ss.columns && !(b.ignoreKeyOnUpdate && k == b.pk) then Lookup(Chain(b.inputFilters, e.attrs), k) else None
  {
    var bound := UpdateBound(b, e, ss);
    UpdatePlaceholders(TableName(b), bound, b.pk, Id(b, e.attrs));
    assert (Values(bound) + [Id(b, e.attrs)])[..|bound|] == Values(bound);
  }

  /** The INSERT sent: the properties as they were before `preInsert` ran,
      input-filtered and narrowed to the columns (without the key when the
      type says so), with one `?` per value. */
  lemma InsertSends(b: TableBinding, e: EntityState, ss: StoreState)
    requires ss.connected && ss.columns != []
    requires PlainName(TableName(b)) && PlainName(b.pk) && forall c :: c in ss.columns ==> PlainName(c)
    ensures var bound := InsertBound(b, e, ss);
            var st := InsertStatement(TableName(b), bound, b.pk);
            |InsertStep(b, e, ss).store.log| > |ss.log|
            && InsertStep(b, e, ss).store.log[..|ss.log| + 1] == ss.log + [st]
            && Placeheld(st) && st.params == Values(bound)
    ensures forall k :: Lookup(InsertBound(b, e, ss), k)
                        == if k in ss.columns && !(b.ignoreKeyOnInsert && k == b.pk) then Lookup(Chain(b.inputFilters, e.attrs), k) else None
  {
    var bound := InsertBound(b, e, ss);
    var st := InsertStatement(TableName(b), bound, b.pk);
    InsertPlaceholders(TableName(b), bound, b.pk);
    var out := StoreInsert(ss, st, bound, b.pk);
    var log := InsertStep(b, e, ss).store.log;
    assert |out.1.log| <= |log| && log[..|out.1.log|] == out.1.log;
    assert log[..|ss.log| + 1] == log[..|out.1.log|];
  }

  /** After a successful insert the row is in the store under a key it did not
      hold before, the entity is no longer new, its change tracker is as it
      was, `preInsert` and `postInsert` ran once each, and the properties are
      the reread row: under the returned key if that is truthy, under the
      entity's own key value otherwise. */
  lemma InsertStores(b: TableBinding, e: EntityState, ss: StoreState)
    requires InsertStep(b, e, ss).outcome.Pass?
    ensures var bound := InsertBound(b, e, ss);
            var out := StoreInsert(ss, InsertStatement(TableName(b), bound, b.pk), bound, b.pk);
            var r := InsertStep(b, e, ss);
            var staged := b.preInsert(e.attrs);
            var a := if Truthy(out.0.value) then Put(staged, b.pk, out.0.value) else staged;
            && out.0.Ok? && out.0.value !in ss.rows
            && r.store.rows == ss.rows[out.0.value := NewRow(ss.columns, bound, b.pk, out.0.value)]
            && !r.entity.isNew && r.entity.modified == e.modified
            && r.entity.hooks == e.hooks + [PreInsert] + [PostInsert]
            && Id(b, a) in r.store.rows
            && r.entity.attrs == b.postInsert(Chain(b.outputFilters, PutAll(a, r.store.rows[Id(b, a)])))
  {
    var bound := InsertBound(b, e, ss);
    var out := StoreInsert(ss, InsertStatement(TableName(b), bound, b.pk), bound, b.pk);
  }

  /** A falsy returned key (such as 0) is not assigned, so with no key of its
      own the entity's reload finds nothing: the insert throws code 2 although
      the row is stored. */
  lemma InsertFalsyKey(b: TableBinding, e: EntityState, ss: StoreState)
    requires ss.connected && ss.columns != [] && b.pk in ss.columns
    requires var bound := InsertBound(b, e, ss);
             var out := StoreInsert(ss, InsertStatement(TableName(b), bound, b.pk), bound, b.pk);
             out.0.Ok? && !Truthy(out.0.value)
    requires Id(b, b.preInsert(e.attrs)) == VNull
    ensures InsertStep(b, e, ss).outcome == Fail(RecordNotFound)
    ensures var bound := InsertBound(b, e, ss);
            var out := StoreInsert(ss, InsertStatement(TableName(b), bound, b.pk), bound, b.pk);
            out.0.value in InsertStep(b, e, ss).store.rows && !InsertStep(b, e, ss).entity.isNew
  {
  }

  /** `LOAD_EMPTY`: every column of the table is null before `initialise`
      runs, the entity is new, and the store is untouched. */
  lemma ConstructEmpty(b: TableBinding, ss: StoreState)
    requires ss.connected && ss.columns != []
    ensures var r := Construct(b, Empty, ss);
            var a := PutAll(Blank(b).attrs, Nulls(ss.columns));
            && r.outcome.Pass? && r.store == ss && r.entity.isNew
            && r.entity.attrs == b.initialise(a)
            && forall c :: c in ss.columns ==> Lookup(a, c) == Some(VNull)
  {
    AllNull(Blank(b).attrs, ss.columns);
  }

  /** `LOAD_BY_PK` with a key the store does not hold throws code 2. */
  lemma ConstructByMissingKey(b: TableBinding, key: Value, ss: StoreState)
    requires ss.connected && b.pk in ss.columns && (key == VNull || key !in ss.rows)
    ensures Construct(b, ByPK(key), ss).outcome == Fail(RecordNotFound)
    ensures Code(Construct(b, ByPK(key), ss).outcome.error) == 2
    ensures Construct(b, ByPK(key), ss).store.rows == ss.rows
  {
    var blank := Blank(b);
    assert Id(b, Put(blank.attrs, b.pk, key)) == key;
  }

  /** `LOAD_BY_PK` with a stored key reads that row. */
  lemma ConstructByKey(b: TableBinding, key: Value, ss: StoreState)
    requires ss.connected && b.pk in ss.columns && key != VNull && key in ss.rows
    ensures var r := Construct(b, ByPK(key), ss);
            var a := Put(Blank(b).attrs, b.pk, key);
            r.outcome.Pass? && !r.entity.isNew && r.store.rows == ss.rows
            && r.entity.attrs == b.initialise(Chain(b.outputFilters, PutAll(a, ss.rows[key])))
  {
    var blank := Blank(b);
    assert Id(b, Put(blank.attrs, b.pk, key)) == key;
  }

  /** A successful `delete` removes the entity's row and no other, so loading
      the entity's key afterwards throws the not-found exception. */
  lemma DeleteThenLoadMissing(b: TableBinding, e: EntityState, ss: StoreState)
    requires DeleteStep(b, e, ss).outcome.Pass?
    ensures var id := Id(b, e.attrs);
            DeleteStep(b, e, ss).store.rows == if id == VNull then ss.rows else ss.rows - {id}
    ensures Construct(b, ByPK(Id(b, e.attrs)), DeleteStep(b, e, ss).store).outcome == Fail(RecordNotFound)
  {
    ConstructByMissingKey(b, Id(b, e.attrs), DeleteStep(b, e, ss).store);
  }

  /** What a successful `update` does to the rows: with no row under the
      entity's key, nothing; otherwise the row takes every bound value, keeps
      every other column, and moves to the bound key when the key column was
      set. No other row changes. */
  lemma UpdateStores(b: TableBinding, e: EntityState, ss: StoreState)
    requires UpdateStep(b, e, ss).outcome.Pass?
    ensures var id := Id(b, e.attrs);
            id == VNull || id !in ss.rows ==> UpdateStep(b, e, ss).store.rows == ss.rows
    ensures var id := Id(b, e.attrs);
            var bound := UpdateBound(b, e, ss);
            id != VNull && id in ss.rows ==>
              UpdateStep(b, e, ss).store.rows == (ss.rows - {id})[UpdatedKey(bound, b.pk, id) := PutAll(ss.rows[id], bound)]
    ensures var id := Id(b, e.attrs);
            var staged := Chain(b.inputFilters, e.attrs);
            id != VNull && id in ss.rows ==>
              forall k :: Lookup(PutAll(ss.rows[id], UpdateBound(b, e, ss)), k)
                          == if k in ss.columns && !(b.ignoreKeyOnUpdate && k == b.pk) && Lookup(staged, k).Some?
                             then Lookup(staged, k) else Lookup(ss.rows[id], k)
  {
    var id := Id(b, e.attrs);
    var bound := UpdateBound(b, e, ss);
    var out := StoreUpdate(ss, UpdateStatement(TableName(b), bound, b.pk, id), bound, b.pk, id);
    assert UpdateStep(b, e, ss).store == out.1;
    if id != VNull && id in ss.rows {
      BoundOverRow(ss.rows[id], b.inputFilters, e.attrs, ss.columns, b.pk, b.ignoreKeyOnUpdate);
    }
  }

  /** Assigning the bound fields over a row: each bound column takes its
      filtered value, every other column keeps its own. */
  lemma BoundOverRow(row: Fields, filters: seq<Filter>, snapshot: Fields, columns: seq<string>, pk: string, ignoreKey: bool)
    ensures var staged := Chain(filters, snapshot);
            forall k :: Lookup(PutAll(row, BoundFields(filters, snapshot, columns, pk, ignoreKey)), k)
                        == if k in columns && !(ignoreKey && k == pk) && Lookup(staged, k).Some?
                           then Lookup(staged, k) else Lookup(row, k)
  {
    var bound := BoundFields(filters, snapshot, columns, pk, ignoreKey);
    PutAllLookup(row, bound);
    PutAllDistinct(row, bound);
  }

  /** Without input filters, a value `set` on a stored entity is what its row
      holds after a successful `save`, provided the column is bound. */
  lemma SetThenSavePersists(b: TableBinding, e: EntityState, ss: StoreState, f: string, v: Value)
    requires !e.isNew && b.inputFilters == []
    requires f in ss.columns && !(b.ignoreKeyOnUpdate && f == b.pk)
    requires var e2 := SetStep(e, f, v);
             SaveStep(b, e2, ss).outcome.Pass? && Id(b, e2.attrs) != VNull && Id(b, e2.attrs) in ss.rows
    ensures var e2 := SetStep(e, f, v);
            var id := Id(b, e2.attrs);
            var key := UpdatedKey(UpdateBound(b, e2, ss), b.pk, id);
            key in SaveStep(b, e2, ss).store.rows && Lookup(SaveStep(b, e2, ss).store.rows[key], f) == Some(v)
  {
    var e2 := SetStep(e, f, v);
    SetAssigns(e.attrs, e.modified, f, v);
    UpdateStores(b, e2, ss);
  }

  /** The object `hydrate($row)` makes of a row. */
  function Hydrated(b: TableBinding, row: Fields): EntityState
  {
    var a := PutAll(Blank(b).attrs, row);
    EntityState(b.initialise(Chain(b.outputFilters, a)), false, [], [Initialise])
  }

  /** `LOAD_BY_ARRAY` never touches the store: the object is the row over the
      blank properties, filtered and initialised. */
  lemma ConstructByArray(b: TableBinding, data: Fields, ss: StoreState)
    ensures Construct(b, ByArray(data), ss) == Step(Pass, Hydrated(b, data), ss)
  {
    var e := LoadArray(b, Blank(b), data);
    assert Load(b, ByArray(data), ss) == Step(Pass, e, ss);
    assert e.hooks + [Initialise] == [Initialise];
  }

  /** `initialise` runs exactly once, last, after every load mode that
      succeeds, and not at all when the load throws; before it, at most the
      insert hooks of `LOAD_NEW` ran, in order. */
  lemma InitialiseOnce(b: TableBinding, load: LoadMode, ss: StoreState)
    ensures var r := Construct(b, load, ss);
            r.outcome.Pass? ==> r.entity.hooks == [Initialise] || r.entity.hooks == [PreInsert, Initialise]
                                || r.entity.hooks == [PreInsert, PostInsert, Initialise]
    ensures var r := Construct(b, load, ss);
            r.outcome.Fail? ==> r.entity.hooks == [] || r.entity.hooks == [PreInsert] || r.entity.hooks == [PreInsert, PostInsert]
  {
    InitialisedHooks(b, Load(b, load, ss));
  }

  lemma InitialisedHooks(b: TableBinding, loaded: Step)
    requires var hs := loaded.entity.hooks; hs == [] || hs == [PreInsert] || hs == [PreInsert, PostInsert]
    ensures var r := Initialised(b, loaded);
            r.outcome.Pass? ==> r.entity.hooks == [Initialise] || r.entity.hooks == [PreInsert, Initialise]
                                || r.entity.hooks == [PreInsert, PostInsert, Initialise]
    ensures var r := Initialised(b, loaded);
            r.outcome.Fail? ==> r.entity.hooks == [] || r.entity.hooks == [PreInsert] || r.entity.hooks == [PreInsert, PostInsert]
  {
    var hs := loaded.entity.hooks;
    if hs == [] {
      assert hs + [Initialise] == [Initialise];
    } else if hs == [PreInsert] {
      assert hs + [Initialise] == [PreInsert, Initialise];
    } else {
      assert hs + [Initialise] == [PreInsert, PostInsert, Initialise];
    }
  }

  /** `set` assigns the value whatever the tracker decides. */
  lemma SetThenGet(e: EntityState, f: string, v: Value)
    ensures Field(SetStep(e, f, v).attrs, f) == v
    ensures forall g :: g != f ==> Field(SetStep(e, f, v).attrs, g) == Field(e.attrs, g)
    ensures SetStep(e, f, v).isNew == e.isNew && SetStep(e, f, v).hooks == e.hooks
  {
    SetAssigns(e.attrs, e.modified, f, v);
  }
}
