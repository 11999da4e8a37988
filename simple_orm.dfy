/** The Active Record base class: one object per record, over the store. */
module SimpleOrm {
  import opened Wrappers
  import opened PhpValue
  import opened PhpArray
  import opened Errors
  import opened Store
  import opened Binding
  import opened ChangeTracker
  import opened Statements
  import opened Lifecycle
  import opened Finder
  import opened RawQuery

  /** What `hydrate` is given: an array, or anything else. */
  datatype Argument = ArrayArg(fields: Fields) | ScalarArg(v: Value)

  /** What a finder returns: one object or null (`FETCH_ONE`), a list
      (`FETCH_MANY` and every other mode), or nothing (`FETCH_NONE`). */
  datatype Found = One(entity: Option<Entity>) | Many(entities: seq<Entity>) | Nothing

  function Objects(f: Found): seq<Entity>
  {
    match f
    case One(e) => if e.Some? then [e.value] else []
    case Many(es) => es
    case Nothing => []
  }

  /** Each object is `hydrate` of the row at its position. */
  ghost predicate HydratedFrom(b: TableBinding, es: seq<Entity>, rows: seq<Fields>)
    reads es
  {
    |es| == |rows| && forall i :: 0 <= i < |es| ==> es[i].binding == b && es[i].State() == Hydrated(b, rows[i])
  }

  /** The result of a finder over the fetched rows: under `FETCH_ONE` the
      first object or null, otherwise all of them. */
  ghost predicate FromRows(b: TableBinding, f: Found, fetch: Value, rows: seq<Fields>)
    reads Objects(f)
  {
    if fetch == VInt(FETCH_ONE) then
      f.One? && (f.entity.None? <==> rows == [])
      && (f.entity.Some? ==> f.entity.value.binding == b && f.entity.value.State() == Hydrated(b, rows[0]))
    else f.Many? && HydratedFrom(b, f.entities, rows)
  }

  /** The entries `buildSelectBoxValues` assigns, one per object: its key
      and its string form. */
  function SelectBoxEntries(b: TableBinding, objs: seq<Fields>): (es: seq<(Value, string)>)
    requires b.display.Some?
    ensures |es| == |objs|
    ensures forall i :: 0 <= i < |objs| ==> es[i] == (Lifecycle.Id(b, objs[i]), b.display.value(objs[i]))
  {
    seq(|objs|, i requires 0 <= i < |objs| => (Lifecycle.Id(b, objs[i]), b.display.value(objs[i])))
  }

  /** The properties of the object `hydrate` makes of each row. */
  ghost function HydratedAttrs(b: TableBinding, rows: seq<Fields>): (objs: seq<Fields>)
    ensures |objs| == |rows|
    ensures forall i :: 0 <= i < |rows| ==> objs[i] == Hydrated(b, rows[i]).attrs
  {
    seq(|rows|, i requires 0 <= i < |rows| => Hydrated(b, rows[i]).attrs)
  }

  class Entity {
    const binding: TableBinding   // the concrete entity type (`get_called_class()`)
    const load: LoadMode          // `getLoadMethod()` and `getLoadData()`
    var attrs: Fields
    var isNew: bool
    var modified: Fields
    var hooks: seq<Hook>

    function State(): EntityState
      reads this
    {
      EntityState(attrs, isNew, modified, hooks)
    }

    /** The object before its load method runs: the declared properties, all null. */
    constructor (b: TableBinding, load: LoadMode)
      ensures binding == b && this.load == load && State() == Blank(b)
    {
      binding, this.load := b, load;
      attrs, isNew, modified, hooks := PutAll([], Nulls(b.declared)), false, [], [];
    }

    /** A shallow clone: a copy of every property. */
    constructor Clone(other: Entity)
      ensures binding == other.binding && load == other.load && State() == other.State()
    {
      binding, load := other.binding, other.load;
      attrs, isNew, modified, hooks := other.attrs, other.isNew, other.modified, other.hooks;
    }

    /** `get()`: all public properties. */
    function Get(): Fields
      reads this
    {
      attrs
    }

    /** `get($f)`. */
    function GetField(f: string): Value
      reads this
    {
      Field(attrs, f)
    }

    /** `id()`. */
    function Id(): Value
      reads this
    {
      Lifecycle.Id(binding, attrs)
    }

    /** `isModified()`. */
    function IsModified(): Option<Fields>
      reads this
    {
      ChangeTracker.IsModified(modified)
    }

    /** Assigns each entry of `data` to the property of that name, in order. */
    method AssignFields(data: Fields)
      modifies this
      ensures State() == old(State()).(attrs := PutAll(old(attrs), data))
    {
      for i := 0 to |data|
        invariant attrs == PutAll(old(attrs), data[..i])
        invariant isNew == old(isNew) && modified == old(modified) && hooks == old(hooks)
      {
        assert data[..i + 1][..i] == data[..i];
        attrs := Put(attrs, data[i].0, data[i].1);
      }
      assert data[..|data|] == data;
    }

    /** `executeOutputFilters`: every output filter in turn, on the properties. */
    method ExecuteOutputFilters()
      modifies this
      ensures State() == old(State()).(attrs := Chain(binding.outputFilters, old(attrs)))
    {
      var fs := binding.outputFilters;
      for i := 0 to |fs|
        invariant attrs == Chain(fs[..i], old(attrs))
        invariant isNew == old(isNew) && modified == old(modified) && hooks == old(hooks)
      {
        assert fs[..i + 1][..i] == fs[..i];
        attrs := fs[i](attrs);
      }
      assert fs[..|fs|] == fs;
    }

    /** `hydrateFromDatabase`. */
    method HydrateFromDatabase(db: Database) returns (r: Outcome<Error>)
      modifies this, db
      ensures Step(r, State(), db.State()) == Reload(binding, old(State()), old(db.State()))
    {
      if !db.connected {
        return Fail(ConnectionNotConfigured);
      }
      var id := Id();
      var res := db.Select(SelectByPkStatement(TableName(binding), binding.pk, id), binding.pk, id);
      match res {
        case Err(err) =>
          return Fail(err);
        case Ok(None) =>
          return Fail(RecordNotFound);
        case Ok(Some(row)) =>
          AssignFields(row);
          ExecuteOutputFilters();
          return Pass;
      }
    }

    /** `loadByPK`: the key into its property, then the reload. */
    method LoadByPK(key: Value, db: Database) returns (r: Outcome<Error>)
      modifies this, db
      ensures Step(r, State(), db.State()) == Reload(binding, old(State()).(attrs := Put(old(attrs), binding.pk, key)), old(db.State()))
    {
      attrs := Put(attrs, binding.pk, key);
      r := HydrateFromDatabase(db);
    }

    /** `loadByArray`. */
    method LoadByArray(data: Fields)
      modifies this
      ensures State() == LoadArray(binding, old(State()), data)
    {
      AssignFields(data);
      ExecuteOutputFilters();
    }

    /** `hydrateEmpty`. */
    method HydrateEmpty(db: Database) returns (r: Outcome<Error>)
      modifies this
      ensures Step(r, State(), db.State()) == Lifecycle.HydrateEmpty(binding, old(State()), db.State())
    {
      if !db.connected {
        return Fail(ConnectionNotConfigured);
      }
      var columns := db.columns;
      if columns == [] {
        return Fail(SchemaLookupError);
      }
      ghost var nulls := Nulls(columns);
      for i := 0 to |columns|
        invariant attrs == PutAll(old(attrs), nulls[..i])
        invariant isNew == old(isNew) && modified == old(modified) && hooks == old(hooks)
      {
        assert nulls[..i + 1][..i] == nulls[..i];
        attrs := Put(attrs, columns[i], VNull);
      }
      assert nulls[..|columns|] == nulls;
      isNew := true;
      return Pass;
    }

    /** `initialise()`. */
    method Initialise()
      modifies this
      ensures State() == old(State()).(attrs := binding.initialise(old(attrs)), hooks := old(hooks) + [Hook.Initialise])
    {
      attrs := binding.initialise(attrs);
      hooks := hooks + [Hook.Initialise];
    }

    /** `insert`. */
    method Insert(db: Database) returns (r: Outcome<Error>)
      modifies this, db
      ensures Step(r, State(), db.State()) == InsertStep(binding, old(State()), old(db.State()))
    {
      if !db.connected {
        return Fail(ConnectionNotConfigured);
      }
      var pk, table := binding.pk, TableName(binding);
      var snapshot := Get();
      attrs := binding.preInsert(attrs);
      hooks := hooks + [PreInsert];
      var bound := ExecuteInputFilters(binding.inputFilters, snapshot);
      if db.columns == [] {
        return Fail(SchemaLookupError);
      }
      bound := IntersectKeys(bound, db.columns);
      if binding.ignoreKeyOnInsert {
        bound := Unset(bound, pk);
      }
      assert bound == InsertBound(binding, old(State()), old(db.State()));
      var names, markers, values := CompileInsert(bound);
      var res := db.Insert(Statement(InsertSql(table, names, markers, pk), values), bound, pk);
      if res.Err? {
        return Fail(res.error);
      }
      r := FinishInsert(db, res.value);
    }

    /** The end of `insert`, once the store has accepted the row under `newPk`:
        assign a truthy key, mark the object stored, reload it, run `postInsert`. */
    method FinishInsert(db: Database, newPk: Value) returns (r: Outcome<Error>)
      modifies this, db
      ensures Step(r, State(), db.State()) == AfterInsert(binding, old(State()), newPk, old(db.State()))
    {
      if Truthy(newPk) {
        attrs := Put(attrs, binding.pk, newPk);
      }
      isNew := false;
      r := HydrateFromDatabase(db);
      if r.Fail? {
        return;
      }
      attrs := binding.postInsert(attrs);
      hooks := hooks + [PostInsert];
    }

    /** `update`. */
    method Update(db: Database) returns (r: Outcome<Error>)
      modifies this, db
      ensures Step(r, State(), db.State()) == UpdateStep(binding, old(State()), old(db.State()))
    {
      if isNew {
        return Fail(InvalidStateError);
      }
      if !db.connected {
        return Fail(ConnectionNotConfigured);
      }
      var pk, id := binding.pk, Id();
      var bound := ExecuteInputFilters(binding.inputFilters, Get());
      if db.columns == [] {
        return Fail(SchemaLookupError);
      }
      bound := IntersectKeys(bound, db.columns);
      if binding.ignoreKeyOnUpdate {
        bound := Unset(bound, pk);
      }
      var fields, values := CompileUpdate(bound, id);
      r := db.Update(Statement(UpdateSql(TableName(binding), fields, pk), values), bound, pk, id);
      if r.Fail? {
        return;
      }
      modified := [];
    }

    /** `delete`. */
    method Delete(db: Database) returns (r: Outcome<Error>)
      modifies db
      ensures Step(r, State(), db.State()) == DeleteStep(binding, State(), old(db.State()))
    {
      if isNew {
        return Fail(InvalidStateError);
      }
      if !db.connected {
        return Fail(ConnectionNotConfigured);
      }
      var pk, id := binding.pk, Id();
      r := db.Delete(DeleteStatement(TableName(binding), pk, id), pk, id);
    }

    /** `save`. */
    method Save(db: Database) returns (r: Outcome<Error>)
      modifies this, db
      ensures Step(r, State(), db.State()) == SaveStep(binding, old(State()), old(db.State()))
    {
      if isNew {
        r := Insert(db);
      } else {
        r := Update(db);
      }
    }

    /** `revert()`: the properties reloaded from the store. */
    method Revert(db: Database) returns (r: Outcome<Error>)
      modifies this, db
      ensures Step(r, State(), db.State()) == Reload(binding, old(State()), old(db.State()))
    {
      r := HydrateFromDatabase(db);
    }

    /** `revert(true)`: a reloaded copy; this object is left as it is. */
    method RevertCopy(db: Database) returns (r: Result<Entity, Error>)
      modifies db
      ensures r.Ok? ==> fresh(r.value) && r.value.binding == binding
                        && Step(Pass, r.value.State(), db.State()) == Reload(binding, State(), old(db.State()))
      ensures r.Err? ==> Reload(binding, State(), old(db.State())).outcome == Fail(r.error)
                         && Reload(binding, State(), old(db.State())).store == db.State()
    {
      var copy := new Entity.Clone(this);
      var o := copy.HydrateFromDatabase(db);
      if o.Fail? {
        return Err(o.error);
      }
      return Ok(copy);
    }

    /** `modifiedFields($f, $v)`: start the slot, or turn it into a list and append. */
    method RecordModification(f: string, v: Value)
      modifies this
      ensures State() == old(State()).(modified := Track(old(modified), f, v))
    {
      var slot := Lookup(modified, f);
      if !IsSet(slot) {
        modified := Put(modified, f, v);
        return;
      }
      var x := slot.value;
      if !x.VList? {
        modified := Put(modified, f, VList([x]));
        assert [x] + [v] == [x, v];
      }
      var items := Lookup(modified, f).value.items;
      PutTwice(old(modified), f, VList([x]), VList(items + [v]));
      modified := Put(modified, f, VList(items + [v]));
    }

    /** `set($f, $v)`: returns the object itself. */
    method Set(f: string, v: Value) returns (self: Entity)
      modifies this
      ensures self == this
      ensures State() == SetStep(old(State()), f, v)
    {
      var current := Lookup(attrs, f);
      if !IsSet(current) || !LooseEq(current.value, v) {
        RecordModification(f, v);
      }
      attrs := Put(attrs, f, v);
      return this;
    }
  }

  // ---------------------------------------------------------------------
  // The static methods: the entity's type is `b`, the connection is `db`.

  /** `new Entity($data, $method)`: load as the method says, then `initialise`. */
  method Instantiate(b: TableBinding, load: LoadMode, db: Database) returns (r: Result<Entity, Error>)
    modifies db
    ensures r.Ok? ==> fresh(r.value) && r.value.binding == b && r.value.load == load
                      && Step(Pass, r.value.State(), db.State()) == Lifecycle.Construct(b, load, old(db.State()))
    ensures r.Err? ==> Lifecycle.Construct(b, load, old(db.State())).outcome == Fail(r.error)
                       && Lifecycle.Construct(b, load, old(db.State())).store == db.State()
  {
    var e := new Entity(b, load);
    var o: Outcome<Error> := Pass;
    match load {
      case ByPK(key) =>
        o := e.LoadByPK(key, db);
      case ByArray(data) =>
        e.LoadByArray(data);
      case New(data) =>
        e.LoadByArray(data);
        o := e.Insert(db);
      case Empty =>
        o := e.HydrateEmpty(db);
      case Unknown =>
    }
    if o.Fail? {
      return Err(o.error);
    }
    e.Initialise();
    return Ok(e);
  }

  /** `retrieveByPK`: a key that is empty and not numeric is refused before
      the store is asked. */
  method RetrieveByPK(b: TableBinding, pk: Value, db: Database) returns (r: Result<Entity, Error>)
    modifies db
    ensures PkRejected(pk) ==> r == Err(InvalidArgument) && db.State() == old(db.State())
    ensures !PkRejected(pk) && r.Ok? ==>
              fresh(r.value) && r.value.binding == b
              && Step(Pass, r.value.State(), db.State()) == Lifecycle.Construct(b, ByPK(pk), old(db.State()))
    ensures !PkRejected(pk) && r.Err? ==>
              Lifecycle.Construct(b, ByPK(pk), old(db.State())).outcome == Fail(r.error)
              && Lifecycle.Construct(b, ByPK(pk), old(db.State())).store == db.State()
  {
    if PkRejected(pk) {
      return Err(InvalidArgument);
    }
    r := Instantiate(b, ByPK(pk), db);
  }

  /** `hydrate`: an object made from an array without asking the store. */
  method Hydrate(b: TableBinding, data: Argument) returns (r: Result<Entity, Error>)
    ensures data.ScalarArg? ==> r == Err(InvalidArgument)
    ensures data.ArrayArg? ==> r.Ok? && fresh(r.value) && r.value.binding == b
                               && r.value.load == ByArray(data.fields)
                               && r.value.State() == Hydrated(b, data.fields)
  {
    if data.ScalarArg? {
      return Err(InvalidArgument);
    }
    var e := new Entity(b, ByArray(data.fields));
    e.LoadByArray(data.fields);
    e.Initialise();
    assert [] + [Hook.Initialise] == [Hook.Initialise];
    return Ok(e);
  }

  /** The fetch loop of `sql` and `retrieveByField`: `hydrate` of each row fetched. */
  method HydrateRows(b: TableBinding, rows: seq<Fields>) returns (es: seq<Entity>)
    ensures forall j :: 0 <= j < |es| ==> fresh(es[j])
    ensures HydratedFrom(b, es, rows)
  {
    es := [];
    ghost var states: seq<EntityState> := [];
    for i := 0 to |rows|
      invariant forall j :: 0 <= j < |es| ==> fresh(es[j])
      invariant |es| == |states| == i
      invariant forall j :: 0 <= j < i ==> es[j].binding == b && es[j].State() == states[j]
      invariant forall j :: 0 <= j < i ==> states[j] == Hydrated(b, rows[j])
    {
      var h := Hydrate(b, ArrayArg(rows[i]));
      es, states := es + [h.value], states + [Hydrated(b, rows[i])];
    }
  }

  /** The end of `sql` and `retrieveByField`: every row hydrated, then the
      first object or null under `FETCH_ONE`, or the whole list. */
  method Collect(b: TableBinding, rows: seq<Fields>, fetch: Value) returns (f: Found)
    ensures forall i :: 0 <= i < |Objects(f)| ==> fresh(Objects(f)[i])
    ensures FromRows(b, f, fetch, rows)
  {
    var es := HydrateRows(b, rows);
    if fetch == VInt(FETCH_ONE) {
      if es == [] {
        return One(None);
      }
      return One(Some(es[0]));
    }
    return Many(es);
  }

  /** `retrieveByField`: `=` or, when the value holds `%`, `ILIKE`; one
      row under `LIMIT 1` for `FETCH_ONE`. */
  method RetrieveByField(b: TableBinding, field: Value, value: Value, fetch: Value, db: Database)
    returns (r: Result<Found, Error>, ghost keys: seq<Value>)
    modifies db`log
    ensures !field.VStr? ==> r == Err(InvalidArgument) && db.log == old(db.log)
    ensures field.VStr? && !db.connected ==> r == Err(ConnectionNotConfigured) && db.log == old(db.log)
    ensures field.VStr? && db.connected && value.VList? ==> r == Err(TypeError) && db.log == old(db.log)
    ensures field.VStr? && db.connected && !value.VList? ==>
              db.log == old(db.log) + [FinderStatement(TableName(b), field.s, value, fetch).value]
              && (r.Err? <==> field.s !in db.columns) && (r.Err? ==> r.error == PersistenceError)
    ensures r.Ok? ==> forall i :: 0 <= i < |Objects(r.value)| ==> fresh(Objects(r.value)[i])
    ensures r.Ok? ==> field.VStr? && ToPhpString(value).Some? && Distinct(keys)
                      && MatchAll(db.rows, keys, field.s, Operator(ToPhpString(value).value), value)
                      && FromRows(b, r.value, fetch, FoundRows(db.rows, keys))
    ensures r.Ok? && fetch != VInt(FETCH_ONE) ==>
              forall k :: k in db.rows && RowMatches(db.rows[k], field.s, Operator(ToPhpString(value).value), value) ==> k in keys
    ensures r.Ok? && fetch == VInt(FETCH_ONE) ==>
              |keys| <= 1 && (|keys| == 0 <==> forall k :: k in db.rows ==> !RowMatches(db.rows[k], field.s, Operator(ToPhpString(value).value), value))
  {
    keys := [];
    if !field.VStr? {
      return Err(InvalidArgument), keys;
    }
    if !db.connected {
      return Err(ConnectionNotConfigured), keys;
    }
    var stmt := FinderStatement(TableName(b), field.s, value, fetch);
    if stmt.Err? {
      return Err(stmt.error), keys;
    }
    var op := Operator(ToPhpString(value).value);
    var found;
    found, keys := db.Find(stmt.value, field.s, op, value, fetch == VInt(FETCH_ONE));
    if found.Err? {
      return Err(found.error), keys;
    }
    var rows := found.value;
    assert rows == FoundRows(db.rows, keys);
    var collected := Collect(b, rows, fetch);
    return Ok(collected), keys;
  }

  /** `__callStatic`: a `retrieveBy...` name calls `retrieveByField` with the
      column its suffix names and the arguments given; any other name has
      no method. */
  method CallStatic(b: TableBinding, name: string, args: seq<Value>, db: Database)
    returns (r: Result<Found, Error>, ghost keys: seq<Value>)
    modifies db`log
    ensures ParseFinderName(name).None? ==> r == Err(NoSuchStaticMethod) && db.log == old(db.log)
    ensures ParseFinderName(name).Some? && args == [] ==> r == Err(MissingArgument) && db.log == old(db.log)
    ensures ParseFinderName(name).Some? && args != [] && !db.connected ==>
              r == Err(ConnectionNotConfigured) && db.log == old(db.log)
    ensures ParseFinderName(name).Some? && args != [] && db.connected && args[0].VList? ==>
              r == Err(TypeError) && db.log == old(db.log)
    ensures ParseFinderName(name).Some? && args != [] && db.connected && !args[0].VList? ==>
              db.log == old(db.log) + [FinderStatement(TableName(b), FieldName(name[10..]), args[0], FetchArgument(args)).value]
              && (r.Err? <==> FieldName(name[10..]) !in db.columns) && (r.Err? ==> r.error == PersistenceError)
    ensures r.Ok? ==> forall i :: 0 <= i < |Objects(r.value)| ==> fresh(Objects(r.value)[i])
    ensures r.Ok? ==> |args| > 0 && ToPhpString(args[0]).Some? && Distinct(keys)
                      && MatchAll(db.rows, keys, FieldName(name[10..]), Operator(ToPhpString(args[0]).value), args[0])
                      && FromRows(b, r.value, FetchArgument(args), FoundRows(db.rows, keys))
    ensures r.Ok? && FetchArgument(args) != VInt(FETCH_ONE) ==>
              forall k :: k in db.rows && RowMatches(db.rows[k], FieldName(name[10..]), Operator(ToPhpString(args[0]).value), args[0]) ==> k in keys
    ensures r.Ok? && FetchArgument(args) == VInt(FETCH_ONE) ==>
              |keys| <= 1
              && (|keys| == 0 <==> forall k :: k in db.rows ==> !RowMatches(db.rows[k], FieldName(name[10..]), Operator(ToPhpString(args[0]).value), args[0]))
  {
    keys := [];
    var field := ParseFinderName(name);
    if field.None? {
      return Err(NoSuchStaticMethod), keys;
    }
    if args == [] {
      return Err(MissingArgument), keys;
    }
    r, keys := RetrieveByField(b, VStr(field.value), args[0], FetchArgument(args), db);
  }

  /** `sql`: the shortcuts replaced, the text run, and the rows hydrated,
      unless the mode is `FETCH_NONE`. The store's answer to raw SQL is
      `run`. */
  method Sql(b: TableBinding, query: string, fetch: Value, db: Database, run: string -> Option<seq<Fields>>)
    returns (r: Result<Found, Error>)
    modifies db`log
    ensures !db.connected ==> r == Err(ConnectionNotConfigured) && db.log == old(db.log)
    ensures db.connected ==> db.log == old(db.log) + [Statement(SqlText(b, query, db.database), [])]
    ensures db.connected && run(SqlText(b, query, db.database)).None? ==> r == Err(PersistenceError)
    ensures r.Ok? ==> forall i :: 0 <= i < |Objects(r.value)| ==> fresh(Objects(r.value)[i])
    ensures r.Ok? ==> run(SqlText(b, query, db.database)).Some?
    ensures r.Ok? && fetch == VInt(FETCH_NONE) ==> r.value == Nothing
    ensures r.Ok? && fetch != VInt(FETCH_NONE) ==> FromRows(b, r.value, fetch, (run(SqlText(b, query, db.database)).value))
    ensures db.connected && run(SqlText(b, query, db.database)).Some? ==> r.Ok?
  {
    if !db.connected {
      return Err(ConnectionNotConfigured);
    }
    var text := SqlText(b, query, db.database);
    db.Query(text);
    var result := run(text);
    if result.None? {
      return Err(PersistenceError);
    }
    if fetch == VInt(FETCH_NONE) {
      return Ok(Nothing);
    }
    var found := Collect(b, result.value, fetch);
    return Ok(found);
  }

  /** `count`: the first column of the first row, clamped at zero. */
  method Count(b: TableBinding, query: string, db: Database, run: string -> Option<Value>) returns (r: Result<int, Error>)
    modifies db`log
    ensures !db.connected ==> r == Err(ConnectionNotConfigured) && db.log == old(db.log)
    ensures db.connected ==> db.log == old(db.log) + [Statement(SqlText(b, query, db.database), [])]
    ensures db.connected && run(SqlText(b, query, db.database)).None? ==> r == Err(PersistenceError)
    ensures db.connected && run(SqlText(b, query, db.database)).Some? ==>
              r == Ok(ClampCount(run(SqlText(b, query, db.database)).value))
  {
    if !db.connected {
      return Err(ConnectionNotConfigured);
    }
    var text := SqlText(b, query, db.database);
    db.Query(text);
    var fetched := run(text);
    if fetched.None? {
      return Err(PersistenceError);
    }
    return Ok(ClampCount(fetched.value));
  }

  /** `truncate`: `TRUNCATE :table` run with `FETCH_NONE`. */
  method Truncate(b: TableBinding, db: Database, run: string -> Option<seq<Fields>>) returns (r: Outcome<Error>)
    modifies db`log
    ensures !db.connected ==> r == Fail(ConnectionNotConfigured) && db.log == old(db.log)
    ensures db.connected ==> db.log == old(db.log) + [Statement(SqlText(b, TRUNCATE_QUERY, db.database), [])]
    ensures db.connected ==> (r.Pass? <==> run(SqlText(b, TRUNCATE_QUERY, db.database)).Some?)
    ensures r.Fail? ==> r.error in {ConnectionNotConfigured, PersistenceError}
  {
    var res := Sql(b, TRUNCATE_QUERY, VInt(FETCH_NONE), db, run);
    r := if res.Ok? then Pass else Fail(res.error);
  }

  /** `all`: `SELECT * FROM :table` run with `FETCH_MANY`. */
  method All(b: TableBinding, db: Database, run: string -> Option<seq<Fields>>) returns (r: Result<seq<Entity>, Error>)
    modifies db`log
    ensures !db.connected ==> r == Err(ConnectionNotConfigured) && db.log == old(db.log)
    ensures db.connected ==> db.log == old(db.log) + [Statement(SqlText(b, ALL_QUERY, db.database), [])]
    ensures db.connected ==> (r.Ok? <==> run(SqlText(b, ALL_QUERY, db.database)).Some?)
    ensures r.Ok? ==> HydratedFrom(b, r.value, (run(SqlText(b, ALL_QUERY, db.database)).value))
    ensures r.Ok? ==> forall i :: 0 <= i < |r.value| ==> fresh(r.value[i])
  {
    var res := Sql(b, ALL_QUERY, VInt(FETCH_MANY), db, run);
    if res.Err? {
      return Err(res.error);
    }
    assert Objects(res.value) == res.value.entities;
    return Ok(res.value.entities);
  }

  /** `buildSelectBoxValues`: each object's string form under its key, a
      later object overwriting an earlier one with the same key. */
  method BuildSelectBoxValues(b: TableBinding, where: Value, db: Database, run: string -> Option<seq<Fields>>)
    returns (r: Result<Arr<Value, string>, Error>)
    modifies db`log
    ensures !db.connected ==> r == Err(ConnectionNotConfigured) && db.log == old(db.log)
    ensures db.connected ==> db.log == old(db.log) + [Statement(SqlText(b, SelectBoxQuery(where), db.database), [])]
    ensures db.connected && run(SqlText(b, SelectBoxQuery(where), db.database)).None? ==> r == Err(PersistenceError)
    ensures db.connected && run(SqlText(b, SelectBoxQuery(where), db.database)).Some? ==>
              var rows := (run(SqlText(b, SelectBoxQuery(where), db.database)).value);
              if b.display.None? && rows != [] then r == Err(TypeError)
              else if b.display.None? then r == Ok([])
              else r == Ok(PutAll([], SelectBoxEntries(b, HydratedAttrs(b, rows))))
  {
    var res := Sql(b, SelectBoxQuery(where), VInt(FETCH_MANY), db, run);
    if res.Err? {
      return Err(res.error);
    }
    ghost var rows := (run(SqlText(b, SelectBoxQuery(where), db.database)).value);
    var es := res.value.entities;
    if es == [] {
      return Ok([]);
    }
    if b.display.None? {
      return Err(TypeError);
    }
    var values := SelectBoxValues(b, es, HydratedAttrs(b, rows));
    return Ok(values);
  }

  /** The loop of `buildSelectBoxValues`: each object's string form stored
      under its primary key, in order. */
  method SelectBoxValues(b: TableBinding, es: seq<Entity>, ghost objs: seq<Fields>)
    returns (values: Arr<Value, string>)
    requires b.display.Some?
    requires |es| == |objs| && forall i :: 0 <= i < |es| ==> es[i].binding == b && es[i].attrs == objs[i]
    ensures values == PutAll([], SelectBoxEntries(b, objs))
  {
    ghost var entries := SelectBoxEntries(b, objs);
    values := [];
    for i := 0 to |es|
      invariant values == PutAll([], entries[..i])
    {
      var obj := es[i];
      assert obj.binding == b && obj.attrs == objs[i];
      assert entries[..i + 1][..i] == entries[..i];
      values := Put(values, obj.Id(), b.display.value(obj.attrs));
    }
    assert entries[..|es|] == entries;
  }

  /** The fetch mode given to a `retrieveBy...` call, `FETCH_MANY` by default. */
  function FetchArgument(args: seq<Value>): (fetch: Value)
    ensures |args| >= 2 ==> fetch == args[1]
    ensures |args| < 2 ==> fetch == VInt(FETCH_MANY)
  {
    if |args| >= 2 then args[1] else VInt(FETCH_MANY)
  }

  /** The statement text `sql` and `count` run. */
  function SqlText(b: TableBinding, query: string, database: string): string
  {
    ApplyShortcuts(query, database, TableName(b), b.pk)
  }

  /** The rows stored under `keys`, in that order. */
  ghost function FoundRows(rows: map<Value, Fields>, keys: seq<Value>): (r: seq<Fields>)
    requires forall i :: 0 <= i < |keys| ==> keys[i] in rows
    ensures |r| == |keys| && forall i :: 0 <= i < |keys| ==> r[i] == rows[keys[i]]
  {
    seq(|keys|, i requires 0 <= i < |keys| => rows[keys[i]])
  }

  /** Every key names a stored row that satisfies the condition. */
  ghost predicate MatchAll(rows: map<Value, Fields>, keys: seq<Value>, field: string, op: string, param: Value)
  {
    forall i :: 0 <= i < |keys| ==> keys[i] in rows && RowMatches(rows[keys[i]], field, op, param)
  }

}
