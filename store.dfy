/** The backing store, abstracted from SQL: one table given by its ordered
    column list and its rows keyed by primary-key value, the connection
    registry's single slot, and the log of statements sent to it. */
module Store {
  import opened Wrappers
  import opened PhpString
  import opened PhpValue
  import opened PhpArray
  import opened Errors

  /** A field-to-value map: an entity's attributes or a table row. */
  type Fields = Arr<string, Value>

  /** A prepared statement as sent: its text and its bound values. */
  datatype Statement = Statement(sql: string, params: seq<Value>)

  datatype StoreState = StoreState(
    connected: bool,            // a connection has been registered
    database: string,           // the database name given with it
    columns: seq<string>,       // the table's columns in ordinal order
    rows: map<Value, Fields>,   // primary-key value to row
    nextKey: int,               // the key sequence behind a serial primary key
    log: seq<Statement>)        // every statement sent, in order

  /** The behaviour of the store is the same in both states except for its rows, key sequence and log. */
  predicate SameShape(a: StoreState, b: StoreState)
  {
    a.connected == b.connected && a.database == b.database && a.columns == b.columns
  }

  predicate KnownColumns(columns: seq<string>, bound: Fields)
  {
    forall k :: k in Keys(bound) ==> k in columns
  }

  /** What a new row holds in column `c`. */
  function CellValue(bound: Fields, pk: string, key: Value, c: string): Value
  {
    match Lookup(bound, c)
    case Some(v) => v
    case None => if c == pk then key else VNull
  }

  /** The row an INSERT creates: each bound column holds its value, the key
      column the new key, every other column null. */
  function NewRow(columns: seq<string>, bound: Fields, pk: string, key: Value): (row: Fields)
    ensures forall c :: Lookup(row, c) == if c in columns then Some(CellValue(bound, pk, key, c)) else None
  {
    if columns == [] then []
    else
      var front := columns[..|columns| - 1];
      assert forall c :: c in columns <==> c in front || c == columns[|columns| - 1];
      Put(NewRow(front, bound, pk, key), columns[|columns| - 1], CellValue(bound, pk, key, columns[|columns| - 1]))
  }

  lemma NewRowHoldsBound(columns: seq<string>, bound: Fields, pk: string, key: Value)
    requires KnownColumns(columns, bound)
    ensures forall c :: c in Keys(bound) ==> Lookup(NewRow(columns, bound, pk, key), c) == Lookup(bound, c)
    ensures pk in columns && pk !in Keys(bound) ==> Lookup(NewRow(columns, bound, pk, key), pk) == Some(key)
  {
  }

  /** `INSERT ... RETURNING pk`: the key of the new row, or the store's
      rejection (an empty column list, an unknown column, a null or
      duplicate key). A key the statement does not supply is drawn from the
      sequence, which advances even when the insert then fails. */
  function StoreInsert(ss: StoreState, stmt: Statement, bound: Fields, pk: string): (r: (Result<Value, Error>, StoreState))
    ensures SameShape(ss, r.1) && r.1.log == ss.log + [stmt]
    ensures r.0.Err? ==> r.1.rows == ss.rows
    ensures r.0.Ok? ==> r.0.value != VNull && r.0.value !in ss.rows
    ensures r.0.Ok? ==> r.1.rows == ss.rows[r.0.value := NewRow(ss.columns, bound, pk, r.0.value)]
    ensures r.0.Ok? ==> bound != [] && KnownColumns(ss.columns, bound) && pk in ss.columns
    ensures r.0.Ok? && pk in Keys(bound) ==> Lookup(bound, pk) == Some(r.0.value)
  {
    var logged := ss.(log := ss.log + [stmt]);
    if bound == [] || pk !in ss.columns || !KnownColumns(ss.columns, bound) then (Err(PersistenceError), logged)
    else
      match Lookup(bound, pk)
      case Some(v) =>
        if v == VNull || v in ss.rows then (Err(PersistenceError), logged)
        else (Ok(v), logged.(rows := ss.rows[v := NewRow(ss.columns, bound, pk, v)]))
      case None =>
        var v := VInt(ss.nextKey);
        var drawn := logged.(nextKey := ss.nextKey + 1);
        if v in ss.rows then (Err(PersistenceError), drawn)
        else (Ok(v), drawn.(rows := ss.rows[v := NewRow(ss.columns, bound, pk, v)]))
  }

  /** `SELECT * ... WHERE pk = ?`: the row with that key, if any. A null key matches nothing. */
  function StoreSelect(ss: StoreState, stmt: Statement, pk: string, id: Value): (r: (Result<Option<Fields>, Error>, StoreState))
    ensures r.1 == ss.(log := ss.log + [stmt])
    ensures r.0.Err? <==> pk !in ss.columns
    ensures r.0 == Ok(None) <==> pk in ss.columns && (id == VNull || id !in ss.rows)
    ensures r.0.Ok? && r.0.value.Some? ==> id in ss.rows && r.0.value.value == ss.rows[id]
  {
    var logged := ss.(log := ss.log + [stmt]);
    if pk !in ss.columns then (Err(PersistenceError), logged)
    else if id != VNull && id in ss.rows then (Ok(Some(ss.rows[id])), logged)
    else (Ok(None), logged)
  }

  /** The key a row has after an UPDATE: the bound key value if the key column is set, else the old key. */
  function UpdatedKey(bound: Fields, pk: string, id: Value): Value
  {
    match Lookup(bound, pk) case Some(v) => v case None => id
  }

  /** `UPDATE ... SET col = ?, ... WHERE pk = ?`: overwrites the bound columns
      of the row with key `id` (no row, no change). Setting the key column
      moves the row; a null or taken key, an empty SET list or an unknown
      column is rejected. */
  function StoreUpdate(ss: StoreState, stmt: Statement, bound: Fields, pk: string, id: Value): (r: (Outcome<Error>, StoreState))
    ensures SameShape(ss, r.1) && r.1.nextKey == ss.nextKey && r.1.log == ss.log + [stmt]
    ensures r.0.Fail? ==> r.1.rows == ss.rows
    ensures r.0.Pass? && (id == VNull || id !in ss.rows) ==> r.1.rows == ss.rows
    ensures r.0.Pass? && id != VNull && id in ss.rows ==>
              r.1.rows == (ss.rows - {id})[UpdatedKey(bound, pk, id) := PutAll(ss.rows[id], bound)]
  {
    var logged := ss.(log := ss.log + [stmt]);
    if bound == [] || pk !in ss.columns || !KnownColumns(ss.columns, bound) then (Fail(PersistenceError), logged)
    else if id == VNull || id !in ss.rows then (Pass, logged)
    else
      var row := PutAll(ss.rows[id], bound);
      var newKey := UpdatedKey(bound, pk, id);
      if newKey == id then (Pass, logged.(rows := (ss.rows - {id})[id := row]))
      else if newKey == VNull || newKey in ss.rows then (Fail(PersistenceError), logged)
      else (Pass, logged.(rows := (ss.rows - {id})[newKey := row]))
  }

  /** `DELETE ... WHERE pk = ?`: removes the row with key `id`, if any; a null
      key equals no row, so nothing is removed. */
  function StoreDelete(ss: StoreState, stmt: Statement, pk: string, id: Value): (r: (Outcome<Error>, StoreState))
    ensures SameShape(ss, r.1) && r.1.nextKey == ss.nextKey && r.1.log == ss.log + [stmt]
    ensures r.0.Fail? <==> pk !in ss.columns
    ensures r.0.Fail? ==> r.1.rows == ss.rows
    ensures r.0.Pass? && id != VNull ==> id !in r.1.rows && r.1.rows == ss.rows - {id}
    ensures r.0.Pass? && id == VNull ==> r.1.rows == ss.rows
  {
    var logged := ss.(log := ss.log + [stmt]);
    if pk !in ss.columns then (Fail(PersistenceError), logged)
    else if id == VNull then (Pass, logged)
    else (Pass, logged.(rows := ss.rows - {id}))
  }

  /** SQL `LIKE` on case-folded text: `%` matches any run of characters, `_` exactly one. */
  predicate Like(p: string, s: string)
    decreases |p| + |s|
  {
    if p == [] then s == []
    else if p[0] == '%' then Like(p[1..], s) || (s != [] && Like(p, s[1..]))
    else s != [] && (p[0] == '_' || p[0] == s[0]) && Like(p[1..], s[1..])
  }

  /** A pattern without wildcards matches exactly itself. */
  lemma {:induction false} LikeLiteral(p: string, s: string)
    requires '%' !in p && '_' !in p
    ensures Like(p, s) <==> p == s
  {
    if p != [] && s != [] {
      LikeLiteral(p[1..], s[1..]);
      if p[0] == s[0] && p[1..] == s[1..] {
        assert p == [p[0]] + p[1..] && s == [s[0]] + s[1..];
      }
    }
  }

  /** A lone `%` matches every text. */
  lemma {:induction false} LikeAnything(s: string)
    ensures Like("%", s)
  {
    if s != [] {
      LikeAnything(s[1..]);
    }
  }

  /** Whether a row satisfies `WHERE "field" op ?` with the bound value.
      `=` needs both sides non-null and equal; `ILIKE` needs a text cell that
      matches the bound value's text, ignoring case. */
  predicate RowMatches(row: Fields, field: string, op: string, param: Value)
  {
    match Lookup(row, field)
    case None => false
    case Some(x) =>
      if op == "=" then x != VNull && param != VNull && x == param
      else x.VStr? && ToPhpString(param).Some? && Like(ToLower(ToPhpString(param).value), ToLower(x.s))
  }

  class Database {
    var connected: bool
    var database: string
    var columns: seq<string>
    var rows: map<Value, Fields>
    var nextKey: int
    var log: seq<Statement>

    function State(): StoreState
      reads this
    {
      StoreState(connected, database, columns, rows, nextKey, log)
    }

    /** A table with the given columns and rows, with no connection registered yet. */
    constructor (columns: seq<string>, rows: map<Value, Fields>, nextKey: int)
      ensures State() == StoreState(false, "", columns, rows, nextKey, [])
    {
      this.connected, this.database := false, "";
      this.columns, this.rows, this.nextKey, this.log := columns, rows, nextKey, [];
    }

    /** `useConnection`: fills the registry's one slot and records the database name. */
    method UseConnection(database: string)
      modifies this
      ensures State() == old(State()).(connected := true, database := database)
    {
      this.connected, this.database := true, database;
    }

    method Insert(stmt: Statement, bound: Fields, pk: string) returns (r: Result<Value, Error>)
      modifies this
      ensures (r, State()) == StoreInsert(old(State()), stmt, bound, pk)
    {
      var out := StoreInsert(State(), stmt, bound, pk);
      r := out.0;
      rows, nextKey, log := out.1.rows, out.1.nextKey, out.1.log;
    }

    method Select(stmt: Statement, pk: string, id: Value) returns (r: Result<Option<Fields>, Error>)
      modifies this
      ensures (r, State()) == StoreSelect(old(State()), stmt, pk, id)
    {
      var out := StoreSelect(State(), stmt, pk, id);
      r := out.0;
      log := out.1.log;
    }

    method Update(stmt: Statement, bound: Fields, pk: string, id: Value) returns (r: Outcome<Error>)
      modifies this
      ensures (r, State()) == StoreUpdate(old(State()), stmt, bound, pk, id)
    {
      var out := StoreUpdate(State(), stmt, bound, pk, id);
      r := out.0;
      rows, log := out.1.rows, out.1.log;
    }

    method Delete(stmt: Statement, pk: string, id: Value) returns (r: Outcome<Error>)
      modifies this
      ensures (r, State()) == StoreDelete(old(State()), stmt, pk, id)
    {
      var out := StoreDelete(State(), stmt, pk, id);
      r := out.0;
      rows, log := out.1.rows, out.1.log;
    }

    /** A raw query: sent as it is, with nothing bound. What it does to the rows is not modelled. */
    method Query(sql: string)
      modifies this`log
      ensures log == old(log) + [Statement(sql, [])]
    {
      log := log + [Statement(sql, [])];
    }

    /** `SELECT * ... WHERE "field" op ? [LIMIT 1]`: the matching rows in the
        store's own (unspecified) order, at most one under `LIMIT 1`; a field
        that is not a column is rejected. */
    method Find(stmt: Statement, field: string, op: string, param: Value, limitOne: bool)
      returns (r: Result<seq<Fields>, Error>, ghost keys: seq<Value>)
      modifies this`log
      ensures log == old(log) + [stmt]
      ensures r.Err? <==> field !in columns
      ensures r.Err? ==> r.error == PersistenceError
      ensures r.Ok? ==> |keys| == |r.value| && Distinct(keys)
      ensures r.Ok? ==> forall i :: 0 <= i < |keys| ==>
                keys[i] in rows && r.value[i] == rows[keys[i]] && RowMatches(rows[keys[i]], field, op, param)
      ensures r.Ok? && !limitOne ==> forall k :: k in rows && RowMatches(rows[k], field, op, param) ==> k in keys
      ensures r.Ok? && limitOne ==> |keys| <= 1
      ensures r.Ok? && limitOne ==> (|keys| == 0 <==> forall k :: k in rows ==> !RowMatches(rows[k], field, op, param))
    {
      log := log + [stmt];
      keys := [];
      if field !in columns {
        return Err(PersistenceError), keys;
      }
      var found: seq<Fields> := [];
      var remaining := rows.Keys;
      while remaining != {} && !(limitOne && |found| == 1)
        invariant remaining <= rows.Keys
        invariant |keys| == |found| && Distinct(keys)
        invariant limitOne ==> |found| <= 1
        invariant forall i :: 0 <= i < |keys| ==>
                    keys[i] in rows && keys[i] !in remaining && found[i] == rows[keys[i]] && RowMatches(rows[keys[i]], field, op, param)
        invariant forall k :: k in rows && k !in remaining && RowMatches(rows[k], field, op, param) ==> k in keys
        decreases remaining
      {
        var k :| k in remaining;
        remaining := remaining - {k};
        if RowMatches(rows[k], field, op, param) {
          keys, found := keys + [k], found + [rows[k]];
        }
      }
      if keys != [] {
        assert keys[0] in rows && RowMatches(rows[keys[0]], field, op, param);
      } else {
        assert remaining == {};
        forall k | k in rows ensures !RowMatches(rows[k], field, op, param) {
          assert k !in keys;
        }
      }
      r := Ok(found);
    }
  }
}
