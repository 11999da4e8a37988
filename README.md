# SimpleOrm in Dafny

A model of `SimpleOrm`, the Active Record base class of the PHP repository
ORM_PHP. It covers the PostgreSQL/PDO version in `orm/SimpleOrm.php`. Each
object of a concrete entity type stands for one row of that type's table. The
constructor loads the object in one of four modes:

- by primary key;
- from an array;
- as a new record that is inserted at once;
- empty.

`set` changes a property and records the change in a per-field history.
`save` routes to `insert` or `update`, and `delete` removes the row. The static
finders (`sql`, `count`, `retrieveByPK`, `retrieveBy<Field>`,
`retrieveByField`, `all`, `truncate`, `buildSelectBoxValues`) build objects from
rows.

The database is abstracted as an in-memory store (`Store.StoreState`, mirrored
by the class `Store.Database`). It holds:

- the connection registry's one slot;
- the table's ordered column list;
- the rows, as a map from key to row;
- the key sequence behind a serial key;
- the log of every statement sent.

The modules follow the program's structure:

- `PhpString`, `PhpValue`, `PhpArray`: the PHP 8 semantics the engine relies on. These are:
  - `strtolower`, `implode`, `str_replace`;
  - truthiness, `isset`, loose `==`, `(int)`, `is_numeric`;
  - ordered arrays with one entry per key, where assignment overwrites in place and appends a new key.
- `Errors`: the exceptions, and the one exception code the engine sets (2, record not found).
- `Store`: the store, the statements it answers, and the class `Database`.
- `Binding`: what a concrete entity type declares:
  - its table and key;
  - its public properties;
  - its hooks (`initialise`, `preInsert`, `postInsert`);
  - its input and output filters as explicit ordered lists of functions;
  - its string form;
  - the two `ignoreKeyOn...` flags.

  It also holds `getTableName` and the input-filter chain.
- `ChangeTracker`: `set`, `modifiedFields` and `isModified` as functions on the maps.
- `Statements`:
  - the bound field map of `insert` and `update`;
  - the compiled name, marker and value lists;
  - the statement texts;
  - the proof that each carries one `?` per bound value.
- `Finder`:
  - the key guard of `retrieveByPK`;
  - the `retrieveBy<CamelCase>` to `snake_case` name mapping;
  - the `=`/`ILIKE` choice and `LIMIT 1`.
- `RawQuery`: the `:database`/`:table`/`:pk` shortcuts, the queries of `all`, `truncate` and `buildSelectBoxValues`, and the count clamp.
- `Lifecycle`: the abstract state of an entity, and a pure function for each operation. Each function gives the entity's and the store's state after the operation, and the lemmas about the engine are stated over these functions.
- `SimpleOrm`: the class `Entity` and the static methods. These update fields and loop as the PHP does, and each is proved equal to its `Lifecycle` function.

The model records the hooks in a trace (`hooks`) as they run. The trace is a
modelling device, so that "`initialise` runs exactly once" can be stated.

Behaviours of the code worth knowing:

- `insert` does not clear the change tracker; only `update` does (line 476). After an insert, `isModified()` still reports the changes made before it (`Lifecycle.InsertStores`), as long as no hook calls `set` (see `Lifecycle.InsertStep` under "Left out").
- `insert` leaves the key out of the INSERT only when `ignoreKeyOnInsert` is true (lines 377-378). That is the default (line 27), but a subclass can turn it off.
- `insert` assigns the returned key only when it is truthy (line 408). If the store returns a falsy key such as 0, the reload looks for the wrong key: the insert throws code 2 although the row was stored (`Lifecycle.InsertFalsyKey`).
- `insert` takes its snapshot (line 365) before it runs `preInsert` (line 368). Changes `preInsert` makes never reach the INSERT; they are kept on the object until the reload overwrites them.
- `LOAD_EMPTY` does use the store:
  - it asks for the column list, which needs a connection;
  - it throws when the list is empty (lines 179, 511-534).
- `initialise` runs only when the load did not throw (line 79). A failed `LOAD_BY_PK` or `LOAD_NEW` leaves no object.
- The finders are named `retrieveBy...`.
- `retrieveByField` has no separate `FETCH_NONE` case: every mode but `FETCH_ONE` returns the list.

## Model

| member | source | states |
|---|---|---|
| PhpString.ToLower | orm/SimpleOrm.php:242 | `strtolower` keeps the length and lower-cases each character A-Z, leaving every other character |
| PhpString.ToLowerIdempotent | orm/SimpleOrm.php:241-242 | lower-casing twice is lower-casing once, and no capital is left behind |
| PhpString.ToLowerAppend | orm/SimpleOrm.php:841 | `strtolower` of a concatenation is the concatenation of the lower-cased parts |
| PhpString.JoinCount | orm/SimpleOrm.php:393-394 | with a separator free of `c`, `implode` holds exactly the occurrences of `c` in its parts |
| PhpString.ReplaceAllAbsent | orm/SimpleOrm.php:714-718 | `str_replace` leaves a subject without the search string's first character unchanged |
| PhpString.ReplaceAllSplit | orm/SimpleOrm.php:714-718 | text before an occurrence that holds no first character of the search string is copied as it is |
| PhpString.ReplaceAllPrefix | orm/SimpleOrm.php:714-718 | an occurrence at the front is replaced and the scan resumes right after it |
| PhpValue.LooseEqReflexive | orm/SimpleOrm.php:642 | every value is loosely equal to itself |
| PhpValue.LooseEqSymmetric | orm/SimpleOrm.php:642 | loose equality does not depend on the order of its operands |
| PhpValue.IntLooseEqItsText | orm/SimpleOrm.php:642 | an integer is loosely equal to its decimal text (`1 == "1"`), so rewriting a key with its text records no change |
| PhpValue.LooseEqNotTransitive | orm/SimpleOrm.php:642 | loose equality is not transitive: `"0" == false`, `false == null`, yet `"0" != null` |
| PhpValue.ToPhpString | orm/SimpleOrm.php:867 | the string `strpos` looks in; it fails (a type error) exactly for an array |
| PhpArray.Values | orm/SimpleOrm.php:387 | the values of an array, one per entry, in order |
| PhpArray.Put | orm/SimpleOrm.php:645 | after `$a[$k] = $v`, `k` reads `v`, every other key reads as before, and no key is repeated |
| PhpArray.PutKeys | orm/SimpleOrm.php:159-160 | an assigned key that exists keeps its place, and a new one goes last |
| PhpArray.PutTwice | orm/SimpleOrm.php:680-683 | assigning a key twice leaves only the second value |
| PhpArray.Unset | orm/SimpleOrm.php:377-378 | after `unset($a[$k])`, `k` is unset, every other key reads as before, and no key is repeated |
| PhpArray.IntersectKeys | orm/SimpleOrm.php:374 | `array_intersect_key` keeps exactly the listed keys, with their values |
| PhpArray.PutAllLookup | orm/SimpleOrm.php:159-160 | after assigning a list of entries, a key reads as its last assignment, or as before if it was not assigned |
| PhpArray.PutAllDistinct | orm/SimpleOrm.php:207-208 | assigning every entry of an array without repeated keys leaves each entry readable under its key |
| Errors.Code | orm/SimpleOrm.php:204-205 | of the exceptions the model raises, exactly the not-found one carries code 2 |
| Store.NewRow | orm/SimpleOrm.php:391-401 | a new row holds each bound value in its column, the new key in the key column, and null in every other column; it has no column outside the table |
| Store.NewRowHoldsBound | orm/SimpleOrm.php:391-401 | a new row holds every bound value, and the new key when the key was not bound |
| Store.StoreInsert | orm/SimpleOrm.php:391-407 | the INSERT is logged; on success the new key was not in use and the new row is added under it; on failure the rows are unchanged |
| Store.StoreSelect | orm/SimpleOrm.php:197-202 | the SELECT by key is logged; it finds the stored row exactly when the key is non-null and stored, and fails only when the key column is missing |
| Store.StoreUpdate | orm/SimpleOrm.php:461-470 | the UPDATE is logged; a stored row gets the bound values assigned over it (and moves if its key was rebound); a missing row or a failure changes no row |
| Store.StoreDelete | orm/SimpleOrm.php:494-499 | the DELETE is logged and removes the row with that key, none for a null key; it fails only when the key column is missing |
| Store.LikeLiteral | orm/SimpleOrm.php:867 | a pattern without wildcards matches exactly itself |
| Store.LikeAnything | orm/SimpleOrm.php:867 | a lone `%` matches every text |
| Store.Database.constructor | orm/SimpleOrm.php:12-15 | a store with the given table, with no connection registered and an empty log |
| Store.Database.UseConnection | orm/SimpleOrm.php:91-94 | the registry holds a connection and records the database name; nothing else changes |
| Store.Database.Insert | orm/SimpleOrm.php:399-407 | the result and the new store state are exactly those of `StoreInsert` |
| Store.Database.Select | orm/SimpleOrm.php:199-202 | the result and the new store state are exactly those of `StoreSelect` |
| Store.Database.Update | orm/SimpleOrm.php:468-470 | the result and the new store state are exactly those of `StoreUpdate` |
| Store.Database.Delete | orm/SimpleOrm.php:497-499 | the result and the new store state are exactly those of `StoreDelete` |
| Store.Database.Query | orm/SimpleOrm.php:722 | a raw query is appended to the log with no bound values |
| Store.Database.Find | orm/SimpleOrm.php:877-885 | the rows returned are distinct stored rows that match the condition; without `LIMIT 1` every matching row is returned; with it, at most one, and none only when no row matches; an unknown field is rejected |
| Binding.TableName | orm/SimpleOrm.php:233-243 | the declared table when there is one, else the lower-cased class name |
| Binding.DefaultTableName | orm/SimpleOrm.php:241-242 | the default table name is as long as the class name and holds no capital |
| Binding.DefaultBinding | orm/SimpleOrm.php:12-27 | a type that overrides nothing has key `id`, the class name as its table, no filters, no-op hooks, no string form, and leaves the key out of INSERT and UPDATE |
| Binding.ChainAppend | orm/SimpleOrm.php:331-333 | running two lists of filters in turn is running their concatenation |
| Binding.ExecuteInputFilters | orm/SimpleOrm.php:327-336 | the result is the candidate map passed through every input filter in order |
| ChangeTracker.Track | orm/SimpleOrm.php:668-684 | the field's slot becomes the next history slot for the new value; every other slot is unchanged |
| ChangeTracker.TrackKeys | orm/SimpleOrm.php:673-683 | a field already tracked keeps its place in the tracker; a newly tracked one goes last |
| ChangeTracker.TrackFirst | orm/SimpleOrm.php:671-675 | the first change of a field stores the bare value |
| ChangeTracker.TrackSecond | orm/SimpleOrm.php:679-683 | a later change turns a plain slot into the list `[old, new]` |
| ChangeTracker.TrackAppend | orm/SimpleOrm.php:682-683 | a change to a slot that already holds a list appends the new value |
| ChangeTracker.TrackAllSlots | orm/SimpleOrm.php:668-684 | recording changes to one field changes only that field's slot |
| ChangeTracker.SlotHistory | orm/SimpleOrm.php:668-684 | the history of plain values is the bare value after one change, and the ordered list of all of them after more |
| ChangeTracker.TrackHistory | orm/SimpleOrm.php:668-684 | the same history, as held in the tracker for a field that was untracked |
| ChangeTracker.TrackAfterNull | orm/SimpleOrm.php:671 | a first change to null leaves the slot unset for `isset`, so the next change overwrites it instead of starting a list |
| ChangeTracker.IsModified | orm/SimpleOrm.php:656-659 | false exactly when nothing is recorded, otherwise the modification map itself |
| ChangeTracker.SetAssigns | orm/SimpleOrm.php:638-648 | `set` assigns the field and no other; it records nothing when the old value is set and loosely equal, and records the change when the old value is unset, null or loosely different |
| ChangeTracker.SetSameValue | orm/SimpleOrm.php:642 | setting a field to the non-null value it holds records nothing |
| ChangeTracker.SetNullField | orm/SimpleOrm.php:642 | setting a null or unset field records a change even when the new value is null |
| ChangeTracker.SetTwice | orm/SimpleOrm.php:638-684 | two differing `set`s on a field that was not yet tracked, the first of which records a change (the field unset, null or loosely different), leave the list of both values in its slot |
| Statements.Quote | orm/SimpleOrm.php:385 | the identifier between double quotes, and nothing else |
| Statements.BoundFields | orm/SimpleOrm.php:371-378 | the bound fields are exactly the input-filtered snapshot narrowed to the table's columns, without the key when the type says so |
| Statements.CompileInsert | orm/SimpleOrm.php:381-388 | one quoted name, one `?` and one value per bound field, in the map's order |
| Statements.CompileUpdate | orm/SimpleOrm.php:449-458 | one `"col" = ?` assignment and one value per bound field, in order, then the key value last |
| Statements.QuotedKeysFree | orm/SimpleOrm.php:385 | quoted column names that hold no `?` add no placeholder |
| Statements.MarkersCount | orm/SimpleOrm.php:386 | the markers hold one `?` per bound field |
| Statements.SetClausesCount | orm/SimpleOrm.php:453 | the assignments hold one `?` per bound field |
| Statements.InsertTextCount | orm/SimpleOrm.php:391-396 | the INSERT text holds exactly the placeholders of its marker list |
| Statements.UpdateTextCount | orm/SimpleOrm.php:461-465 | the UPDATE text holds the placeholders of its assignments plus one for the key |
| Statements.InsertPlaceholders | orm/SimpleOrm.php:391-396 | the INSERT has one `?` per bound value |
| Statements.UpdatePlaceholders | orm/SimpleOrm.php:457-465 | the UPDATE has one `?` per bound value, and the key value is bound last |
| Statements.DeletePlaceholders | orm/SimpleOrm.php:494 | the DELETE has one `?`, for its one bound value |
| Statements.SelectByPkPlaceholders | orm/SimpleOrm.php:197 | the SELECT by key has one `?`, for its one bound value |
| Finder.PkRejectedExactly | orm/SimpleOrm.php:801-802 | `retrieveByPK` refuses exactly null, false, `""` and the empty array; `0` and `"0"` pass |
| Finder.FieldName | orm/SimpleOrm.php:841 | the column a finder name stands for holds no capital |
| Finder.ParseFinderName | orm/SimpleOrm.php:838-847 | a name is a finder exactly when it starts with `retrieveBy`, and then names the column its suffix maps to |
| Finder.FieldNameRoundTripFrom | orm/SimpleOrm.php:841 | the underscore-and-lower-case mapping loses nothing on alphanumeric text |
| Finder.FieldNameRoundTrip | orm/SimpleOrm.php:841 | an alphanumeric suffix that does not start in lower case is recovered from its column name (`EmailAddress` from `email_address`) |
| Finder.Operator | orm/SimpleOrm.php:867 | `ILIKE` exactly when the search text holds `%`, else `=` |
| Finder.FinderStatement | orm/SimpleOrm.php:867-873 | the statement binds the search value alone; it fails exactly for an array value |
| Finder.FinderLimit | orm/SimpleOrm.php:872-873 | the statement ends in `LIMIT 1` exactly when the fetch mode is the integer `FETCH_ONE` |
| Finder.PercentMatchesAll | orm/SimpleOrm.php:867 | the search text `%` matches every text cell of the column |
| Finder.ExactSearch | orm/SimpleOrm.php:867 | without `%`, a row matches exactly when its cell is non-null and equal to the value |
| RawQuery.NoShortcuts | orm/SimpleOrm.php:714-718 | a query without a colon is sent as written |
| RawQuery.TableShortcut | orm/SimpleOrm.php:714-718 | `:table` at the end of a colon-free query expands to the quoted table name |
| RawQuery.ShortcutsCompound | orm/SimpleOrm.php:714-718 | the replacements run in turn, so a database name that spells `:table` is expanded again |
| RawQuery.AllQueryText | orm/SimpleOrm.php:787-790 | `all` runs `SELECT * FROM "table"` |
| RawQuery.TruncateQueryText | orm/SimpleOrm.php:776-780 | `truncate` runs `TRUNCATE "table"` |
| RawQuery.SelectBoxQuery | orm/SimpleOrm.php:904-908 | every row, with the WHERE text appended only when it is a string |
| RawQuery.PositiveTextCast | orm/SimpleOrm.php:766 | a text that counts as greater than zero casts to a non-negative integer, and a numeric text to its value |
| RawQuery.ClampCount | orm/SimpleOrm.php:766 | the count is never negative; a positive integer or numeric text gives its value, and anything not greater than zero gives 0 |
| Lifecycle.Field | orm/SimpleOrm.php:594-601 | `get($f)` is the property's value, or null when it is not defined |
| Lifecycle.AllNull | orm/SimpleOrm.php:179-180 | after the loop, every column listed reads null |
| Lifecycle.Blank | orm/SimpleOrm.php:17-22 | a fresh object is not new, has an empty tracker and has run no hook |
| Lifecycle.Reload | orm/SimpleOrm.php:192-212 | it succeeds exactly when connected, with a key column, and with a non-null stored key; it changes no row, leaves the entity alone on failure, and touches only the properties |
| Lifecycle.HydrateEmpty | orm/SimpleOrm.php:172-184 | the store is untouched and the tracker and hooks are unchanged |
| Lifecycle.AfterInsert | orm/SimpleOrm.php:406-420 | the entity is no longer new, the tracker is unchanged, no row changes, and `postInsert` runs once when the reload succeeds |
| Lifecycle.InsertStep | orm/SimpleOrm.php:359-421 | the tracker is unchanged, and the hooks grow by nothing, by `preInsert`, or by `preInsert` then `postInsert` |
| Lifecycle.UpdateStep | orm/SimpleOrm.php:429-477 | the properties, `isNew` and hooks are unchanged; success empties the tracker; failure leaves the entity as it was |
| Lifecycle.DeleteStep | orm/SimpleOrm.php:484-503 | the entity is left as it was |
| Lifecycle.Load | orm/SimpleOrm.php:59-77 | before `initialise` the hooks run are none, `preInsert`, or `preInsert` then `postInsert` |
| Lifecycle.ReloadMissingRow | orm/SimpleOrm.php:204-205 | a reload that finds no row throws the not-found exception, code 2 |
| Lifecycle.ReloadCopiesRow | orm/SimpleOrm.php:207-208 | without output filters, every column of the row is copied into the properties and every other property is kept |
| Lifecycle.UpdateNewRejected | orm/SimpleOrm.php:431-432 | `update` of a new entity throws before the connection or store is used, and changes nothing |
| Lifecycle.DeleteNewRejected | orm/SimpleOrm.php:486-487 | `delete` of a new entity throws before the connection or store is used, and changes nothing |
| Lifecycle.SaveNewInserts | orm/SimpleOrm.php:346-347 | `save` of a new entity is `insert` |
| Lifecycle.SaveStoredUpdates | orm/SimpleOrm.php:344-349 | `save` of a stored entity is `update`; on success `isModified()` is false and the properties are unchanged |
| Lifecycle.UpdateSends | orm/SimpleOrm.php:439-465 | the UPDATE sent binds the filtered properties narrowed to the columns (without the key by choice), has one `?` per value, and binds the id last |
| Lifecycle.InsertSends | orm/SimpleOrm.php:365-396 | the INSERT sent binds the pre-`preInsert` snapshot, input-filtered and narrowed to the columns (without the key by choice), and has one `?` per value |
| Lifecycle.InsertStores | orm/SimpleOrm.php:399-420 | after a successful insert the row is stored under a fresh key, the entity is not new, the tracker is kept, each insert hook ran once, and the properties are the reread row under the truthy returned key or the entity's own key |
| Lifecycle.InsertFalsyKey | orm/SimpleOrm.php:407-417 | a falsy returned key is not assigned, so an entity without its own key throws code 2 though the row is stored |
| Lifecycle.DeleteThenLoadMissing | orm/SimpleOrm.php:484-503 | a successful `delete` removes exactly the entity's row (none for a null key), and loading its key afterwards throws the not-found exception |
| Lifecycle.UpdateStores | orm/SimpleOrm.php:461-476 | a successful `update` changes no row when the key is null or not stored; otherwise the row takes each bound filtered property, keeps every other column, and moves to the bound key when the key column is set, with no other row changed |
| Lifecycle.SetThenSavePersists | orm/SimpleOrm.php:344-350 | without input filters, a value `set` on a stored entity is in its row after a successful `save`, when the column is bound |
| Lifecycle.ConstructEmpty | orm/SimpleOrm.php:172-184 | `LOAD_EMPTY` sets every column null before `initialise`, marks the entity new and leaves the store untouched |
| Lifecycle.ConstructByMissingKey | orm/SimpleOrm.php:204-205 | `LOAD_BY_PK` with a key that is not stored throws code 2 and changes no row |
| Lifecycle.ConstructByKey | orm/SimpleOrm.php:142-149 | `LOAD_BY_PK` with a stored key reads that row over the key property, then filters and initialises |
| Lifecycle.ConstructByArray | orm/SimpleOrm.php:156-164 | `LOAD_BY_ARRAY` never touches the store; the object is the data over the blank properties, filtered and initialised |
| Lifecycle.InitialisedHooks | orm/SimpleOrm.php:79 | after a load, `initialise` runs once and last if the load succeeded, and not at all otherwise |
| Lifecycle.InitialiseOnce | orm/SimpleOrm.php:52-80 | in every load mode `initialise` runs exactly once, last, when the load succeeds, and never when it throws |
| Lifecycle.SetThenGet | orm/SimpleOrm.php:645 | after `set`, `get` returns the new value, every other property reads as before, and `isNew` and the hooks are unchanged |
| SimpleOrm.SelectBoxEntries | orm/SimpleOrm.php:912-913 | one entry per object: its key and its string form |
| SimpleOrm.Entity.constructor | orm/SimpleOrm.php:17-22 | the object before loading: the declared properties, all null, not new, empty tracker |
| SimpleOrm.Entity.Clone | orm/SimpleOrm.php:579 | the copy has every property of the original |
| SimpleOrm.Entity.AssignFields | orm/SimpleOrm.php:159-160 | the properties become the data assigned over them in order; nothing else changes |
| SimpleOrm.Entity.ExecuteOutputFilters | orm/SimpleOrm.php:313-320 | the properties are passed through every output filter in order; nothing else changes |
| SimpleOrm.Entity.HydrateFromDatabase | orm/SimpleOrm.php:192-212 | outcome, entity and store are as `Lifecycle.Reload` says |
| SimpleOrm.Entity.LoadByPK | orm/SimpleOrm.php:142-149 | the key assigned, then the reload |
| SimpleOrm.Entity.LoadByArray | orm/SimpleOrm.php:156-164 | the data assigned, then the output filters |
| SimpleOrm.Entity.HydrateEmpty | orm/SimpleOrm.php:172-184 | outcome and entity are as `Lifecycle.HydrateEmpty` says |
| SimpleOrm.Entity.Initialise | orm/SimpleOrm.php:304-306 | `initialise` runs on the properties and is recorded once |
| SimpleOrm.Entity.Insert | orm/SimpleOrm.php:359-421 | outcome, entity and store are as `Lifecycle.InsertStep` says |
| SimpleOrm.Entity.FinishInsert | orm/SimpleOrm.php:406-420 | outcome, entity and store are as `Lifecycle.AfterInsert` says |
| SimpleOrm.Entity.Update | orm/SimpleOrm.php:429-477 | outcome, entity and store are as `Lifecycle.UpdateStep` says |
| SimpleOrm.Entity.Delete | orm/SimpleOrm.php:484-503 | the entity is unchanged, and outcome and store are as `Lifecycle.DeleteStep` says |
| SimpleOrm.Entity.Save | orm/SimpleOrm.php:344-350 | outcome, entity and store are as `Lifecycle.SaveStep` says |
| SimpleOrm.Entity.Revert | orm/SimpleOrm.php:575-586 | the object is reloaded as `Lifecycle.Reload` says |
| SimpleOrm.Entity.RevertCopy | orm/SimpleOrm.php:577-583 | a fresh reloaded copy, or the reload's error; this object is unchanged |
| SimpleOrm.Entity.RecordModification | orm/SimpleOrm.php:668-684 | the tracker becomes `Track` of the old tracker; nothing else changes |
| SimpleOrm.Entity.Set | orm/SimpleOrm.php:638-648 | returns the object itself, whose state becomes `SetStep` of the old one |
| SimpleOrm.Instantiate | orm/SimpleOrm.php:52-80 | a fresh object in the state `Lifecycle.Construct` gives, or that function's exception and store |
| SimpleOrm.RetrieveByPK | orm/SimpleOrm.php:798-807 | a refused key throws before the store is used; any other key loads by key |
| SimpleOrm.Hydrate | orm/SimpleOrm.php:816-824 | non-array data throws; an array gives a fresh object loaded from it, without using the store |
| SimpleOrm.HydrateRows | orm/SimpleOrm.php:732-733 | one fresh object per row, each `hydrate` of its row, in order |
| SimpleOrm.Collect | orm/SimpleOrm.php:883-891 | under `FETCH_ONE` the first object or null (null exactly for no rows), otherwise the list of all |
| SimpleOrm.RetrieveByField | orm/SimpleOrm.php:859-892 | a non-string field, a missing connection or an array value throws before anything is sent; otherwise the statement is logged, and the objects are the matching rows (all of them, or at most one under `FETCH_ONE`) |
| SimpleOrm.CallStatic | orm/SimpleOrm.php:834-848 | a name without `retrieveBy` throws, and so does a finder name without arguments; otherwise, for the column the suffix names, the first argument as value and the fetch mode from the second, a missing connection or an array value throws before anything is sent, the finder statement is logged, an unknown column throws, and the objects are the distinct matching rows: every one of them, or at most one under `FETCH_ONE` and none only when no row matches |
| SimpleOrm.Sql | orm/SimpleOrm.php:708-740 | the query is sent after the shortcuts are replaced; `FETCH_NONE` returns nothing; otherwise the rows are hydrated, giving the first or null under `FETCH_ONE` and the list otherwise |
| SimpleOrm.Count | orm/SimpleOrm.php:748-767 | the query is sent after the shortcuts are replaced, and the first value fetched is clamped |
| SimpleOrm.Truncate | orm/SimpleOrm.php:776-780 | `TRUNCATE :table` is sent; it succeeds exactly when the store accepts it |
| SimpleOrm.All | orm/SimpleOrm.php:787-790 | `SELECT * FROM :table` is sent, and every row is hydrated, in order |
| SimpleOrm.BuildSelectBoxValues | orm/SimpleOrm.php:902-916 | the map from each object's key to its string form, a later object overwriting an earlier one with the same key; a type without a string form fails on the first object |
| SimpleOrm.SelectBoxValues | orm/SimpleOrm.php:910-915 | its loop assigns each object's string form under its key, in order |
| SimpleOrm.FetchArgument | orm/SimpleOrm.php:859 | the fetch mode is the second argument when given, `FETCH_MANY` otherwise |

## Left out

- The PDO driver and its configuration (`database/db.php`, `config/database.php`, `postgress/exemples.php`) are left out: they are I/O. `useConnection` only fills the registry slot; its `setAttribute` call (line 98) is not modelled.
- The demo scripts (`index.php`, `postgress/index.php`) and `autoloader.php` are not part of this model. The concrete entities (`model/User.php`, `postgress/User.php`) appear only as the shape of a `Binding.TableBinding`: their filters call library functions (`ucwords`, `password_hash`, `date`) that the model cannot see.
- Reflection is left out:
  - Filters are found by method-name prefix (lines 315-319, 329-333). The model takes explicit ordered filter lists instead, taken to be in declaration order.
  - `convertObjectToArray` (lines 611-629) is replaced by the explicit property map.
  - `__toString` is an optional function of the properties.
- What the database does with SQL is not modelled; the store abstracts PostgreSQL:
  - a serial key sequence;
  - rejection of unknown columns and duplicate or null keys;
  - `ILIKE` as ASCII case-folded `LIKE`, without escape characters (a backslash does not make `%` or `_` literal).
- The rows a raw query returns (`sql`, `count`, `all`, `truncate`, `buildSelectBoxValues`) are a parameter `run`, because arbitrary SQL cannot be modelled. What the query does to the stored rows is not modelled.
- The order in which the store returns finder rows is left open.
- The column-list query of `getColumnNames` (lines 511-534) is the store's column list. Its statement is not logged.
- The text of exception messages is left out. So is the wrapping of driver exceptions (lines 403, 472, 501, 532, 724, 763, 880), which passes on the driver's error code cast to an integer.
- Unmodelled code:
  - `parseValueType` is dead code;
  - `parent()` carries no behaviour of the engine;
  - the `erLoadData` branch of `hydrateEmpty` (lines 175-177) reads a property that is never set.
- `getLoadMethod`, `getLoadData`, `getDatabaseName`, `getTablePk` and `isNew()` appear only as the fields they return. They are `Entity.load`, `Database.database`, `TableBinding.pk` and `Entity.isNew`.
- `SimpleOrm.HydrateRows`: hydrates every fetched row. The PHP fetch loops (lines 732 and 884) stop early at a row that is an empty array, which a query selecting no columns returns (such as raw SQL `SELECT FROM :table`); the model does not stop there.
- `Errors.Code`: only the model's own codes are stated. A wrapped driver exception keeps the driver's code cast to an integer, and an SQLSTATE such as `"2F005"` casts to 2, so in the source code 2 does not single out a missing record.
- `Store.StoreSelect`, `Store.StoreUpdate`, `Store.StoreDelete` and `Store.RowMatches`: keys and `=` comparisons use the model's value equality. The database's coercion of bound text to the column type is not modelled: the text `"5"` does not find the row with integer key 5, though PostgreSQL would.
- `Store.NewRow`: a column the INSERT does not bind is null in the new row. Column defaults and triggers are not modelled; the source rereads the row after the insert (line 416) to pick them up, and the model's reread finds the null.
- `Binding.TableBinding`: every declared property starts null (`Lifecycle.Blank`); a property default a subclass declares, such as `true`, is not representable. Hooks and filters are functions of the properties alone: they cannot call `set`, touch the change tracker or reach the store.
- `Lifecycle.InsertStep`: the tracker is unchanged after an insert only because hooks, in the model, cannot call `set`. In PHP, a `preInsert` or `postInsert` that calls `set` records a change.
- `SimpleOrm.BuildSelectBoxValues` and `SimpleOrm.SelectBoxEntries`: keys stay PHP values. PHP's array-key normalisation (the text `"5"` and the integer 5 are one key, null becomes `""`, `true` becomes 1) is not modelled, so two objects whose keys PHP would merge give two entries here.
- `Lifecycle.SetStep`, `Lifecycle.LoadArray`, `Lifecycle.Reload`, `SimpleOrm.Entity.Set` and `SimpleOrm.Entity.AssignFields`: every field name is an ordinary public property. In PHP these run inside the class, so a name of one of the engine's own properties (`isNew`, `modifiedFields`, `loadMethod`, `loadData`, `reflectionObject`, `parentObject`, `ignoreKeyOnInsert`, `ignoreKeyOnUpdate`) overwrites that internal state: `set("isNew", true)` makes the next `save` an insert. The model keeps the engine's state apart from the properties, so `Lifecycle.SetThenGet` and `ChangeTracker.SetAssigns` hold for these names too, where PHP does otherwise.
- `SimpleOrm.CallStatic`: models `__callStatic` only for names that are not methods of the class. PHP resolves a declared static method first and matches method names case-insensitively, so `retrieveByPk`, `retrieveByfield`, `all` and `count` never reach it; the model sends `retrieveByPk` to a finder on column `pk` and reports no method for `all`.
- `PhpValue.LooseEq`: numeric strings are optionally signed decimal integers. The leading and trailing white space, decimal points and exponents PHP 8 also accepts are not handled, and floats are not modelled, because the engine binds only the values it is given.
- `PhpValue.IntCast`: `(int)` of a string reads the leading integer only; float-looking text such as `"1e3"` is not handled.
- PHP's 64-bit integer overflow is not modelled: integers are unbounded.
- Concurrency and transactions are not modelled: the engine has none.
- `SimpleOrm.Entity.RevertCopy`: `clone` is a shallow copy. The model copies the abstract state; aliasing of properties that hold objects is not modelled, and properties hold only scalar values and lists here.
