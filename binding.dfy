/** What a concrete entity type declares to the engine: its table binding,
    its public properties, its hooks and its filters, and the filter pipeline
    that runs them. */
module Binding {
  import opened Wrappers
  import opened PhpString
  import opened PhpValue
  import opened Store

  /** A filter or hook: a transformation of an attribute map. */
  type Filter = Fields -> Fields

  datatype TableBinding = TableBinding(
    className: string,
    table: Option<string>,              // the static `$table`, when declared and not null
    pk: string,                         // the static `$pk`
    declared: seq<string>,              // the public properties, in declaration order
    outputFilters: seq<Filter>,         // the `filterOut...` methods, in declaration order
    inputFilters: seq<Filter>,          // the `filterIn...` methods, in declaration order
    initialise: Filter,                 // `initialise()`
    preInsert: Filter,                  // `preInsert()`
    postInsert: Filter,                 // `postInsert()`
    display: Option<Fields -> string>,  // `__toString()`, when declared
    ignoreKeyOnInsert: bool,
    ignoreKeyOnUpdate: bool)

  /** `getTableName`: the declared table, else the lower-cased class name. */
  function TableName(b: TableBinding): (t: string)
    ensures b.table.Some? ==> t == b.table.value
    ensures b.table.None? ==> t == ToLower(b.className)
  {
    if b.table.Some? then b.table.value else ToLower(b.className)
  }

  /** The identity, which is what the base class's hooks do. */
  function NoOp(a: Fields): Fields { a }

  /** An entity type that overrides nothing: key column `id`, table named
      after the class, no filters, no-op hooks, no string form, and the key
      left out of both INSERT and UPDATE. */
  function DefaultBinding(className: string, declared: seq<string>): (b: TableBinding)
    ensures b.pk == "id" && TableName(b) == ToLower(className)
    ensures b.outputFilters == [] && b.inputFilters == [] && b.display.None?
    ensures forall a :: b.initialise(a) == a && b.preInsert(a) == a && b.postInsert(a) == a
    ensures b.ignoreKeyOnInsert && b.ignoreKeyOnUpdate
  {
    TableBinding(className, None, "id", declared, [], [], NoOp, NoOp, NoOp, None, true, true)
  }

  /** The default table name never has a capital in it and keeps the class name's length. */
  lemma DefaultTableName(b: TableBinding)
    requires b.table.None?
    ensures |TableName(b)| == |b.className|
    ensures forall i :: 0 <= i < |b.className| ==> !IsUpper(TableName(b)[i])
    ensures TableName(b) == ToLower(TableName(b))
  {
    ToLowerIdempotent(b.className);
  }

  /** The filters run in order, each on the previous one's result. */
  function Chain(fs: seq<Filter>, a: Fields): Fields
  {
    if fs == [] then a else fs[|fs| - 1](Chain(fs[..|fs| - 1], a))
  }

  /** Running two lists of filters one after the other is running their concatenation. */
  lemma {:induction false} ChainAppend(fs: seq<Filter>, gs: seq<Filter>, a: Fields)
    ensures Chain(fs + gs, a) == Chain(gs, Chain(fs, a))
  {
    if gs == [] {
      assert fs + gs == fs;
    } else {
      var front := gs[..|gs| - 1];
      assert (fs + gs)[..|fs + gs| - 1] == fs + front;
      ChainAppend(fs, front, a);
    }
  }

  /** `executeInputFilters`: passes the candidate map through every input
      filter in turn and returns the last result. */
  method ExecuteInputFilters(fs: seq<Filter>, a: Fields) returns (r: Fields)
    ensures r == Chain(fs, a)
  {
    r := a;
    for i := 0 to |fs|
      invariant r == Chain(fs[..i], a)
    {
      assert fs[..i + 1][..i] == fs[..i];
      r := fs[i](r);
    }
    assert fs[..|fs|] == fs;
  }
}
