/** The exceptions the engine throws, by kind. */
module Errors {

  datatype Error =
    | ConnectionNotConfigured  // the connection registry is empty
    | SchemaLookupError        // the column list of the table came back empty
    | RecordNotFound           // a load by key found no row
    | InvalidStateError        // update or delete of a record that is still new
    | PersistenceError         // the store rejected a statement
    | InvalidArgument          // a malformed key, non-array data or a non-string field name
    | NoSuchStaticMethod       // a static call without the `retrieveBy` prefix
    | TypeError                // a value PHP cannot turn into a string
    | MissingArgument          // a call without a required argument

  /** The exception code: only the not-found exception carries a marker (2). */
  function Code(e: Error): (c: int)
    ensures c == 2 <==> e == RecordNotFound
  {
    if e == RecordNotFound then 2 else 0
  }
}
