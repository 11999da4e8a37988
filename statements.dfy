/** How `insert`, `update`, `delete` and `hydrateFromDatabase` assemble the
    statements they send: the bound field map, the quoted identifiers, the
    `?` markers and the positional values. */
module Statements {
  import opened Wrappers
  import opened PhpString
  import opened PhpValue
  import opened PhpArray
  import opened Store
  import opened Binding

  /** The entries of a bound field map, in order. */
  type Entries = seq<(string, Value)>

  /** An identifier in double quotes, as every generated statement writes it. */
  function Quote(name: string): (q: string)
    ensures |q| == |name| + 2 && q[0] == '"' && q[|q| - 1] == '"' && q[1..|q| - 1] == name
  {
    "\"" + name + "\""
  }

  /** Quoting adds no character but the quotes. */
  lemma QuoteFree(name: string, c: char)
    requires c != '"' && c !in name
    ensures c !in Quote(name)
  {
    var q := Quote(name);
    forall i | 0 <= i < |q| ensures q[i] != c {
      if 0 < i < |q| - 1 {
        assert q[i] == name[i - 1];
      }
    }
  }

  /** The fields a save binds: the snapshot after the input filters, narrowed
      to the table's columns, without the key column when the entity type
      asks for that. */
  function BoundFields(filters: seq<Filter>, snapshot: Fields, columns: seq<string>, pk: string, ignoreKey: bool): (r: Fields)
    ensures forall k :: Lookup(r, k) == if k in columns && !(ignoreKey && k == pk) then Lookup(Chain(filters, snapshot), k) else None
    ensures KnownColumns(columns, r)
    ensures ignoreKey ==> pk !in Keys(r)
  {
    var kept := IntersectKeys(Chain(filters, snapshot), columns);
    var r := if ignoreKey then Unset(kept, pk) else kept;
    assert forall k :: k in Keys(r) ==> Lookup(r, k).Some?;
    r
  }

  /** The quoted names of the bound fields, in order. */
  function QuotedKeys(bound: Entries): (names: seq<string>)
    ensures |names| == |bound|
  {
    seq(|bound|, i requires 0 <= i < |bound| => Quote(bound[i].0))
  }

  /** `n` placeholders. */
  function Markers(n: nat): (ms: seq<string>)
    ensures |ms| == n
  {
    seq(n, i => "?")
  }

  /** The `"col" = ?` assignments of an UPDATE, in order. */
  function SetClauses(bound: Entries): (fields: seq<string>)
    ensures |fields| == |bound|
  {
    seq(|bound|, i requires 0 <= i < |bound| => Quote(bound[i].0) + " = ?")
  }

  /** The loop of `insert`: one quoted name, one marker and one value per bound field. */
  method CompileInsert(bound: Entries) returns (names: seq<string>, markers: seq<string>, values: seq<Value>)
    ensures names == QuotedKeys(bound) && markers == Markers(|bound|) && values == Values(bound)
  {
    ghost var allNames, allMarkers, allValues := QuotedKeys(bound), Markers(|bound|), Values(bound);
    names, markers, values := [], [], [];
    for i := 0 to |bound|
      invariant names == allNames[..i]
      invariant markers == allMarkers[..i]
      invariant values == allValues[..i]
    {
      assert allNames[..i + 1] == allNames[..i] + [Quote(bound[i].0)];
      assert allMarkers[..i + 1] == allMarkers[..i] + ["?"];
      assert allValues[..i + 1] == allValues[..i] + [bound[i].1];
      names := names + [Quote(bound[i].0)];
      markers := markers + ["?"];
      values := values + [bound[i].1];
    }
    assert allNames[..|bound|] == allNames;
    assert allMarkers[..|bound|] == allMarkers;
    assert allValues[..|bound|] == allValues;
  }

  /** The loop of `update`: one assignment and one value per bound field, and
      the key value last for the WHERE clause. */
  method CompileUpdate(bound: Entries, id: Value) returns (fields: seq<string>, values: seq<Value>)
    ensures fields == SetClauses(bound) && values == Values(bound) + [id]
  {
    ghost var allFields, allValues := SetClauses(bound), Values(bound);
    fields, values := [], [];
    for i := 0 to |bound|
      invariant fields == allFields[..i]
      invariant values == allValues[..i]
    {
      assert allFields[..i + 1] == allFields[..i] + [Quote(bound[i].0) + " = ?"];
      assert allValues[..i + 1] == allValues[..i] + [bound[i].1];
      fields := fields + [Quote(bound[i].0) + " = ?"];
      values := values + [bound[i].1];
    }
    assert allFields[..|bound|] == allFields;
    assert allValues[..|bound|] == allValues;
    values := values + [id];
  }

  function InsertSql(table: string, names: seq<string>, markers: seq<string>, pk: string): string
  {
    "INSERT INTO " + Quote(table) + " (" + Join(names, ", ") + ") VALUES (" + Join(markers, ", ") + ") RETURNING " + Quote(pk)
  }

  function UpdateSql(table: string, fields: seq<string>, pk: string): string
  {
    "UPDATE " + Quote(table) + " SET " + Join(fields, ", ") + " WHERE " + Quote(pk) + " = ?"
  }

  /** The INSERT `insert` prepares for the bound fields. */
  function InsertStatement(table: string, bound: Entries, pk: string): Statement
  {
    Statement(InsertSql(table, QuotedKeys(bound), Markers(|bound|), pk), Values(bound))
  }

  /** The UPDATE `update` prepares for the bound fields and the row key `id`. */
  function UpdateStatement(table: string, bound: Entries, pk: string, id: Value): Statement
  {
    Statement(UpdateSql(table, SetClauses(bound), pk), Values(bound) + [id])
  }

  /** The DELETE `delete` prepares. */
  function DeleteStatement(table: string, pk: string, id: Value): Statement
  {
    Statement("DELETE FROM " + Quote(table) + " WHERE " + Quote(pk) + " = ?", [id])
  }

  /** The SELECT `hydrateFromDatabase` prepares; note its trailing semicolon. */
  function SelectByPkStatement(table: string, pk: string, id: Value): Statement
  {
    Statement("SELECT * FROM " + Quote(table) + " WHERE " + Quote(pk) + " = ?;", [id])
  }

  /** A statement whose text has exactly one placeholder per bound value. */
  predicate Placeheld(st: Statement)
  {
    CountChar(st.sql, '?') == |st.params|
  }

  /** No table, key or column name contains a question mark. */
  predicate PlainName(name: string) { '?' !in name }

  /** A name free of `?` followed by one `?` holds exactly one. */
  lemma {:induction false} CountOneAfter(a: string, c: char)
    requires c !in a
    ensures CountChar(a + [c], c) == 1
  {
    CountCharAppend(a, [c], c);
    assert [c][1..] == [];
  }

  lemma EqualsMarkerCount()
    ensures CountChar(" = ?", '?') == 1
  {
    CountOneAfter(" = ", '?');
    assert " = " + "?" == " = ?";
  }

  lemma {:induction false} SumCountOnes(parts: seq<string>, c: char)
    requires forall i :: 0 <= i < |parts| ==> CountChar(parts[i], c) == 1
    ensures SumCount(parts, c) == |parts|
  {
    if parts != [] {
      assert forall i :: 0 <= i < |parts| - 1 ==> parts[1..][i] == parts[i + 1];
      SumCountOnes(parts[1..], c);
    }
  }

  lemma {:induction false} SumCountFree(parts: seq<string>, c: char)
    requires forall i :: 0 <= i < |parts| ==> c !in parts[i]
    ensures SumCount(parts, c) == 0
  {
    if parts != [] {
      assert forall i :: 0 <= i < |parts| - 1 ==> parts[1..][i] == parts[i + 1];
      SumCountFree(parts[1..], c);
    }
  }

  lemma {:induction false} MarkersCount(n: nat)
    ensures SumCount(Markers(n), '?') == n
  {
    forall i | 0 <= i < n ensures CountChar(Markers(n)[i], '?') == 1 {
      CountOneAfter("", '?');
      assert "" + "?" == "?";
    }
    SumCountOnes(Markers(n), '?');
  }

  lemma {:induction false} SetClausesCount(bound: Entries)
    requires forall k :: k in Keys(bound) ==> PlainName(k)
    ensures SumCount(SetClauses(bound), '?') == |bound|
  {
    forall i | 0 <= i < |bound| ensures CountChar(SetClauses(bound)[i], '?') == 1 {
      assert Keys(bound)[i] == bound[i].0;
      assert bound[i].0 in Keys(bound);
      QuoteFree(bound[i].0, '?');
      EqualsMarkerCount();
      CountCharAppend(Quote(bound[i].0), " = ?", '?');
    }
    SumCountOnes(SetClauses(bound), '?');
  }

  lemma {:induction false} QuotedKeysFree(bound: Entries)
    requires forall k :: k in Keys(bound) ==> PlainName(k)
    ensures SumCount(QuotedKeys(bound), '?') == 0
  {
    forall i | 0 <= i < |bound| ensures '?' !in QuotedKeys(bound)[i] {
      assert Keys(bound)[i] == bound[i].0;
      assert bound[i].0 in Keys(bound);
      QuoteFree(bound[i].0, '?');
    }
    SumCountFree(QuotedKeys(bound), '?');
  }

  /** Occurrences add up over a concatenation of seven pieces. */
  lemma {:induction false} CountSeven(a: string, b: string, d: string, e: string, f: string, g: string, h: string, c: char)
    ensures CountChar(a + b + d + e + f + g + h, c)
         == CountChar(a, c) + CountChar(b, c) + CountChar(d, c) + CountChar(e, c) + CountChar(f, c) + CountChar(g, c) + CountChar(h, c)
  {
    CountCharAppend(a, b, c);
    CountCharAppend(a + b, d, c);
    CountCharAppend(a + b + d, e, c);
    CountCharAppend(a + b + d + e, f, c);
    CountCharAppend(a + b + d + e + f, g, c);
    CountCharAppend(a + b + d + e + f + g, h, c);
  }

  /** Text pieces free of `c` between four parts add no occurrence of `c`. */
  lemma {:induction false} InterleavedCount(p1: string, x1: string, p2: string, x2: string,
                                            p3: string, x3: string, p4: string, x4: string, c: char)
    requires c !in p1 && c !in p2 && c !in p3 && c !in p4
    ensures CountChar(p1 + x1 + p2 + x2 + p3 + x3 + p4 + x4, c)
         == CountChar(x1, c) + CountChar(x2, c) + CountChar(x3, c) + CountChar(x4, c)
  {
    CountSeven(p1, x1, p2, x2, p3, x3, p4, c);
    CountCharAppend(p1 + x1 + p2 + x2 + p3 + x3 + p4, x4, c);
  }

  lemma {:induction false} InsertTextCount(qt: string, names: string, markers: string, qpk: string, n: nat)
    requires CountChar(names, '?') == 0 && CountChar(markers, '?') == n && '?' !in qt && '?' !in qpk
    ensures CountChar("INSERT INTO " + qt + " (" + names + ") VALUES (" + markers + ") RETURNING " + qpk, '?') == n
  {
    InterleavedCount("INSERT INTO ", qt, " (", names, ") VALUES (", markers, ") RETURNING ", qpk, '?');
  }

  lemma {:induction false} UpdateTextCount(qt: string, fields: string, qpk: string, n: nat)
    requires CountChar(fields, '?') == n && '?' !in qt && '?' !in qpk
    ensures CountChar("UPDATE " + qt + " SET " + fields + " WHERE " + qpk + " = ?", '?') == n + 1
  {
    EqualsMarkerCount();
    CountSeven("UPDATE ", qt, " SET ", fields, " WHERE ", qpk, " = ?", '?');
  }

  /** The INSERT carries one placeholder per bound value. */
  lemma {:induction false} InsertPlaceholders(table: string, bound: Entries, pk: string)
    requires PlainName(table) && PlainName(pk) && forall k :: k in Keys(bound) ==> PlainName(k)
    ensures Placeheld(InsertStatement(table, bound, pk))
  {
    JoinCount(QuotedKeys(bound), ", ", '?');
    QuotedKeysFree(bound);
    JoinCount(Markers(|bound|), ", ", '?');
    MarkersCount(|bound|);
    QuoteFree(table, '?');
    QuoteFree(pk, '?');
    InsertTextCount(Quote(table), Join(QuotedKeys(bound), ", "), Join(Markers(|bound|), ", "), Quote(pk), |bound|);
  }

  /** The UPDATE carries one placeholder per bound value plus the WHERE key, which is bound last. */
  lemma {:induction false} UpdatePlaceholders(table: string, bound: Entries, pk: string, id: Value)
    requires PlainName(table) && PlainName(pk) && forall k :: k in Keys(bound) ==> PlainName(k)
    ensures Placeheld(UpdateStatement(table, bound, pk, id))
    ensures UpdateStatement(table, bound, pk, id).params[|bound|] == id
  {
    JoinCount(SetClauses(bound), ", ", '?');
    SetClausesCount(bound);
    QuoteFree(table, '?');
    QuoteFree(pk, '?');
    UpdateTextCount(Quote(table), Join(SetClauses(bound), ", "), Quote(pk), |bound|);
  }

  lemma {:induction false} DeletePlaceholders(table: string, pk: string, id: Value)
    requires PlainName(table) && PlainName(pk)
    ensures Placeheld(DeleteStatement(table, pk, id))
  {
    QuoteFree(table, '?');
    QuoteFree(pk, '?');
    var a := "DELETE FROM " + Quote(table) + " WHERE " + Quote(pk) + " = ";
    CountOneAfter(a, '?');
    assert DeleteStatement(table, pk, id).sql == a + "?";
  }

  lemma {:induction false} SelectByPkPlaceholders(table: string, pk: string, id: Value)
    requires PlainName(table) && PlainName(pk)
    ensures Placeheld(SelectByPkStatement(table, pk, id))
  {
    QuoteFree(table, '?');
    QuoteFree(pk, '?');
    var a := "SELECT * FROM " + Quote(table) + " WHERE " + Quote(pk) + " = ";
    CountOneAfter(a, '?');
    CountCharAppend(a + "?", ";", '?');
    assert SelectByPkStatement(table, pk, id).sql == a + "?" + ";";
  }
}
