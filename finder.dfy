/** The static finders' pure parts: the key guard of `retrieveByPK`, the
    method-name parsing of `__callStatic`, and the statement
    `retrieveByField` prepares. */
module Finder {
  import opened Wrappers
  import opened PhpString
  import opened PhpValue
  import opened Store
  import opened Statements
  import opened Errors
  import opened PhpArray

  const FETCH_ONE := 1
  const FETCH_MANY := 2
  const FETCH_NONE := 3

  /** The keys `retrieveByPK` refuses: those that are empty in PHP's sense
      and are not numeric. */
  predicate PkRejected(pk: Value)
  {
    !Truthy(pk) && !IsNumeric(pk)
  }

  /** Exactly null, false, the empty string and the empty array are refused;
      `0`, `"0"` and every other key pass to the load. */
  lemma PkRejectedExactly(pk: Value)
    ensures PkRejected(pk) <==> pk in {VNull, VBool(false), VStr(""), VList([])}
  {
    assert IsNumericString("0") by {
      assert AllDigits("0");
    }
    if pk.VStr? && pk.s != "" && pk.s != "0" {
      assert Truthy(pk);
    }
  }

  /** The regular-expression rewrite of a finder name: an underscore before
      every capital that follows a word character. `afterWord` says whether the
      character before `s` was one. */
  function InsertUnderscores(s: string, afterWord: bool): string
  {
    if s == [] then []
    else
      (if IsUpper(s[0]) && afterWord then "_" + [s[0]] else [s[0]]) + InsertUnderscores(s[1..], IsWordChar(s[0]))
  }

  /** The column a finder method name's suffix stands for: `EmailAddress` is `email_address`. */
  function FieldName(suffix: string): (f: string)
    ensures forall i :: 0 <= i < |f| ==> !IsUpper(f[i])
  {
    var f := ToLower(InsertUnderscores(suffix, false));
    ToLowerIdempotent(InsertUnderscores(suffix, false));
    f
  }

  /** `__callStatic`: a name starting with `retrieveBy` names the finder on
      the column its suffix stands for; any other name has no method. */
  function ParseFinderName(name: string): (r: Option<string>)
    ensures r.Some? <==> |name| >= 10 && name[..10] == "retrieveBy"
    ensures r.Some? ==> r.value == FieldName(name[10..])
  {
    if |name| >= 10 && name[..10] == "retrieveBy" then Some(FieldName(name[10..])) else None
  }

  predicate IsAlnum(c: char) { IsUpper(c) || IsLower(c) || IsDigit(c) }

  /** The camel-case spelling of a snake-case column name, capitalising the
      first letter and each one after an underscore. */
  function Camel(f: string, capital: bool): string
  {
    if f == [] then []
    else if f[0] == '_' then Camel(f[1..], true)
    else [if capital then UpperChar(f[0]) else f[0]] + Camel(f[1..], false)
  }

  lemma CamelCons(c: char, t: string, capital: bool)
    requires c != '_'
    ensures Camel([c] + t, capital) == [if capital then UpperChar(c) else c] + Camel(t, capital && false)
  {
    assert ([c] + t)[1..] == t;
  }

  /** The suffix can be read back from the column name: the name mapping
      loses nothing on alphanumeric suffixes that start with a capital or a digit. */
  lemma {:induction false} FieldNameRoundTripFrom(s: string, afterWord: bool)
    requires forall i :: 0 <= i < |s| ==> IsAlnum(s[i])
    requires afterWord || s == [] || !IsLower(s[0])
    ensures Camel(ToLower(InsertUnderscores(s, afterWord)), !afterWord) == s
  {
    if s != [] {
      var c, t := s[0], s[1..];
      var rest := InsertUnderscores(t, true);
      assert IsWordChar(c);
      FieldNameRoundTripFrom(t, true);
      var l := LowerChar(c);
      if IsUpper(c) && afterWord {
        assert InsertUnderscores(s, afterWord) == ['_', c] + rest;
        ToLowerAppend(['_', c], rest);
        assert ToLower(['_', c]) == ['_', l];
        assert ['_', l] + ToLower(rest) == ['_'] + ([l] + ToLower(rest));
        CamelCons(l, ToLower(rest), true);
        assert [c] + t == s;
      } else {
        assert InsertUnderscores(s, afterWord) == [c] + rest;
        ToLowerAppend([c], rest);
        assert ToLower([c]) == [l];
        CamelCons(l, ToLower(rest), !afterWord);
        assert [c] + t == s;
      }
    }
  }

  lemma FieldNameRoundTrip(s: string)
    requires forall i :: 0 <= i < |s| ==> IsAlnum(s[i])
    requires s == [] || !IsLower(s[0])
    ensures Camel(FieldName(s), true) == s
  {
    FieldNameRoundTripFrom(s, false);
  }

  /** The comparison `retrieveByField` uses: `ILIKE` when the search text holds a `%`, else `=`. */
  function Operator(text: string): (op: string)
    ensures op in {"=", "ILIKE"}
    ensures op == "ILIKE" <==> '%' in text
  {
    if '%' in text then "ILIKE" else "="
  }

  /** The statement `retrieveByField` prepares, or the type error `strpos`
      raises for an array value. `LIMIT 1` is added only for the exact
      integer `FETCH_ONE`. */
  function FinderStatement(table: string, field: string, value: Value, fetch: Value): (r: Result<Statement, Error>)
    ensures r.Err? <==> value.VList?
    ensures r.Ok? ==> r.value.params == [value]
  {
    match ToPhpString(value)
    case None => Err(TypeError)
    case Some(text) =>
      var sql := "SELECT * FROM " + Quote(table) + " WHERE " + Quote(field) + " " + Operator(text) + " ?";
      Ok(Statement(if fetch == VInt(FETCH_ONE) then sql + " LIMIT 1" else sql, [value]))
  }

  predicate EndsWithLimit(sql: string)
  {
    |sql| >= 8 && sql[|sql| - 8..] == " LIMIT 1"
  }

  /** The finder's statement ends in `LIMIT 1` exactly when one record was asked for. */
  lemma FinderLimit(table: string, field: string, value: Value, fetch: Value)
    requires !value.VList?
    ensures EndsWithLimit(FinderStatement(table, field, value, fetch).value.sql) <==> fetch == VInt(FETCH_ONE)
  {
    var text := ToPhpString(value).value;
    var sql := "SELECT * FROM " + Quote(table) + " WHERE " + Quote(field) + " " + Operator(text) + " ?";
    assert sql[|sql| - 1] == '?';
    if fetch == VInt(FETCH_ONE) {
      assert (sql + " LIMIT 1")[|sql + " LIMIT 1"| - 8..] == " LIMIT 1";
    }
  }

  /** A bare `%` as the search text matches every text cell of the column. */
  lemma PercentMatchesAll(row: Fields, field: string)
    requires Lookup(row, field).Some? && Lookup(row, field).value.VStr?
    ensures RowMatches(row, field, Operator("%"), VStr("%"))
  {
    assert ToLower("%") == "%";
    LikeAnything(ToLower(Lookup(row, field).value.s));
  }

  /** Without a wildcard the finder compares for equality: only non-null cells holding exactly the bound value match. */
  lemma ExactSearch(row: Fields, field: string, value: Value)
    requires ToPhpString(value).Some? && '%' !in ToPhpString(value).value
    ensures RowMatches(row, field, Operator(ToPhpString(value).value), value)
            <==> value != VNull && Lookup(row, field) == Some(value)
  {
  }
}
