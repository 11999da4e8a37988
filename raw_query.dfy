/** The raw-SQL helpers: the `:database`, `:table` and `:pk` shortcuts that
    `sql` and `count` expand, the clamping of the count, and the query
    texts of `all`, `truncate` and `buildSelectBoxValues`. */
module RawQuery {
  import opened PhpString
  import opened PhpValue
  import opened Statements

  /** The three `str_replace` calls, applied one after the other. */
  function ApplyShortcuts(sql: string, database: string, table: string, pk: string): string
  {
    var s1 := ReplaceAll(sql, ":database", database);
    var s2 := ReplaceAll(s1, ":table", Quote(table));
    ReplaceAll(s2, ":pk", Quote(pk))
  }

  /** A query without a colon is sent as written. */
  lemma NoShortcuts(sql: string, database: string, table: string, pk: string)
    requires ':' !in sql
    ensures ApplyShortcuts(sql, database, table, pk) == sql
  {
    ReplaceAllAbsent(sql, ":database", database);
    ReplaceAllAbsent(sql, ":table", Quote(table));
    ReplaceAllAbsent(sql, ":pk", Quote(pk));
  }

  /** `:table` expands to the quoted table name. */
  lemma {:induction false} TableShortcut(prefix: string, database: string, table: string, pk: string)
    requires ':' !in prefix && ':' !in table
    ensures ApplyShortcuts(prefix + ":table", database, table, pk) == prefix + Quote(table)
  {
    ReplaceAllSplit(prefix, ":table", ":database", database);
    assert ReplaceAll(":table", ":database", database) == ":table" by {
      assert ":table"[1..] == "table";
      ReplaceAllAbsent("table", ":database", database);
    }
    ReplaceAllSplit(prefix, ":table", ":table", Quote(table));
    assert ReplaceAll(":table", ":table", Quote(table)) == Quote(table) by {
      ReplaceAllPrefix([], ":table", Quote(table));
      assert ":table" + [] == ":table";
    }
    assert ':' !in Quote(table) by {
      QuoteFree(table, ':');
    }
    ReplaceAllAbsent(prefix + Quote(table), ":pk", Quote(pk));
  }

  /** Since the shortcuts are expanded in turn, a database name that itself
      spells `:table` is expanded a second time. */
  lemma ShortcutsCompound(table: string, pk: string)
    requires ':' !in table
    ensures ApplyShortcuts(":database", ":table", table, pk) == Quote(table)
  {
    assert ReplaceAll(":database", ":database", ":table") == ":table" by {
      ReplaceAllPrefix([], ":database", ":table");
      assert ":database" + [] == ":database";
    }
    assert ReplaceAll(":table", ":table", Quote(table)) == Quote(table) by {
      ReplaceAllPrefix([], ":table", Quote(table));
      assert ":table" + [] == ":table";
    }
    QuoteFree(table, ':');
    ReplaceAllAbsent(Quote(table), ":pk", Quote(pk));
  }

  /** The query of `all`. */
  const ALL_QUERY := "SELECT * FROM :table"
  /** The query of `truncate`. */
  const TRUNCATE_QUERY := "TRUNCATE :table"

  lemma AllQueryText(database: string, table: string, pk: string)
    requires ':' !in table
    ensures ApplyShortcuts(ALL_QUERY, database, table, pk) == "SELECT * FROM " + Quote(table)
  {
    assert ALL_QUERY == "SELECT * FROM " + ":table";
    TableShortcut("SELECT * FROM ", database, table, pk);
  }

  lemma TruncateQueryText(database: string, table: string, pk: string)
    requires ':' !in table
    ensures ApplyShortcuts(TRUNCATE_QUERY, database, table, pk) == "TRUNCATE " + Quote(table)
  {
    assert TRUNCATE_QUERY == "TRUNCATE " + ":table";
    TableShortcut("TRUNCATE ", database, table, pk);
  }

  /** The query of `buildSelectBoxValues`: every row, or those the WHERE text admits when it is a string. */
  function SelectBoxQuery(where: Value): (q: string)
    ensures !where.VStr? ==> q == ALL_QUERY
    ensures where.VStr? ==> q == ALL_QUERY + " WHERE " + where.s
  {
    if where.VStr? then ALL_QUERY + " WHERE " + where.s else ALL_QUERY
  }

  lemma {:induction false} DigitPrefixOfDigits(s: string)
    requires AllDigits(s)
    ensures DigitPrefix(s) == s
  {
    if s != [] {
      DigitPrefixOfDigits(s[1..]);
    }
  }

  /** A text PHP counts as greater than zero casts to a non-negative
      integer, and a numeric one to its value. */
  lemma PositiveTextCast(s: string)
    requires GreaterThanZero(VStr(s))
    ensures LeadingInt(s) >= 0
    ensures IsNumericString(s) ==> LeadingInt(s) == NumericValue(s)
  {
    if IsNumericString(s) {
      if s[0] == '+' {
        DigitPrefixOfDigits(s[1..]);
      } else {
        DigitPrefixOfDigits(s);
      }
    } else {
      assert s != [] && s[0] >= '0';
    }
  }

  /** The count a `count` query reports: the fetched value cast to an integer
      when it compares above zero, and zero otherwise. */
  function ClampCount(fetched: Value): (n: int)
    ensures n >= 0
    ensures fetched.VInt? ==> n == if fetched.i > 0 then fetched.i else 0
    ensures fetched.VStr? && IsNumericString(fetched.s) ==>
              n == if NumericValue(fetched.s) > 0 then NumericValue(fetched.s) else 0
    ensures !GreaterThanZero(fetched) ==> n == 0
  {
    if GreaterThanZero(fetched) then
      (if fetched.VStr? then PositiveTextCast(fetched.s); IntCast(fetched) else IntCast(fetched))
    else 0
  }
}
