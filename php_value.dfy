/** PHP scalar values as the engine sees them, and the three PHP 8 rules the
    engine leans on: truthiness (an `if` condition, `empty`), loose comparison
    (`==`/`!=`) and the integer cast `(int)`. */
module PhpValue {
  import opened Wrappers
  import opened PhpString

  /** A PHP value stored in an entity property or a table cell. Lists stand
      for the numerically indexed arrays the change tracker builds. */
  datatype Value =
    | VNull
    | VBool(b: bool)
    | VInt(i: int)
    | VStr(s: string)
    | VList(items: seq<Value>)

  /** What an `if` condition on `v` decides: null, false, 0, "", "0" and the empty array are false. */
  predicate Truthy(v: Value)
  {
    match v
    case VNull => false
    case VBool(b) => b
    case VInt(i) => i != 0
    case VStr(s) => s != "" && s != "0"
    case VList(xs) => |xs| > 0
  }

  /** `isset`: defined and not null. */
  predicate IsSet(v: Option<Value>)
  {
    v.Some? && v.value != VNull
  }

  /** A numeric string: an optionally signed run of decimal digits. */
  predicate IsNumericString(s: string)
  {
    if |s| > 0 && (s[0] == '+' || s[0] == '-') then |s| > 1 && AllDigits(s[1..])
    else |s| > 0 && AllDigits(s)
  }

  function NumericValue(s: string): int
    requires IsNumericString(s)
  {
    if s[0] == '-' then -(DigitsValue(s[1..]) as int)
    else if s[0] == '+' then DigitsValue(s[1..])
    else DigitsValue(s)
  }

  /** `is_numeric`. */
  predicate IsNumeric(v: Value)
  {
    match v
    case VInt(_) => true
    case VStr(s) => IsNumericString(s)
    case _ => false
  }

  /** PHP 8 loose equality `==`: a boolean operand turns the other into a
      boolean; null equals "" and every falsy value; two numeric operands
      compare as numbers; other strings compare as text; lists compare
      element by element; a list never equals a scalar. */
  predicate LooseEq(a: Value, b: Value)
  {
    match (a, b)
    case (VBool(x), _) => x == Truthy(b)
    case (_, VBool(y)) => Truthy(a) == y
    case (VNull, VNull) => true
    case (VNull, VStr(t)) => t == ""
    case (VStr(s), VNull) => s == ""
    case (VNull, _) => !Truthy(b)
    case (_, VNull) => !Truthy(a)
    case (VInt(x), VInt(y)) => x == y
    case (VInt(x), VStr(t)) => IsNumericString(t) && NumericValue(t) == x
    case (VStr(s), VInt(y)) => IsNumericString(s) && NumericValue(s) == y
    case (VStr(s), VStr(t)) =>
      if IsNumericString(s) && IsNumericString(t) then NumericValue(s) == NumericValue(t) else s == t
    case (VList(xs), VList(ys)) => |xs| == |ys| && forall k :: 0 <= k < |xs| ==> LooseEq(xs[k], ys[k])
    case _ => false
  }

  lemma {:induction false} LooseEqReflexive(a: Value)
    ensures LooseEq(a, a)
  {
    match a
    case VList(xs) =>
      forall k | 0 <= k < |xs| ensures LooseEq(xs[k], xs[k]) {
        LooseEqReflexive(xs[k]);
      }
    case _ =>
  }

  lemma {:induction false} LooseEqSymmetric(a: Value, b: Value)
    ensures LooseEq(a, b) == LooseEq(b, a)
  {
    match (a, b)
    case (VList(xs), VList(ys)) =>
      if |xs| == |ys| {
        forall k | 0 <= k < |xs| ensures LooseEq(xs[k], ys[k]) == LooseEq(ys[k], xs[k]) {
          LooseEqSymmetric(xs[k], ys[k]);
        }
      }
    case _ =>
  }

  /** An integer and its decimal text are loosely equal ("1" == 1). */
  lemma IntLooseEqItsText(i: int)
    ensures LooseEq(VInt(i), VStr(IntToString(i)))
  {
    var s := IntToString(i);
    if i < 0 {
      assert s[0] == '-' && s[1..] == NatToString(-i);
      NatToStringRoundTrip(-i);
    } else {
      assert s == NatToString(i) && s[0] != '-' && s[0] != '+';
      NatToStringRoundTrip(i);
    }
    assert IsNumericString(s) && NumericValue(s) == i;
  }

  /** Loose equality is not transitive: "0" == false and false == null, yet "0" != null. */
  lemma LooseEqNotTransitive()
    ensures LooseEq(VStr("0"), VBool(false)) && LooseEq(VBool(false), VNull)
    ensures !LooseEq(VStr("0"), VNull)
  {
  }

  /** The string form `strpos` works on; an array is a type error. */
  function ToPhpString(v: Value): (r: Option<string>)
    ensures r.None? <==> v.VList?
  {
    match v
    case VNull => Some("")
    case VBool(b) => Some(if b then "1" else "")
    case VInt(i) => Some(IntToString(i))
    case VStr(s) => Some(s)
    case VList(_) => None
  }

  predicate IsSpace(c: char) { c == ' ' || c == '\t' || c == '\n' || c == '\r' || c == '\U{B}' || c == '\U{C}' }

  /** The longest prefix of `s` made of digits. */
  function DigitPrefix(s: string): (r: string)
    ensures AllDigits(r) && |r| <= |s| && r == s[..|r|]
  {
    if s != [] && IsDigit(s[0]) then [s[0]] + DigitPrefix(s[1..]) else []
  }

  /** `(int)` of a string: skip leading white space, read an optional sign
      and the digits that follow; anything else reads as 0. */
  function LeadingInt(s: string): int
  {
    if s != [] && IsSpace(s[0]) then LeadingInt(s[1..])
    else if s != [] && s[0] == '-' then -(DigitsValue(DigitPrefix(s[1..])) as int)
    else if s != [] && s[0] == '+' then DigitsValue(DigitPrefix(s[1..]))
    else DigitsValue(DigitPrefix(s))
  }

  /** `(int)` of a value. */
  function IntCast(v: Value): int
  {
    match v
    case VNull => 0
    case VBool(b) => if b then 1 else 0
    case VInt(i) => i
    case VStr(s) => LeadingInt(s)
    case VList(xs) => if |xs| > 0 then 1 else 0
  }

  /** Byte-wise string order, as PHP compares two non-numeric strings. */
  predicate StrLess(a: string, b: string)
  {
    if a == [] then b != []
    else if b == [] then false
    else if a[0] != b[0] then a[0] < b[0]
    else StrLess(a[1..], b[1..])
  }

  /** PHP 8's comparison of `v` above zero. A non-numeric string is compared with "0" as text;
      an array is greater than any integer. */
  predicate GreaterThanZero(v: Value)
  {
    match v
    case VNull => false
    case VBool(b) => b
    case VInt(i) => i > 0
    case VStr(s) => if IsNumericString(s) then NumericValue(s) > 0 else StrLess("0", s)
    case VList(_) => true
  }
}
