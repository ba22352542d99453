/** The few pieces of PHP and SQL semantics the authorization layer leans on:
    nullable values, truthiness, the `(int)` cast of a header string, ASCII case
    mapping, and the "first row" / "next id" choices of the database. */
module Php {

  datatype Option<+T> = None | Some(value: T)

  /** A scalar as it arrives from JSON or from a decoded `array` column. */
  datatype Scalar = Null | Bool(b: bool) | Int(i: int) | Str(s: string)

  /** PHP's `!$x` for strings: the empty string and "0" are falsy. */
  predicate TruthyString(s: string)
  {
    s != "" && s != "0"
  }

  /** PHP's conversion of a scalar to bool (what a `: bool` return type does in
      non-strict mode, and what `if ($x)` tests). */
  predicate Truthy(v: Scalar)
  {
    match v
    case Null => false
    case Bool(b) => b
    case Int(i) => i != 0
    case Str(s) => TruthyString(s)
  }

  /** `!$id` for a nullable integer column. */
  predicate FalsyId(id: Option<int>)
  {
    id.None? || id.value == 0
  }

  // ---------------------------------------------------------------------------
  // The integer cast of a header string
  // ---------------------------------------------------------------------------

  predicate IsDigit(c: char)
  {
    '0' <= c <= '9'
  }

  /** The whitespace PHP skips before a numeric prefix. */
  predicate IsSpace(c: char)
  {
    c == ' ' || c == '\t' || c == '\n' || c == '\r' || c == '\U{000B}' || c == '\U{000C}'
  }

  function SkipSpaces(s: string): (r: string)
    ensures |r| <= |s| && r == s[|s| - |r|..]
    ensures r != [] ==> !IsSpace(r[0])
  {
    if s != [] && IsSpace(s[0]) then SkipSpaces(s[1..]) else s
  }

  /** The longest prefix of `s` made of decimal digits. */
  function LeadingDigits(s: string): (r: string)
    ensures r <= s
    ensures forall i :: 0 <= i < |r| ==> IsDigit(r[i])
    ensures |r| < |s| ==> !IsDigit(s[|r|])
  {
    if s != [] && IsDigit(s[0]) then [s[0]] + LeadingDigits(s[1..]) else []
  }

  function DigitValue(c: char): nat
    requires IsDigit(c)
  {
    c as int - '0' as int
  }

  /** The value of a string of decimal digits, most significant first. */
  function DigitsValue(d: string): nat
    requires forall i :: 0 <= i < |d| ==> IsDigit(d[i])
  {
    if d == [] then 0 else 10 * DigitsValue(d[..|d| - 1]) + DigitValue(d[|d| - 1])
  }

  /** PHP's `(int) $s`: skip leading whitespace, read an optional sign and the
      decimal digits that follow; no digits gives 0. The lookups of the model
      also use it for the database's comparison of an integer key with a
      string id, which agrees with it on integer strings. */
  function IntCast(s: string): int
  {
    var t := SkipSpaces(s);
    if t != [] && t[0] == '-' then -(DigitsValue(LeadingDigits(t[1..])) as int)
    else if t != [] && t[0] == '+' then DigitsValue(LeadingDigits(t[1..]))
    else DigitsValue(LeadingDigits(t))
  }

  function DigitChar(n: nat): (c: char)
    requires n < 10
    ensures IsDigit(c) && DigitValue(c) == n
  {
    ('0' as int + n) as char
  }

  /** The decimal rendering of a natural number, as a client sends an id. */
  function DecimalString(n: nat): (r: string)
    ensures r != [] && forall i :: 0 <= i < |r| ==> IsDigit(r[i])
  {
    if n < 10 then [DigitChar(n)] else DecimalString(n / 10) + [DigitChar(n % 10)]
  }

  /** A positive number never renders as "" or "0". */
  lemma DecimalOfPositiveIsTruthy(n: nat)
    requires n != 0
    ensures TruthyString(DecimalString(n))
  {
    if n < 10 {
      assert DecimalString(n) == [DigitChar(n)];
      assert DigitValue(DigitChar(n)) != DigitValue('0');
    } else {
      assert |DecimalString(n)| == |DecimalString(n / 10)| + 1 >= 2;
    }
  }

  lemma {:induction false} DigitsValueOfDecimal(n: nat)
    ensures DigitsValue(DecimalString(n)) == n
  {
    var d := DecimalString(n);
    if n >= 10 {
      assert d[..|d| - 1] == DecimalString(n / 10);
      DigitsValueOfDecimal(n / 10);
    } else {
      assert d[..|d| - 1] == [];
    }
  }

  lemma {:induction false} LeadingDigitsOfDigits(d: string)
    requires forall i :: 0 <= i < |d| ==> IsDigit(d[i])
    ensures LeadingDigits(d) == d
  {
    if d != [] {
      LeadingDigitsOfDigits(d[1..]);
    }
  }

  /** Casting the decimal rendering of an id gives the id back: the header "3"
      names condominium 3. */
  lemma IntCastOfDecimal(n: nat)
    ensures IntCast(DecimalString(n)) == n
  {
    var d := DecimalString(n);
    IntCastOfDigits(d);
    LeadingDigitsOfDigits(d);
    DigitsValueOfDecimal(n);
  }

  lemma IntCastOfDigits(d: string)
    requires d != [] && IsDigit(d[0])
    ensures IntCast(d) == DigitsValue(LeadingDigits(d))
  {
    assert !IsSpace(d[0]);
    assert SkipSpaces(d) == d;
    assert d[0] != '-' && d[0] != '+';
  }

  // ---------------------------------------------------------------------------
  // Case mapping (ASCII only, as PHP's ucfirst and PCRE's /i without /u)
  // ---------------------------------------------------------------------------

  function ToUpper(c: char): (u: char)
    ensures 'a' <= c <= 'z' ==> u as int == c as int - 32
    ensures !('a' <= c <= 'z') ==> u == c
  {
    if 'a' <= c <= 'z' then (c as int - 32) as char else c
  }

  function ToLower(c: char): (l: char)
    ensures 'A' <= c <= 'Z' ==> l as int == c as int + 32
    ensures !('A' <= c <= 'Z') ==> l == c
  {
    if 'A' <= c <= 'Z' then (c as int + 32) as char else c
  }

  /** `ucfirst($s)`: the first byte upper-cased (ASCII), the rest untouched. */
  function Ucfirst(s: string): (r: string)
    ensures |r| == |s|
    ensures s != "" ==> r[0] == ToUpper(s[0]) && r[1..] == s[1..]
  {
    if s == "" then "" else [ToUpper(s[0])] + s[1..]
  }

  lemma UcfirstIdempotent(s: string)
    ensures Ucfirst(Ucfirst(s)) == Ucfirst(s)
  {
    if s != "" {
      var r := Ucfirst(s);
      assert ToUpper(ToUpper(s[0])) == ToUpper(s[0]);
      assert r == [r[0]] + r[1..];
    }
  }

  // ---------------------------------------------------------------------------
  // Row choices of the database
  // ---------------------------------------------------------------------------

  lemma {:induction false} LeastExists(s: set<int>)
    requires exists x :: x in s
    ensures exists x :: x in s && forall y :: y in s ==> x <= y
    decreases s
  {
    var x :| x in s;
    var rest := s - {x};
    if exists v :: v in rest {
      LeastExists(rest);
      var m :| m in rest && forall y :: y in rest ==> m <= y;
      var least := if x < m then x else m;
      forall y | y in s
        ensures least <= y
      {
        if y != x {
          assert y in rest;
        }
      }
      assert least in s;
    } else {
      forall y | y in s
        ensures x <= y
      {
        assert y == x || y in rest;
      }
    }
  }

  /** The row a query without ORDER BY returns first: the one with the least
      primary key. */
  function Least(s: set<int>): (r: int)
    requires exists x :: x in s
    ensures r in s && forall y :: y in s ==> r <= y
  {
    LeastExists(s);
    var x :| x in s && forall y :: y in s ==> x <= y;
    x
  }

  /** The id an auto-increment column hands to a new row. */
  function FreshId(used: set<int>): (r: int)
    ensures r >= 1 && r !in used
  {
    if exists w :: w in used then
      var negated := set x | x in used :: -x;
      assert exists w :: w in used && -w in negated;
      var top := -Least(negated);
      assert forall y :: y in used ==> -y in negated;
      assert forall y :: y in used ==> top >= y;
      if top < 1 then 1 else top + 1
    else 1
  }
}
