/** The two string helpers of the front end: `capitalizeFirstLetter` and
    `formatPhone`. A JavaScript value that may be null or undefined is an
    `Option<string>`; `!x` holds for None and for the empty string. */
module FunctionsJs {
  import opened Php

  predicate Falsy(x: Option<string>)
  {
    x.None? || x.value == ""
  }

  /** `capitalizeFirstLetter(str)`: `str.charAt(0).toUpperCase() + str.slice(1)`,
      the same first-character mapping as PHP's `ucfirst`. */
  function CapitalizeFirstLetter(str: Option<string>): (r: string)
    ensures Falsy(str) ==> r == ""
    ensures !Falsy(str) ==>
      |r| == |str.value| && r[0] == ToUpper(str.value[0]) && r[1..] == str.value[1..]
  {
    if Falsy(str) then "" else Ucfirst(str.value)
  }

  /** Capitalizing twice is capitalizing once. */
  lemma CapitalizeIdempotent(str: Option<string>)
    ensures CapitalizeFirstLetter(Some(CapitalizeFirstLetter(str))) == CapitalizeFirstLetter(str)
  {
    if !Falsy(str) {
      UcfirstIdempotent(str.value);
    }
  }

  // ---------------------------------------------------------------------------
  // formatPhone
  // ---------------------------------------------------------------------------

  /** `phone.replace(/\D/g, "")`: the decimal digits of `s`, in order. */
  function Digits(s: string): (d: string)
    ensures |d| <= |s|
    ensures forall i :: 0 <= i < |d| ==> IsDigit(d[i])
  {
    if s == [] then []
    else if IsDigit(s[0]) then [s[0]] + Digits(s[1..])
    else Digits(s[1..])
  }

  lemma {:induction false} DigitsOfConcat(a: string, b: string)
    ensures Digits(a + b) == Digits(a) + Digits(b)
  {
    if a != [] {
      assert (a + b)[0] == a[0];
      assert (a + b)[1..] == a[1..] + b;
      DigitsOfConcat(a[1..], b);
    } else {
      assert a + b == b;
    }
  }

  lemma {:induction false} DigitsOfDigits(d: string)
    requires forall i :: 0 <= i < |d| ==> IsDigit(d[i])
    ensures Digits(d) == d
  {
    if d != [] {
      DigitsOfDigits(d[1..]);
      assert d == [d[0]] + d[1..];
    }
  }

  /** `(\d{2})(\d{5})(\d{4})` replaced by `($1) $2-$3`, and its ten-digit sibling:
      the area code in parentheses, then the number split by a dash. */
  function Grouped(d: string, middle: nat): string
    requires |d| == 2 + middle + 4
  {
    "(" + (d[..2] + (") " + (d[2..2 + middle] + ("-" + d[2 + middle..]))))
  }

  /** `formatPhone(phone)` */
  function FormatPhone(phone: Option<string>): (r: string)
    ensures Falsy(phone) ==> r == ""
  {
    if Falsy(phone) then ""
    else
      var d := Digits(phone.value);
      if |d| == 11 then Grouped(d, 5)
      else if |d| == 10 then Grouped(d, 4)
      else d
  }

  /** The shape "(DD) DDDDD-DDDD" (middle 5) or "(DD) DDDD-DDDD" (middle 4). */
  predicate Shaped(r: string, middle: nat)
  {
    |r| == 2 + middle + 4 + 4 &&
    r[0] == '(' && IsDigit(r[1]) && IsDigit(r[2]) && r[3] == ')' && r[4] == ' ' &&
    (forall i :: 5 <= i < 5 + middle ==> IsDigit(r[i])) &&
    r[5 + middle] == '-' &&
    (forall i :: 6 + middle <= i < |r| ==> IsDigit(r[i]))
  }

  lemma GroupedIsShaped(d: string, middle: nat)
    requires |d| == 2 + middle + 4
    requires forall i :: 0 <= i < |d| ==> IsDigit(d[i])
    ensures Shaped(Grouped(d, middle), middle)
  {
    var r := Grouped(d, middle);
    assert forall i :: 5 <= i < 5 + middle ==> r[i] == d[i - 3];
    assert forall i :: 6 + middle <= i < |r| ==> r[i] == d[i - 4];
  }

  /** A leading run of digits is kept as it is. */
  lemma DigitsOfDigitsThen(x: string, y: string)
    requires forall i :: 0 <= i < |x| ==> IsDigit(x[i])
    ensures Digits(x + y) == x + Digits(y)
  {
    DigitsOfConcat(x, y);
    DigitsOfDigits(x);
  }

  /** A leading run of separators is dropped. */
  lemma {:induction false} DigitsOfSeparatorsThen(sep: string, y: string)
    requires forall i :: 0 <= i < |sep| ==> !IsDigit(sep[i])
    ensures Digits(sep + y) == Digits(y)
  {
    if sep != [] {
      var s := sep + y;
      assert s[0] == sep[0];
      assert s[1..] == sep[1..] + y;
      DigitsOfSeparatorsThen(sep[1..], y);
    } else {
      assert sep + y == y;
    }
  }

  /** The three separators of a formatted number hold no digit. */
  lemma SeparatorsHaveNoDigit()
    ensures forall i :: 0 <= i < |"("| ==> !IsDigit("("[i])
    ensures forall i :: 0 <= i < |") "| ==> !IsDigit(") "[i])
    ensures forall i :: 0 <= i < |"-"| ==> !IsDigit("-"[i])
  {
    assert "(" == ['('];
    assert ") " == [')', ' '];
    assert "-" == ['-'];
  }

  /** The digits of ") b-c", for runs of digits b and c. */
  lemma DigitsOfNumber(b: string, c: string)
    requires forall i :: 0 <= i < |b| ==> IsDigit(b[i])
    requires forall i :: 0 <= i < |c| ==> IsDigit(c[i])
    ensures Digits(") " + (b + ("-" + c))) == b + c
  {
    var s2 := "-" + c;
    SeparatorsHaveNoDigit();
    DigitsOfSeparatorsThen("-", c);
    DigitsOfDigits(c);
    var s1 := b + s2;
    DigitsOfDigitsThen(b, s2);
    DigitsOfSeparatorsThen(") ", s1);
  }

  /** The digits of "(a) b-c", for runs of digits a, b and c. */
  lemma DigitsOfParts(a: string, b: string, c: string)
    requires forall i :: 0 <= i < |a| ==> IsDigit(a[i])
    requires forall i :: 0 <= i < |b| ==> IsDigit(b[i])
    requires forall i :: 0 <= i < |c| ==> IsDigit(c[i])
    ensures Digits("(" + (a + (") " + (b + ("-" + c))))) == a + (b + c)
  {
    var s2 := ") " + (b + ("-" + c));
    DigitsOfNumber(b, c);
    var s1 := a + s2;
    DigitsOfDigitsThen(a, s2);
    SeparatorsHaveNoDigit();
    DigitsOfSeparatorsThen("(", s1);
  }

  /** Every slice of a run of digits is one. */
  lemma SliceOfDigits(d: string, i: nat, j: nat)
    requires i <= j <= |d|
    requires forall k :: 0 <= k < |d| ==> IsDigit(d[k])
    ensures forall k :: 0 <= k < |d[i..j]| ==> IsDigit(d[i..j][k])
  {
    assert forall k :: 0 <= k < |d[i..j]| ==> d[i..j][k] == d[i + k];
  }

  /** The separators carry no digit, so grouping keeps the digits. */
  lemma DigitsOfGrouped(d: string, middle: nat)
    requires |d| == 2 + middle + 4
    requires forall i :: 0 <= i < |d| ==> IsDigit(d[i])
    ensures Digits(Grouped(d, middle)) == d
  {
    SliceOfDigits(d, 0, 2);
    SliceOfDigits(d, 2, 2 + middle);
    SliceOfDigits(d, 2 + middle, |d|);
    assert d[..2] == d[0..2];
    assert d[2 + middle..] == d[2 + middle..|d|];
    DigitsOfParts(d[..2], d[2..2 + middle], d[2 + middle..]);
    ThreeParts(d, 2, 2 + middle);
  }

  lemma ThreeParts(d: string, i: nat, j: nat)
    requires i <= j <= |d|
    ensures d[..i] + (d[i..j] + d[j..]) == d
  {
    assert d[i..] == d[i..j] + d[j..];
    assert d == d[..i] + d[i..];
  }

  /** Eleven digits give "(DD) DDDDD-DDDD", ten give "(DD) DDDD-DDDD", any other
      count gives the bare digits. */
  lemma FormatPhoneShape(phone: Option<string>)
    requires !Falsy(phone)
    ensures var n := |Digits(phone.value)|;
      var r := FormatPhone(phone);
      (n == 11 ==> Shaped(r, 5)) &&
      (n == 10 ==> Shaped(r, 4)) &&
      (n != 10 && n != 11 ==> r == Digits(phone.value))
  {
    var d := Digits(phone.value);
    if |d| == 11 {
      GroupedIsShaped(d, 5);
    } else if |d| == 10 {
      GroupedIsShaped(d, 4);
    }
  }

  /** Dropping the non-digits of the output gives back the digits of the input. */
  lemma FormatPhoneKeepsDigits(phone: Option<string>)
    requires !Falsy(phone)
    ensures Digits(FormatPhone(phone)) == Digits(phone.value)
  {
    var d := Digits(phone.value);
    if |d| == 11 {
      DigitsOfGrouped(d, 5);
    } else if |d| == 10 {
      DigitsOfGrouped(d, 4);
    } else {
      DigitsOfDigits(d);
    }
  }

  /** Formatting a formatted number changes nothing. */
  lemma FormatPhoneIdempotent(phone: Option<string>)
    ensures FormatPhone(Some(FormatPhone(phone))) == FormatPhone(phone)
  {
    var r := FormatPhone(phone);
    if r != "" {
      FormatPhoneKeepsDigits(phone);
      var d := Digits(phone.value);
      if |d| != 10 && |d| != 11 {
        DigitsOfDigits(d);
      }
    }
  }
}
