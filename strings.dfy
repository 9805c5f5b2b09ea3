/**
 * The string operations of the Kotlin standard library that the core relies on:
 * `String.split(delimiter)` with a single-character delimiter, and `String.toIntOrNull()`.
 */
module Strings {
  import opened Options

  /** Rejoins fields with the delimiter between them (the inverse of `Split`). */
  function Join(parts: seq<string>, sep: char): string
  {
    if |parts| == 0 then ""
    else if |parts| == 1 then parts[0]
    else parts[0] + [sep] + Join(parts[1..], sep)
  }

  /**
   * Kotlin's `s.split(sep)`: the maximal delimiter-free pieces between the delimiters, including
   * empty pieces at either end; `""` splits into `[""]`.
   */
  function Split(s: string, sep: char): (r: seq<string>)
    ensures |r| >= 1
    decreases |s|
  {
    if |s| == 0 then [""]
    else
      var rest := Split(s[1..], sep);
      if s[0] == sep then [""] + rest
      else [[s[0]] + rest[0]] + rest[1..]
  }

  /** No field contains the delimiter. */
  lemma {:induction false} SplitFieldsNoSep(s: string, sep: char)
    ensures forall i :: 0 <= i < |Split(s, sep)| ==> sep !in Split(s, sep)[i]
    decreases |s|
  {
    if |s| > 0 {
      SplitFieldsNoSep(s[1..], sep);
      var rest := Split(s[1..], sep);
      if s[0] != sep {
        var r := [[s[0]] + rest[0]] + rest[1..];
        assert forall i :: 1 <= i < |r| ==> r[i] == rest[i];
      }
    }
  }

  /** Joining the fields with the delimiter gives back the string. */
  lemma {:induction false} JoinSplit(s: string, sep: char)
    ensures Join(Split(s, sep), sep) == s
    decreases |s|
  {
    if |s| > 0 {
      JoinSplit(s[1..], sep);
      var rest := Split(s[1..], sep);
      assert s == [s[0]] + s[1..];
      if s[0] == sep {
        assert ([""] + rest)[1..] == rest;
      } else {
        var r := [[s[0]] + rest[0]] + rest[1..];
        assert r[1..] == rest[1..];
        assert Join(r, sep) == [s[0]] + Join(rest, sep);
      }
    }
  }

  /** A string without the delimiter is a single field. */
  lemma {:induction false} SplitNoSep(x: string, sep: char)
    requires sep !in x
    ensures Split(x, sep) == [x]
    decreases |x|
  {
    if |x| > 0 {
      assert sep !in x[1..];
      SplitNoSep(x[1..], sep);
      assert [x[0]] + x[1..] == x;
    }
  }

  /** The first delimiter ends the first field: `split(x + sep + y) == [x] + split(y)`. */
  lemma {:induction false} SplitAtFirst(x: string, sep: char, y: string)
    requires sep !in x
    ensures Split(x + [sep] + y, sep) == [x] + Split(y, sep)
    decreases |x|
  {
    var s := x + [sep] + y;
    if |x| == 0 {
      assert s[1..] == y;
    } else {
      assert s[1..] == x[1..] + [sep] + y;
      assert sep !in x[1..];
      SplitAtFirst(x[1..], sep, y);
      assert [x[0]] + x[1..] == x;
    }
  }

  /** Splitting the join of delimiter-free fields gives the fields back. */
  lemma {:induction false} SplitJoin(parts: seq<string>, sep: char)
    requires |parts| >= 1
    requires forall i :: 0 <= i < |parts| ==> sep !in parts[i]
    ensures Split(Join(parts, sep), sep) == parts
    decreases |parts|
  {
    if |parts| == 1 {
      SplitNoSep(parts[0], sep);
    } else {
      SplitJoin(parts[1..], sep);
      SplitAtFirst(parts[0], sep, Join(parts[1..], sep));
      assert [parts[0]] + parts[1..] == parts;
    }
  }

  /** The first field of `x + rest`, where `rest` is empty or starts with the delimiter, is `x`. */
  lemma {:induction false} SplitFirstField(x: string, sep: char, rest: string)
    requires sep !in x
    requires rest == [] || rest[0] == sep
    ensures Split(x + rest, sep)[0] == x
  {
    if rest == [] {
      assert x + rest == x;
      SplitNoSep(x, sep);
    } else {
      assert x + rest == x + [sep] + rest[1..];
      SplitAtFirst(x, sep, rest[1..]);
    }
  }

  // ---------------------------------------------------------------------------------------
  // Integer parsing and printing (Kotlin `Int`, 32-bit signed)

  const IntMin: int := -0x8000_0000
  const IntMax: int := 0x7FFF_FFFF

  predicate IsDigit(c: char) { '0' <= c <= '9' }

  predicate AllDigits(s: string) { forall i :: 0 <= i < |s| ==> IsDigit(s[i]) }

  /** The value of a string of decimal digits, most significant first. */
  function DigitsValue(s: string): nat
    requires AllDigits(s)
  {
    if |s| == 0 then 0
    else DigitsValue(s[..|s| - 1]) * 10 + (s[|s| - 1] as int - '0' as int)
  }

  /** An optional leading `-` or `+`, then at least one decimal digit and nothing else. */
  predicate Numeral(s: string)
  {
    |s| >= 1 && (AllDigits(s) || ((s[0] == '-' || s[0] == '+') && |s| >= 2 && AllDigits(s[1..])))
  }

  /** The signed value of a numeral. */
  function NumeralValue(s: string): int
    requires Numeral(s)
  {
    if s[0] == '-' then -(DigitsValue(s[1..]) as int)
    else if s[0] == '+' then DigitsValue(s[1..])
    else DigitsValue(s)
  }

  /**
   * Kotlin's `toIntOrNull()` (radix 10): an optional leading `-` or `+` followed by at least one
   * decimal digit, whose value must fit in a 32-bit `Int`; anything else gives null.
   */
  function ToIntOrNull(s: string): (r: Option<int>)
    ensures r.Some? ==> IntMin <= r.value <= IntMax
    ensures |s| == 0 ==> r.None?
    ensures r.Some? <==> Numeral(s) && IntMin <= NumeralValue(s) <= IntMax
    ensures r.Some? ==> r.value == NumeralValue(s)
  {
    if |s| == 0 then None
    else if s[0] < '0' then
      if |s| == 1 then None
      else if s[0] == '-' then
        if AllDigits(s[1..]) && -(DigitsValue(s[1..]) as int) >= IntMin then Some(-(DigitsValue(s[1..]) as int)) else None
      else if s[0] == '+' then
        if AllDigits(s[1..]) && DigitsValue(s[1..]) <= IntMax then Some(DigitsValue(s[1..])) else None
      else None
    else if AllDigits(s) && DigitsValue(s) <= IntMax then Some(DigitsValue(s))
    else None
  }

  /** Decimal rendering of a natural number, without leading zeros. */
  function ShowNat(n: nat): (r: string)
    ensures |r| >= 1 && AllDigits(r)
  {
    (if n >= 10 then ShowNat(n / 10) else "") + [('0' as int + n % 10) as char]
  }

  /** Decimal rendering of an integer, with a leading `-` when negative (Kotlin's `toString()`). */
  function ShowInt(n: int): string
  {
    if n < 0 then "-" + ShowNat(-n) else ShowNat(n)
  }

  /** Appending a digit multiplies the value by ten and adds the digit. */
  lemma DigitsValueSnoc(p: string, c: char)
    requires AllDigits(p) && IsDigit(c)
    ensures AllDigits(p + [c]) && DigitsValue(p + [c]) == DigitsValue(p) * 10 + (c as int - '0' as int)
  {
    assert (p + [c])[..|p|] == p;
  }

  lemma {:induction false} DigitsValueShowNat(n: nat)
    ensures DigitsValue(ShowNat(n)) == n
  {
    var prefix := if n >= 10 then ShowNat(n / 10) else "";
    var digit := ('0' as int + n % 10) as char;
    assert ShowNat(n) == prefix + [digit];
    DigitsValueSnoc(prefix, digit);
    if n >= 10 {
      DigitsValueShowNat(n / 10);
    }
  }

  /** An unsigned digit string within range parses to its value. */
  lemma ToIntOrNullDigits(d: string)
    requires |d| >= 1 && AllDigits(d) && DigitsValue(d) <= IntMax
    ensures ToIntOrNull(d) == Some(DigitsValue(d))
  {
    assert IsDigit(d[0]);
  }

  /** A `-` followed by a digit string within range parses to the negated value. */
  lemma ToIntOrNullMinus(d: string)
    requires |d| >= 1 && AllDigits(d) && -(DigitsValue(d) as int) >= IntMin
    ensures ToIntOrNull("-" + d) == Some(-(DigitsValue(d) as int))
  {
    var s := "-" + d;
    assert s[0] == '-' && s[1..] == d;
  }

  /** `toIntOrNull` reads back every 32-bit integer from its decimal rendering. */
  lemma ToIntOrNullShowInt(n: int)
    requires IntMin <= n <= IntMax
    ensures ToIntOrNull(ShowInt(n)) == Some(n)
  {
    if n < 0 {
      assert ShowInt(n) == "-" + ShowNat(-n);
      DigitsValueShowNat(-n);
      ToIntOrNullMinus(ShowNat(-n));
    } else {
      assert ShowInt(n) == ShowNat(n);
      DigitsValueShowNat(n);
      ToIntOrNullDigits(ShowNat(n));
    }
  }

  /** `ShowInt` never produces the delimiter `_` (used by the shape-id disambiguator). */
  lemma ShowIntHasNoUnderscore(n: int)
    ensures '_' !in ShowInt(n)
  {
    var d := ShowNat(if n < 0 then -n else n);
    assert forall i :: 0 <= i < |d| ==> d[i] != '_' by {
      forall i | 0 <= i < |d| ensures d[i] != '_' { assert IsDigit(d[i]); }
    }
  }
}
