/**
 * The text matching used by trip resolution (the local functions of `TripManager.findShapeId`):
 * label normalisation, the two-row Levenshtein distance and the similarity score built on it.
 */
module TextMatch {

  // ---------------------------------------------------------------------------------------
  // Characters

  /**
   * Per-character lower-casing: ASCII capitals, the Latin-1 capitals (without the multiplication
   * sign U+00D7) and the capital sharp s U+1E9E. Other characters are kept.
   */
  function Lower(c: char): char
  {
    if 'A' <= c <= 'Z' then (c as int + 32) as char
    else if 0xC0 <= c as int <= 0xDE && c as int != 0xD7 then (c as int + 32) as char
    else if c as int == 0x1E9E then 0xDF as char
    else c
  }

  /** A regex word character, `\w` = `[a-zA-Z_0-9]`. */
  predicate IsWordChar(c: char)
  {
    'a' <= c <= 'z' || 'A' <= c <= 'Z' || '0' <= c <= '9' || c == '_'
  }

  /** The characters a normalised label is made of. */
  predicate IsNormalChar(c: char)
  {
    'a' <= c <= 'z' || '0' <= c <= '9' || c == '_'
  }

  /** Kotlin's `Char.isWhitespace()`: the ASCII controls and spaces and the Unicode space separators. */
  predicate IsWhitespace(c: char)
  {
    var n := c as int;
    9 <= n <= 13 || 28 <= n <= 32 || n == 0xA0 || n == 0x1680 || 0x2000 <= n <= 0x200A
    || n == 0x2028 || n == 0x2029 || n == 0x202F || n == 0x205F || n == 0x3000
  }

  predicate AllNormal(s: string)
  {
    forall i :: 0 <= i < |s| ==> IsNormalChar(s[i])
  }

  predicate NoAsciiCapital(s: string)
  {
    forall i :: 0 <= i < |s| ==> !('A' <= s[i] <= 'Z')
  }

  // ---------------------------------------------------------------------------------------
  // The steps of `normalize`

  /** `lowercase()`, character by character. */
  function LowerAll(s: string): (r: string)
    ensures |r| == |s|
  {
    seq(|s|, i requires 0 <= i < |s| => Lower(s[i]))
  }

  /** `replace(old, new)` for a one-character `old`: every occurrence becomes `new`. */
  function ReplaceAll(s: string, target: char, replacement: string): string
  {
    if |s| == 0 then ""
    else (if s[0] == target then replacement else [s[0]]) + ReplaceAll(s[1..], target, replacement)
  }

  /** Every run of non-word characters is removed. */
  function KeepWordChars(s: string): string
  {
    if |s| == 0 then ""
    else (if IsWordChar(s[0]) then [s[0]] else "") + KeepWordChars(s[1..])
  }

  function TrimStart(s: string): string
  {
    if |s| > 0 && IsWhitespace(s[0]) then TrimStart(s[1..]) else s
  }

  function TrimEnd(s: string): string
  {
    if |s| > 0 && IsWhitespace(s[|s| - 1]) then TrimEnd(s[..|s| - 1]) else s
  }

  /** `trim()`: leading and trailing whitespace removed. */
  function Trim(s: string): string
  {
    TrimEnd(TrimStart(s))
  }

  /** The German letters folded to their ASCII digraphs, in the order the source replaces them. */
  function FoldUmlauts(s: string): string
  {
    ReplaceAll(ReplaceAll(ReplaceAll(ReplaceAll(s, 0xE4 as char, "ae"), 0xF6 as char, "oe"),
                          0xFC as char, "ue"), 0xDF as char, "ss")
  }

  /** `String.normalize()` local to `findShapeId`. */
  function Normalize(s: string): string
  {
    Trim(KeepWordChars(FoldUmlauts(LowerAll(s))))
  }

  // ---------------------------------------------------------------------------------------
  // Properties of normalisation

  lemma LowerAllNoCapital(s: string)
    ensures NoAsciiCapital(LowerAll(s))
  {
  }

  lemma {:induction false} ReplaceAllNoCapital(s: string, target: char, replacement: string)
    requires NoAsciiCapital(s) && NoAsciiCapital(replacement)
    ensures NoAsciiCapital(ReplaceAll(s, target, replacement))
    decreases |s|
  {
    if |s| > 0 {
      ReplaceAllNoCapital(s[1..], target, replacement);
      var head := if s[0] == target then replacement else [s[0]];
      var r := head + ReplaceAll(s[1..], target, replacement);
      forall i | 0 <= i < |r| ensures !('A' <= r[i] <= 'Z') {
        if i >= |head| { assert r[i] == ReplaceAll(s[1..], target, replacement)[i - |head|]; }
      }
    }
  }

  lemma {:induction false} KeepWordCharsNormal(s: string)
    requires NoAsciiCapital(s)
    ensures AllNormal(KeepWordChars(s))
    decreases |s|
  {
    if |s| > 0 {
      KeepWordCharsNormal(s[1..]);
      var head := if IsWordChar(s[0]) then [s[0]] else "";
      var r := head + KeepWordChars(s[1..]);
      forall i | 0 <= i < |r| ensures IsNormalChar(r[i]) {
        if i >= |head| { assert r[i] == KeepWordChars(s[1..])[i - |head|]; }
      }
    }
  }

  lemma TrimNormal(s: string)
    requires AllNormal(s)
    ensures Trim(s) == s
  {
    if |s| > 0 {
      assert IsNormalChar(s[0]) && IsNormalChar(s[|s| - 1]);
    }
  }

  /** A normalised label consists of lower-case ASCII letters, digits and `_` only. */
  lemma NormalizeIsNormal(s: string)
    ensures AllNormal(Normalize(s))
  {
    var t := LowerAll(s);
    LowerAllNoCapital(s);
    var t1 := ReplaceAll(t, 0xE4 as char, "ae");
    ReplaceAllNoCapital(t, 0xE4 as char, "ae");
    var t2 := ReplaceAll(t1, 0xF6 as char, "oe");
    ReplaceAllNoCapital(t1, 0xF6 as char, "oe");
    var t3 := ReplaceAll(t2, 0xFC as char, "ue");
    ReplaceAllNoCapital(t2, 0xFC as char, "ue");
    var t4 := ReplaceAll(t3, 0xDF as char, "ss");
    ReplaceAllNoCapital(t3, 0xDF as char, "ss");
    KeepWordCharsNormal(t4);
    TrimNormal(KeepWordChars(t4));
  }

  lemma {:induction false} ReplaceAllAbsent(s: string, target: char, replacement: string)
    requires target !in s
    ensures ReplaceAll(s, target, replacement) == s
    decreases |s|
  {
    if |s| > 0 {
      ReplaceAllAbsent(s[1..], target, replacement);
      assert [s[0]] + s[1..] == s;
    }
  }

  lemma {:induction false} KeepWordCharsNormalId(s: string)
    requires AllNormal(s)
    ensures KeepWordChars(s) == s
    decreases |s|
  {
    if |s| > 0 {
      KeepWordCharsNormalId(s[1..]);
      assert IsNormalChar(s[0]);
      assert [s[0]] + s[1..] == s;
    }
  }

  /** Normalising twice is normalising once. */
  lemma NormalizeIdempotent(s: string)
    ensures Normalize(Normalize(s)) == Normalize(s)
  {
    var t := Normalize(s);
    NormalizeIsNormal(s);
    assert LowerAll(t) == t;
    assert 0xE4 as char !in t && 0xF6 as char !in t && 0xFC as char !in t && 0xDF as char !in t by {
      forall i | 0 <= i < |t| ensures IsNormalChar(t[i]) { }
    }
    ReplaceAllAbsent(t, 0xE4 as char, "ae");
    ReplaceAllAbsent(t, 0xF6 as char, "oe");
    ReplaceAllAbsent(t, 0xFC as char, "ue");
    ReplaceAllAbsent(t, 0xDF as char, "ss");
    KeepWordCharsNormalId(t);
    TrimNormal(t);
  }

  // ---------------------------------------------------------------------------------------
  // Edit distance

  function Min3(x: int, y: int, z: int): int
  {
    if x <= y && x <= z then x else if y <= z then y else z
  }

  function Max(x: int, y: int): int
  {
    if x >= y then x else y
  }

  /**
   * The standard edit-distance recurrence over prefixes, with unit costs for deleting a character
   * of `x`, inserting a character of `y`, and substituting one for the other.
   */
  function EditDistance(x: string, y: string): nat
    decreases |x| + |y|
  {
    if |x| == 0 then |y|
    else if |y| == 0 then |x|
    else Min3(EditDistance(x[..|x| - 1], y) + 1,
              EditDistance(x, y[..|y| - 1]) + 1,
              EditDistance(x[..|x| - 1], y[..|y| - 1]) + (if x[|x| - 1] != y[|y| - 1] then 1 else 0))
  }

  lemma {:induction false} EditDistanceSymmetric(x: string, y: string)
    ensures EditDistance(x, y) == EditDistance(y, x)
    decreases |x| + |y|
  {
    if |x| > 0 && |y| > 0 {
      EditDistanceSymmetric(x[..|x| - 1], y);
      EditDistanceSymmetric(x, y[..|y| - 1]);
      EditDistanceSymmetric(x[..|x| - 1], y[..|y| - 1]);
    }
  }

  lemma {:induction false} EditDistanceUpper(x: string, y: string)
    ensures EditDistance(x, y) <= Max(|x|, |y|)
    decreases |x| + |y|
  {
    if |x| > 0 && |y| > 0 {
      EditDistanceUpper(x[..|x| - 1], y[..|y| - 1]);
    }
  }

  lemma {:induction false} EditDistanceLower(x: string, y: string)
    ensures EditDistance(x, y) >= |x| - |y| && EditDistance(x, y) >= |y| - |x|
    decreases |x| + |y|
  {
    if |x| > 0 && |y| > 0 {
      EditDistanceLower(x[..|x| - 1], y);
      EditDistanceLower(x, y[..|y| - 1]);
      EditDistanceLower(x[..|x| - 1], y[..|y| - 1]);
    }
  }

  /** The distance is zero exactly between equal strings. */
  lemma {:induction false} EditDistanceZeroIff(x: string, y: string)
    ensures EditDistance(x, y) == 0 <==> x == y
    decreases |x| + |y|
  {
    if |x| > 0 && |y| > 0 {
      EditDistanceZeroIff(x[..|x| - 1], y[..|y| - 1]);
      if x == y {
        assert x[..|x| - 1] == y[..|y| - 1];
      }
      if EditDistance(x, y) == 0 {
        assert x[..|x| - 1] == y[..|y| - 1] && x[|x| - 1] == y[|y| - 1];
        assert x == x[..|x| - 1] + [x[|x| - 1]];
        assert y == y[..|y| - 1] + [y[|y| - 1]];
      }
    }
  }

  /**
   * When the strings agree at some position both have, the distance is below the longer length
   * (so the integer-division similarity of the source rates them 1.0).
   */
  lemma {:induction false} EditDistanceAlignedMatch(x: string, y: string, i: nat)
    requires i < |x| && i < |y| && x[i] == y[i]
    ensures EditDistance(x, y) < Max(|x|, |y|)
    decreases |x| + |y|
  {
    var x', y' := x[..|x| - 1], y[..|y| - 1];
    if x[|x| - 1] == y[|y| - 1] {
      EditDistanceUpper(x', y');
    } else if i < |x| - 1 && i < |y| - 1 {
      EditDistanceAlignedMatch(x', y', i);
    } else if i == |x| - 1 {
      assert i < |y| - 1;
      EditDistanceAlignedMatch(x, y', i);
    } else {
      assert i == |y| - 1 && i < |x| - 1;
      EditDistanceAlignedMatch(x', y, i);
    }
  }

  /** One cell of the table: the recurrence unfolded at prefix lengths `i` and `j`. */
  lemma EditDistanceCell(x: string, y: string, i: nat, j: nat)
    requires 0 < i <= |x| && 0 < j <= |y|
    ensures EditDistance(x[..i], y[..j])
         == Min3(EditDistance(x[..i - 1], y[..j]) + 1,
                 EditDistance(x[..i], y[..j - 1]) + 1,
                 EditDistance(x[..i - 1], y[..j - 1]) + (if x[i - 1] != y[j - 1] then 1 else 0))
  {
    assert x[..i][..i - 1] == x[..i - 1];
    assert y[..j][..j - 1] == y[..j - 1];
  }

  /**
   * Row `i` of the Levenshtein table (the inner loop of `levenshteinDistance`), computed from row
   * `i - 1` into a fresh array.
   */
  method NextRow(previousRow: array<int>, smaller: string, larger: string, i: nat)
    returns (currentRow: array<int>)
    requires 0 < i <= |larger| && previousRow.Length == |smaller| + 1
    requires forall k :: 0 <= k <= |smaller| ==> previousRow[k] == EditDistance(larger[..i - 1], smaller[..k])
    ensures fresh(currentRow) && currentRow.Length == |smaller| + 1
    ensures forall k :: 0 <= k <= |smaller| ==> currentRow[k] == EditDistance(larger[..i], smaller[..k])
  {
    var n := |smaller|;
    currentRow := new int[n + 1];
    currentRow[0] := i;
    var j := 1;
    while j <= n
      modifies currentRow
      invariant 1 <= j <= n + 1
      invariant forall k :: 0 <= k < j ==> currentRow[k] == EditDistance(larger[..i], smaller[..k])
    {
      var insertCost := previousRow[j] + 1;
      var deleteCost := currentRow[j - 1] + 1;
      var replaceCost := previousRow[j - 1] + if smaller[j - 1] != larger[i - 1] then 1 else 0;
      EditDistanceCell(larger, smaller, i, j);
      currentRow[j] := Min3(insertCost, deleteCost, replaceCost);
      j := j + 1;
    }
  }

  /**
   * `levenshteinDistance`: the shorter string is the inner dimension and only the previous row
   * of the table is kept.
   */
  method LevenshteinDistance(a: string, b: string) returns (d: int)
    ensures d == EditDistance(a, b)
  {
    var smaller, larger := a, b;
    if |a| > |b| {
      smaller, larger := b, a;
    }
    var n, m := |smaller|, |larger|;

    var currentRow := new int[n + 1](j => j);
    var i := 1;
    while i <= m
      invariant 1 <= i <= m + 1
      invariant currentRow.Length == n + 1
      invariant forall j :: 0 <= j <= n ==> currentRow[j] == EditDistance(larger[..i - 1], smaller[..j])
    {
      var previousRow := currentRow;
      currentRow := NextRow(previousRow, smaller, larger, i);
      i := i + 1;
    }

    d := currentRow[n];
    assert larger[..m] == larger && smaller[..n] == smaller;
    EditDistanceSymmetric(larger, smaller);
  }

  // ---------------------------------------------------------------------------------------
  // Similarity

  /**
   * The value `similarity(a, b)` computes: `1.0` for two empty strings, otherwise
   * `1.0 - dist / maxLen` with `dist / maxLen` an integer division.
   */
  function Score(a: string, b: string): real
  {
    var maxLen := Max(|a|, |b|);
    if maxLen == 0 then 1.0 else 1.0 - (EditDistance(a, b) / maxLen) as real
  }

  lemma DivBelow(x: nat, y: nat)
    requires x < y
    ensures x / y == 0
  {
  }

  lemma DivSelf(y: nat)
    requires y > 0
    ensures y / y == 1
  {
  }

  /** The score is 0.0 exactly when the distance reaches the longer length, and 1.0 otherwise. */
  lemma ScoreValues(a: string, b: string)
    ensures Score(a, b) == if Max(|a|, |b|) > 0 && EditDistance(a, b) == Max(|a|, |b|) then 0.0 else 1.0
  {
    var maxLen := Max(|a|, |b|);
    if maxLen > 0 {
      var dist := EditDistance(a, b);
      EditDistanceUpper(a, b);
      if dist < maxLen {
        DivBelow(dist, maxLen);
      } else {
        DivSelf(maxLen);
      }
    }
  }

  lemma ScoreSelf(s: string)
    ensures Score(s, s) == 1.0
  {
    EditDistanceZeroIff(s, s);
    ScoreValues(s, s);
  }

  lemma ScoreSymmetric(a: string, b: string)
    ensures Score(a, b) == Score(b, a)
  {
    EditDistanceSymmetric(a, b);
  }

  /** An empty label never matches a non-empty one. */
  lemma ScoreEmpty(b: string)
    requires |b| > 0
    ensures Score("", b) == 0.0
  {
    ScoreValues("", b);
  }

  /** Two labels that share a character at the same position score 1.0. */
  lemma ScoreAlignedMatch(a: string, b: string, i: nat)
    requires i < |a| && i < |b| && a[i] == b[i]
    ensures Score(a, b) == 1.0
  {
    EditDistanceAlignedMatch(a, b, i);
    ScoreValues(a, b);
  }

  /** `similarity`: computes the score by running the Levenshtein table. */
  method Similarity(a: string, b: string) returns (r: real)
    ensures r == Score(a, b)
    ensures r == 0.0 || r == 1.0
  {
    ScoreValues(a, b);
    var maxLen := Max(|a|, |b|);
    if maxLen == 0 {
      return 1.0;
    }
    var dist := LevenshteinDistance(a, b);
    r := 1.0 - (dist / maxLen) as real;
  }
}
