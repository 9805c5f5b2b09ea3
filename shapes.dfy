/**
 * Position resolution (`ShapeManager.kt`): the shapes table grouped by shape id, the cumulative
 * distance of a point along its shape, and the normalised position of a stop on a shape, computed
 * lazily, written back into the shape's point list and remembered per shape and stop.
 */
module Shapes {
  import opened Options
  import opened Strings
  import Table

  /** A distance in kilometres. */
  type NonNeg = r: real | 0.0 <= r

  /**
   * The great-circle distance between (lat1, lng1) and (lat2, lng2). The trigonometry is not
   * modelled: every operation takes the distance function as a parameter and relies only on
   * its results being non-negative.
   */
  type Haversine = (real, real, real, real) -> NonNeg

  /** A Kotlin `Double` quotient: a finite value, NaN for `0.0 / 0.0`, or an infinity for `x / 0.0`. */
  datatype Perc = Finite(value: real) | NaN | Infinite(negative: bool)

  /** Kotlin's `Double` division `a / b`. */
  function Divide(a: real, b: real): (r: Perc)
    ensures r.Finite? <==> b != 0.0
    ensures r.NaN? <==> a == 0.0 && b == 0.0
    ensures r.Infinite? ==> (r.negative <==> a < 0.0)
  {
    if b != 0.0 then Finite(a / b) else if a == 0.0 then NaN else Infinite(a < 0.0)
  }

  /** One row of the shapes table; `shapeDist` is the cumulative distance, when known. */
  datatype Shape = Shape(id: string, lat: real, lng: real, sequence: int, shapeDist: Option<real>)

  // ---------------------------------------------------------------------------------------
  // Loading

  /** The number parsers of the loader (`toDouble`, `toInt`, `toDoubleOrNull`), left abstract. */
  datatype NumberParsers = NumberParsers(toDouble: string -> real, toInt: string -> int,
                                         toDoubleOrNull: string -> Option<real>)

  /** Columns 0 to 3 are id, latitude, longitude and sequence number; column 4, when present, the distance. */
  function ShapeOf(cols: seq<string>, np: NumberParsers): Shape
    requires |cols| >= 4
  {
    Shape(cols[0], np.toDouble(cols[1]), np.toDouble(cols[2]), np.toInt(cols[3]),
          if |cols| > 4 then np.toDoubleOrNull(cols[4]) else None)
  }

  function ShapesOfRows(rows: seq<seq<string>>, np: NumberParsers): seq<Shape>
    requires forall i :: 0 <= i < |rows| ==> |rows[i]| >= 4
  {
    seq(|rows|, i requires 0 <= i < |rows| => ShapeOf(rows[i], np))
  }

  /** The points of a list of data lines (no header among them). */
  function ShapesOfLines(lines: seq<string>, np: NumberParsers): seq<Shape>
  {
    ShapesOfRows(Table.RowsOf(lines, 4), np)
  }

  /** The constructor's parse of the shapes file text, before grouping. */
  function ParseShapes(text: string, np: NumberParsers): seq<Shape>
  {
    ShapesOfRows(Table.DataRows(text, 4), np)
  }

  /** The first line of the file is a header and is skipped, whatever it holds. */
  lemma ParseShapesSkipsHeader(header: string, body: string, np: NumberParsers)
    requires '\n' !in header
    ensures ParseShapes(header + "\n" + body, np) == ShapesOfLines(Split(body, '\n'), np)
  {
    Table.HeaderSkipped(header, body, 4);
  }

  /** Lines are parsed one by one and the points keep file order. */
  lemma ShapesOfLinesAppend(a: seq<string>, b: seq<string>, np: NumberParsers)
    ensures ShapesOfLines(a + b, np) == ShapesOfLines(a, np) + ShapesOfLines(b, np)
  {
    Table.RowsOfAppend(a, b, 4);
  }

  /**
   * A line with at least 4 fields gives one point, whose distance is parsed from column 4 when
   * the line has one and is unknown otherwise; a shorter line gives nothing.
   */
  lemma ShapesOfLine(line: string, np: NumberParsers)
    ensures (var cols := Split(line, ',');
             ShapesOfLines([line], np)
             == if |cols| < 4 then []
                else if |cols| == 4
                then [Shape(cols[0], np.toDouble(cols[1]), np.toDouble(cols[2]), np.toInt(cols[3]), None)]
                else [Shape(cols[0], np.toDouble(cols[1]), np.toDouble(cols[2]), np.toInt(cols[3]),
                            np.toDoubleOrNull(cols[4]))])
  {
    Table.RowsOfSingle(line, 4);
  }

  /** The points of `rows` with shape id `id`, in order. */
  function OfId(rows: seq<Shape>, id: string): (r: seq<Shape>)
    ensures forall s :: s in r <==> s in rows && s.id == id
  {
    if |rows| == 0 then []
    else
      var last := rows[|rows| - 1];
      assert rows == rows[..|rows| - 1] + [last];
      OfId(rows[..|rows| - 1], id) + (if last.id == id then [last] else [])
  }

  /** The rows grouped by shape id: every id of a row is mapped to that id's rows. */
  function GroupById(rows: seq<Shape>): map<string, seq<Shape>>
  {
    if |rows| == 0 then map[]
    else
      var groups := GroupById(rows[..|rows| - 1]);
      var last := rows[|rows| - 1];
      groups[last.id := (if last.id in groups then groups[last.id] else []) + [last]]
  }

  /** Every shape has at least one point: the invariant of the grouped table. */
  ghost predicate ShapesValid(shapes: map<string, seq<Shape>>)
  {
    forall id :: id in shapes ==> |shapes[id]| > 0
  }

  /**
   * The grouped table has exactly the row ids as keys, and each id's list is its rows in file
   * order, so no list is empty.
   */
  lemma {:induction false} GroupByIdSpec(rows: seq<Shape>)
    ensures forall id :: id in GroupById(rows) <==> exists s :: s in rows && s.id == id
    ensures forall id :: id in GroupById(rows) ==> GroupById(rows)[id] == OfId(rows, id)
    ensures forall id :: id !in GroupById(rows) ==> OfId(rows, id) == []
    ensures ShapesValid(GroupById(rows))
  {
    if |rows| > 0 {
      var init := rows[..|rows| - 1];
      var last := rows[|rows| - 1];
      assert rows == init + [last];
      GroupByIdSpec(init);
    }
  }

  // ---------------------------------------------------------------------------------------
  // Cumulative distance

  /** The distance between two points. */
  function Hop(a: Shape, b: Shape, hav: Haversine): NonNeg
  {
    hav(a.lat, a.lng, b.lat, b.lng)
  }

  /** The points among the first `n` of `whole` whose sequence number is at most `bound`, in order. */
  function FilterUpTo(whole: seq<Shape>, n: nat, bound: int): (r: seq<Shape>)
    requires n <= |whole|
    ensures |r| <= n
  {
    if n == 0 then []
    else FilterUpTo(whole, n - 1, bound) + (if whole[n - 1].sequence <= bound then [whole[n - 1]] else [])
  }

  /**
   * The sum of the first `n` entries of the `mapIndexed` list: entry 0 is 0.0 and entry j
   * is the distance from `whole[j - 1]` (the unfiltered list) to `filtered[j]`.
   */
  function Legs(whole: seq<Shape>, filtered: seq<Shape>, n: nat, hav: Haversine): (r: real)
    requires n <= |filtered| <= |whole|
    ensures r >= 0.0
  {
    if n <= 1 then 0.0 else Legs(whole, filtered, n - 1, hav) + Hop(whole[n - 2], filtered[n - 1], hav)
  }

  /** The cumulative distance the code gives point `p` on the list `whole`. */
  function CalculateDistance(p: Shape, whole: seq<Shape>, hav: Haversine): (d: real)
    ensures d >= 0.0
  {
    var filtered := FilterUpTo(whole, |whole|, p.sequence);
    Legs(whole, filtered, |filtered|, hav)
  }

  /** The length of the polyline through the first `n` points of `s`, in order. */
  function PathTo(s: seq<Shape>, n: nat, hav: Haversine): (r: real)
    requires n <= |s|
    ensures r >= 0.0
  {
    if n <= 1 then 0.0 else PathTo(s, n - 1, hav) + Hop(s[n - 2], s[n - 1], hav)
  }

  /** The points are in strictly ascending sequence order, as a shape's rows are meant to be. */
  ghost predicate Ascending(s: seq<Shape>)
  {
    forall a, b :: 0 <= a < b < |s| ==> s[a].sequence < s[b].sequence
  }

  /** `f` holds exactly the first `m` points of `whole`. */
  ghost predicate PrefixOf(f: seq<Shape>, whole: seq<Shape>, m: nat)
  {
    |f| == m <= |whole| && forall j :: 0 <= j < m ==> f[j] == whole[j]
  }

  lemma {:induction false} FilterAllBelow(whole: seq<Shape>, n: nat, bound: int)
    requires n <= |whole|
    requires forall j :: 0 <= j < n ==> whole[j].sequence <= bound
    ensures PrefixOf(FilterUpTo(whole, n, bound), whole, n)
  {
    if n > 0 {
      FilterAllBelow(whole, n - 1, bound);
    }
  }

  /** On an ascending list, the points up to point `k` are exactly the first `k + 1` points. */
  lemma {:induction false} FilterAscending(whole: seq<Shape>, n: nat, k: nat)
    requires Ascending(whole) && k < n <= |whole|
    ensures PrefixOf(FilterUpTo(whole, n, whole[k].sequence), whole, k + 1)
  {
    if n == k + 1 {
      FilterAllBelow(whole, n, whole[k].sequence);
    } else {
      FilterAscending(whole, n - 1, k);
      assert FilterUpTo(whole, n, whole[k].sequence) == FilterUpTo(whole, n - 1, whole[k].sequence) + [];
    }
  }

  /** When the filtered list is a prefix of the whole list, the legs are those of the polyline. */
  lemma {:induction false} LegsOfPrefix(whole: seq<Shape>, f: seq<Shape>, m: nat, n: nat, hav: Haversine)
    requires PrefixOf(f, whole, m) && n <= m
    ensures Legs(whole, f, n, hav) == PathTo(whole, n, hav)
  {
    if n > 1 {
      LegsOfPrefix(whole, f, m, n - 1, hav);
    }
  }

  /** A polyline through more points is no shorter. */
  lemma {:induction false} PathToGrows(s: seq<Shape>, n: nat, m: nat, hav: Haversine)
    requires n <= m <= |s|
    ensures PathTo(s, n, hav) <= PathTo(s, m, hav)
  {
    if n < m {
      PathToGrows(s, n, m - 1, hav);
    }
  }

  /** On an ascending list, a point's cumulative distance is the polyline length up to it. */
  lemma CalculateDistanceAscending(whole: seq<Shape>, k: nat, hav: Haversine)
    requires Ascending(whole) && k < |whole|
    ensures CalculateDistance(whole[k], whole, hav) == PathTo(whole, k + 1, hav)
  {
    FilterAscending(whole, |whole|, k);
    LegsOfPrefix(whole, FilterUpTo(whole, |whole|, whole[k].sequence), k + 1, k + 1, hav);
  }

  /** The first point is at distance 0. */
  lemma CalculateDistanceFirst(whole: seq<Shape>, hav: Haversine)
    requires Ascending(whole) && |whole| > 0
    ensures CalculateDistance(whole[0], whole, hav) == 0.0
  {
    CalculateDistanceAscending(whole, 0, hav);
  }

  /** The last point is at the full length of the shape. */
  lemma CalculateDistanceLast(whole: seq<Shape>, hav: Haversine)
    requires Ascending(whole) && |whole| > 0
    ensures CalculateDistance(whole[|whole| - 1], whole, hav) == PathTo(whole, |whole|, hav)
  {
    CalculateDistanceAscending(whole, |whole| - 1, hav);
  }

  /** Cumulative distance does not decrease along an ascending list. */
  lemma CalculateDistanceMonotone(whole: seq<Shape>, k: nat, l: nat, hav: Haversine)
    requires Ascending(whole) && k <= l < |whole|
    ensures CalculateDistance(whole[k], whole, hav) <= CalculateDistance(whole[l], whole, hav)
  {
    CalculateDistanceAscending(whole, k, hav);
    CalculateDistanceAscending(whole, l, hav);
    PathToGrows(whole, k + 1, l + 1, hav);
  }

  /** Two lists with the same points in the same order, whatever their stored distances. */
  ghost predicate SamePath(c: seq<Shape>, d: seq<Shape>)
  {
    |c| == |d| &&
    forall j :: 0 <= j < |c| ==>
      c[j].lat == d[j].lat && c[j].lng == d[j].lng && c[j].sequence == d[j].sequence
  }

  lemma {:induction false} FilterSamePath(c: seq<Shape>, d: seq<Shape>, n: nat, bound: int)
    requires SamePath(c, d) && n <= |c|
    ensures SamePath(FilterUpTo(c, n, bound), FilterUpTo(d, n, bound))
  {
    if n > 0 {
      FilterSamePath(c, d, n - 1, bound);
    }
  }

  lemma {:induction false} LegsSamePath(c: seq<Shape>, fc: seq<Shape>, d: seq<Shape>, fd: seq<Shape>,
                                        n: nat, hav: Haversine)
    requires SamePath(c, d) && SamePath(fc, fd) && n <= |fc| <= |c|
    ensures Legs(c, fc, n, hav) == Legs(d, fd, n, hav)
  {
    if n > 1 {
      LegsSamePath(c, fc, d, fd, n - 1, hav);
    }
  }

  /** A cumulative distance depends on the points' positions only, not on the stored distances. */
  lemma CalculateDistanceSamePath(p: Shape, c: seq<Shape>, d: seq<Shape>, hav: Haversine)
    requires SamePath(c, d)
    ensures CalculateDistance(p, c, hav) == CalculateDistance(p, d, hav)
  {
    FilterSamePath(c, d, |c|, p.sequence);
    LegsSamePath(c, FilterUpTo(c, |c|, p.sequence), d, FilterUpTo(d, |d|, p.sequence),
                 |FilterUpTo(c, |c|, p.sequence)|, hav);
  }

  // ---------------------------------------------------------------------------------------
  // Nearest point and lazy distances

  /** `minBy(key)` over the first `n` points: the index of the first one whose key is minimal. */
  function FirstMinBy(s: seq<Shape>, n: nat, key: Shape -> real): (r: nat)
    requires 0 < n <= |s|
    ensures r < n
    ensures forall j :: 0 <= j < n ==> key(s[r]) <= key(s[j])
    ensures forall j :: 0 <= j < r ==> key(s[r]) < key(s[j])
  {
    if n == 1 then 0
    else
      var m := FirstMinBy(s, n - 1, key);
      if key(s[n - 1]) < key(s[m]) then n - 1 else m
  }

  /** There is only one first minimum. */
  lemma FirstMinByUnique(s: seq<Shape>, key: Shape -> real, i: nat)
    requires i < |s|
    requires forall j :: 0 <= j < |s| ==> key(s[i]) <= key(s[j])
    requires forall j :: 0 <= j < i ==> key(s[i]) < key(s[j])
    ensures FirstMinBy(s, |s|, key) == i
  {
    var m := FirstMinBy(s, |s|, key);
    assert key(s[m]) <= key(s[i]) && key(s[i]) <= key(s[m]);
  }

  /** `indexOf(x)` searching from position `k`: the first index at or after `k` holding `x`, or -1. */
  function IndexFrom(s: seq<Shape>, x: Shape, k: nat): (r: int)
    requires k <= |s|
    ensures r == -1 || k <= r < |s|
    ensures 0 <= r ==> s[r] == x
    ensures forall j :: k <= j < |s| && (r == -1 || j < r) ==> s[j] != x
    decreases |s| - k
  {
    if k == |s| then -1 else if s[k] == x then k else IndexFrom(s, x, k + 1)
  }

  /** `indexOf(x)`: the first index holding a point equal to `x` (data-class equality), or -1. */
  function IndexOf(s: seq<Shape>, x: Shape): int
  {
    IndexFrom(s, x, 0)
  }

  /** The first minimum is also the first occurrence of its point, so `indexOf` finds its slot. */
  lemma IndexOfFirstMin(s: seq<Shape>, key: Shape -> real)
    requires |s| > 0
    ensures IndexOf(s, s[FirstMinBy(s, |s|, key)]) == FirstMinBy(s, |s|, key)
  {
    var i := FirstMinBy(s, |s|, key);
    var k := IndexOf(s, s[i]);
    assert key(s[k]) == key(s[i]);
  }

  /** A point's stored distance, or the one `calculateDistance` gives it. */
  function DistanceAt(c: seq<Shape>, i: nat, hav: Haversine): real
    requires i < |c|
  {
    match c[i].shapeDist
    case Some(d) => d
    case None => CalculateDistance(c[i], c, hav)
  }

  /**
   * A point without a distance gets the one `calculateDistance` gives it, written at the first slot
   * that holds an equal point; a point with a distance is left as it is.
   */
  function Settle(c: seq<Shape>, i: nat, hav: Haversine): (r: seq<Shape>)
    requires i < |c|
    ensures |r| == |c|
  {
    if c[i].shapeDist.Some? then c
    else c[IndexOf(c, c[i]) := c[i].(shapeDist := Some(CalculateDistance(c[i], c, hav)))]
  }

  /** The distance from a point to `coord`, the key of `minBy`. */
  function DistanceTo(coord: (real, real), hav: Haversine): Shape -> real
  {
    (s: Shape) => hav(s.lat, s.lng, coord.0, coord.1)
  }

  /** The index of the point of `c` nearest to `coord`. */
  function Nearest(c: seq<Shape>, coord: (real, real), hav: Haversine): nat
    requires |c| > 0
  {
    FirstMinBy(c, |c|, DistanceTo(coord, hav))
  }

  /**
   * The normalised position of the stop nearest to `coord` on the list `c` (lines 75-93): the stop
   * point's cumulative distance over the last point's. The code reads the last point's distance
   * after the stop point has been settled; `PositionAsWritten` shows that this gives the same value.
   */
  function Position(c: seq<Shape>, coord: (real, real), hav: Haversine): Perc
    requires |c| > 0
  {
    Divide(DistanceAt(c, Nearest(c, coord, hav), hav), DistanceAt(c, |c| - 1, hav))
  }

  /** The list after the stop point and then the last point have had their distances settled. */
  function SettledPoints(c: seq<Shape>, coord: (real, real), hav: Haversine): (r: seq<Shape>)
    requires |c| > 0
    ensures |r| == |c|
  {
    var mid := Settle(c, Nearest(c, coord, hav), hav);
    Settle(mid, |mid| - 1, hav)
  }

  /** Settling changes only the stored distance of one slot, and only from unknown to known. */
  lemma SettleFrame(c: seq<Shape>, i: nat, hav: Haversine)
    requires i < |c|
    ensures SamePath(Settle(c, i, hav), c)
    ensures forall j :: 0 <= j < |c| && Settle(c, i, hav)[j] != c[j] ==>
              j == IndexOf(c, c[i]) && c[j].shapeDist.None? && Settle(c, i, hav)[j].shapeDist.Some?
    ensures forall j :: 0 <= j < |c| ==> Settle(c, i, hav)[j].id == c[j].id
  {
    if c[i].shapeDist.None? {
      var k := IndexOf(c, c[i]);
      var p := c[i].(shapeDist := Some(CalculateDistance(c[i], c, hav)));
      assert Settle(c, i, hav) == c[k := p];
      assert c[k] == c[i];
    }
  }

  /** Settling one slot never changes the distance any point is given. */
  lemma SettleKeepsDistances(c: seq<Shape>, i: nat, j: nat, hav: Haversine)
    requires i < |c| && j < |c|
    ensures DistanceAt(Settle(c, i, hav), j, hav) == DistanceAt(c, j, hav)
  {
    var r := Settle(c, i, hav);
    SettleFrame(c, i, hav);
    CalculateDistanceSamePath(c[j], r, c, hav);
  }

  /** Reading the last point's distance after the stop point is settled, as the code does, gives `Position`. */
  lemma PositionAsWritten(c: seq<Shape>, coord: (real, real), hav: Haversine)
    requires |c| > 0
    ensures var i := Nearest(c, coord, hav);
            Divide(DistanceAt(c, i, hav), DistanceAt(Settle(c, i, hav), |c| - 1, hav)) == Position(c, coord, hav)
  {
    SettleKeepsDistances(c, Nearest(c, coord, hav), |c| - 1, hav);
  }

  /**
   * The list keeps its length and its points' positions; a slot changes only when it is the stop
   * point's or holds a point equal to the last one, and then only from no distance to a distance.
   */
  lemma SettledPointsFrame(c: seq<Shape>, coord: (real, real), hav: Haversine)
    requires |c| > 0
    ensures var r := SettledPoints(c, coord, hav);
            SamePath(r, c) &&
            (forall j :: 0 <= j < |c| ==> r[j].id == c[j].id) &&
            (forall j :: 0 <= j < |c| && c[j].shapeDist.Some? ==> r[j] == c[j]) &&
            (forall j :: 0 <= j < |c| && r[j] != c[j] ==>
               (j == Nearest(c, coord, hav) || c[j] == c[|c| - 1]) && r[j].shapeDist.Some?)
  {
    var i := Nearest(c, coord, hav);
    var mid := Settle(c, i, hav);
    IndexOfFirstMin(c, DistanceTo(coord, hav));
    SettleFrame(c, i, hav);
    SettleFrame(mid, |mid| - 1, hav);
  }

  /** No two points of the list share a sequence number, as in a well-formed shapes file. */
  ghost predicate Distinct(c: seq<Shape>)
  {
    forall a, b :: 0 <= a < b < |c| ==> c[a].sequence != c[b].sequence
  }

  /** With distinct points, `indexOf` of a point of the list is that point's own slot. */
  lemma IndexOfDistinct(c: seq<Shape>, k: nat)
    requires k < |c| && Distinct(c)
    ensures IndexOf(c, c[k]) == k
  {
  }

  /**
   * With distinct points, exactly the stop slot and the last slot end up with a distance, and
   * every other slot is unchanged.
   */
  lemma SettledPointsTwoSlots(c: seq<Shape>, coord: (real, real), hav: Haversine)
    requires |c| > 0 && Distinct(c)
    ensures var r := SettledPoints(c, coord, hav);
            r[Nearest(c, coord, hav)].shapeDist.Some? && r[|c| - 1].shapeDist.Some? &&
            forall j :: 0 <= j < |c| && j != Nearest(c, coord, hav) && j != |c| - 1 ==> r[j] == c[j]
  {
    var i := Nearest(c, coord, hav);
    var mid := Settle(c, i, hav);
    var last := |c| - 1;
    IndexOfDistinct(c, i);
    SettleFrame(c, i, hav);
    assert forall j :: 0 <= j < |c| ==> mid[j].sequence == c[j].sequence;
    IndexOfDistinct(mid, last);
    SettleFrame(mid, last, hav);
  }

  /** `x / x` is 1 for a non-zero `x`. */
  lemma DivideSelf(x: real)
    requires x != 0.0
    ensures Divide(x, x) == Finite(1.0)
  {
  }

  /** A finite position between the start (0) and the end (1) of a shape. */
  predicate IsFraction(p: Perc)
  {
    p.Finite? && 0.0 <= p.value <= 1.0
  }

  /** A part over a positive whole is a fraction. */
  lemma DivideInUnitInterval(a: real, b: real)
    requires 0.0 <= a <= b && b > 0.0
    ensures IsFraction(Divide(a, b))
  {
    assert a / b * b == a;
  }

  /** When the nearest point is the last one and its distance is not zero, the position is 1. */
  lemma PositionAtLast(c: seq<Shape>, coord: (real, real), hav: Haversine)
    requires |c| > 0 && Nearest(c, coord, hav) == |c| - 1
    requires DistanceAt(c, |c| - 1, hav) != 0.0
    ensures Position(c, coord, hav) == Finite(1.0)
  {
    DivideSelf(DistanceAt(c, |c| - 1, hav));
  }

  /** Every stored distance is the one `calculateDistance` would give (true when none is stored). */
  ghost predicate Consistent(c: seq<Shape>, hav: Haversine)
  {
    forall j {:trigger DistanceAt(c, j, hav)} :: 0 <= j < |c| ==>
      DistanceAt(c, j, hav) == CalculateDistance(c[j], c, hav)
  }

  lemma SettleConsistent(c: seq<Shape>, i: nat, hav: Haversine)
    requires i < |c| && Consistent(c, hav)
    ensures Consistent(Settle(c, i, hav), hav)
  {
    var r := Settle(c, i, hav);
    SettleFrame(c, i, hav);
    forall j | 0 <= j < |r|
      ensures DistanceAt(r, j, hav) == CalculateDistance(r[j], r, hav)
    {
      SettleKeepsDistances(c, i, j, hav);
      CalculateDistanceSamePath(r[j], r, c, hav);
      if r[j] != c[j] {
        assert c[j] == c[i];
      }
    }
  }

  /** Settling keeps the stored distances consistent. */
  lemma SettledPointsConsistent(c: seq<Shape>, coord: (real, real), hav: Haversine)
    requires |c| > 0 && Consistent(c, hav)
    ensures Consistent(SettledPoints(c, coord, hav), hav)
  {
    var i := Nearest(c, coord, hav);
    SettleConsistent(c, i, hav);
    SettleConsistent(Settle(c, i, hav), |c| - 1, hav);
  }

  /** On an ascending shape with consistent distances, a point's distance is the polyline length up to it. */
  lemma ConsistentDistanceAt(c: seq<Shape>, j: nat, hav: Haversine)
    requires j < |c| && Ascending(c) && Consistent(c, hav)
    ensures DistanceAt(c, j, hav) == PathTo(c, j + 1, hav)
    ensures DistanceAt(c, j, hav) <= PathTo(c, |c|, hav)
  {
    CalculateDistanceAscending(c, j, hav);
    PathToGrows(c, j + 1, |c|, hav);
  }

  /**
   * On an ascending shape with consistent distances and positive length, the position is the
   * polyline length up to the stop over the total length, a fraction in [0, 1].
   */
  lemma PositionInUnitInterval(c: seq<Shape>, coord: (real, real), hav: Haversine)
    requires |c| > 0 && Ascending(c) && Consistent(c, hav) && PathTo(c, |c|, hav) > 0.0
    ensures Position(c, coord, hav) == Divide(PathTo(c, Nearest(c, coord, hav) + 1, hav), PathTo(c, |c|, hav))
    ensures IsFraction(Position(c, coord, hav))
  {
    PositionRatio(c, coord, hav);
    DistanceRatio(c, Nearest(c, coord, hav), hav);
  }

  /** The position is the nearest point's distance over the last point's. */
  lemma PositionRatio(c: seq<Shape>, coord: (real, real), hav: Haversine)
    requires |c| > 0
    ensures Position(c, coord, hav) == Divide(DistanceAt(c, Nearest(c, coord, hav), hav), DistanceAt(c, |c| - 1, hav))
  {
  }

  /** The ratio of any point's distance to the last point's, on such a shape. */
  lemma DistanceRatio(c: seq<Shape>, i: nat, hav: Haversine)
    requires i < |c| && Ascending(c) && Consistent(c, hav) && PathTo(c, |c|, hav) > 0.0
    ensures Divide(DistanceAt(c, i, hav), DistanceAt(c, |c| - 1, hav)) == Divide(PathTo(c, i + 1, hav), PathTo(c, |c|, hav))
    ensures IsFraction(Divide(DistanceAt(c, i, hav), DistanceAt(c, |c| - 1, hav)))
  {
    ConsistentDistanceAt(c, i, hav);
    ConsistentDistanceAt(c, |c| - 1, hav);
    DivideInUnitInterval(DistanceAt(c, i, hav), DistanceAt(c, |c| - 1, hav));
  }

  /** When the nearest point is the first one, the position is 0 (on a shape of positive length). */
  lemma PositionAtFirst(c: seq<Shape>, coord: (real, real), hav: Haversine)
    requires |c| > 0 && Ascending(c) && Consistent(c, hav) && PathTo(c, |c|, hav) > 0.0
    requires Nearest(c, coord, hav) == 0
    ensures Position(c, coord, hav) == Finite(0.0)
  {
    PositionInUnitInterval(c, coord, hav);
    assert PathTo(c, 1, hav) == 0.0;
    assert 0.0 / PathTo(c, |c|, hav) == 0.0;
  }

  // ---------------------------------------------------------------------------------------
  // The shape table and the stop cache

  /** `calculatePercentageDistance`, with the grouped table before and after. */
  function CalculatePercentage(shapes: map<string, seq<Shape>>, shapeId: string, coord: (real, real),
                               hav: Haversine): (r: (Perc, map<string, seq<Shape>>))
    requires ShapesValid(shapes)
    ensures r.1.Keys == shapes.Keys
    ensures ShapesValid(r.1)
  {
    if shapeId !in shapes then (NaN, shapes)
    else
      (Position(shapes[shapeId], coord, hav), shapes[shapeId := SettledPoints(shapes[shapeId], coord, hav)])
  }

  /**
   * A known shape, step by step as the code goes: settle the stop point, then the last point of the
   * updated list, then divide the two stored distances.
   */
  lemma CalculatePercentageSteps(shapes: map<string, seq<Shape>>, shapeId: string, coord: (real, real),
                                 hav: Haversine, stopPoint: Shape, mid: seq<Shape>, lastPoint: Shape,
                                 fin: seq<Shape>)
    requires ShapesValid(shapes) && shapeId in shapes
    requires mid == Settle(shapes[shapeId], Nearest(shapes[shapeId], coord, hav), hav)
    requires stopPoint.shapeDist == Some(DistanceAt(shapes[shapeId], Nearest(shapes[shapeId], coord, hav), hav))
    requires fin == Settle(mid, |mid| - 1, hav)
    requires lastPoint.shapeDist == Some(DistanceAt(mid, |mid| - 1, hav))
    ensures CalculatePercentage(shapes, shapeId, coord, hav) ==
              (Divide(stopPoint.shapeDist.value, lastPoint.shapeDist.value), shapes[shapeId := fin])
  {
    PositionAsWritten(shapes[shapeId], coord, hav);
  }

  /** An unknown shape id gives NaN and leaves the table as it is. */
  lemma CalculatePercentageUnknown(shapes: map<string, seq<Shape>>, shapeId: string, coord: (real, real),
                                   hav: Haversine)
    requires ShapesValid(shapes) && shapeId !in shapes
    ensures CalculatePercentage(shapes, shapeId, coord, hav) == (NaN, shapes)
  {
  }

  /** Only the list of the requested shape can change. */
  lemma CalculatePercentageOthers(shapes: map<string, seq<Shape>>, shapeId: string, coord: (real, real),
                                  hav: Haversine)
    requires ShapesValid(shapes)
    ensures forall id :: id in shapes && id != shapeId ==>
              CalculatePercentage(shapes, shapeId, coord, hav).1[id] == shapes[id]
  {
  }

  /** The cache key of a stop on a shape: the shape id, a `-`, then the stop id. */
  function StopKey(shapeId: string, stopId: string): string
  {
    shapeId + "-" + stopId
  }

  /** The state of a `ShapeManager`: the stop cache and the grouped shape table. */
  datatype ShapeState = ShapeState(stopDists: map<string, Perc>, shapeData: map<string, seq<Shape>>)

  /**
   * `getPercentageDistance`: the cached position of the stop on the shape; when there is none, the
   * computed position, which is then stored in the cache.
   */
  function GetPercentage(st: ShapeState, shapeId: string, stopId: string, coord: (real, real),
                         hav: Haversine): (r: (Perc, ShapeState))
    requires ShapesValid(st.shapeData)
    ensures ShapesValid(r.1.shapeData)
    ensures StopKey(shapeId, stopId) in r.1.stopDists && r.1.stopDists[StopKey(shapeId, stopId)] == r.0
    ensures forall k :: k in st.stopDists ==> k in r.1.stopDists && r.1.stopDists[k] == st.stopDists[k]
  {
    var key := StopKey(shapeId, stopId);
    if key in st.stopDists then (st.stopDists[key], st)
    else
      var (p, shapes) := CalculatePercentage(st.shapeData, shapeId, coord, hav);
      (p, ShapeState(st.stopDists[key := p], shapes))
  }

  /** A cached key gives its stored value and changes nothing. */
  lemma GetPercentageHit(st: ShapeState, shapeId: string, stopId: string, coord: (real, real), hav: Haversine)
    requires ShapesValid(st.shapeData) && StopKey(shapeId, stopId) in st.stopDists
    ensures GetPercentage(st, shapeId, stopId, coord, hav) == (st.stopDists[StopKey(shapeId, stopId)], st)
  {
  }

  /** A new key gives the computed position, which is stored under the key. */
  lemma GetPercentageMiss(st: ShapeState, shapeId: string, stopId: string, coord: (real, real), hav: Haversine)
    requires ShapesValid(st.shapeData) && StopKey(shapeId, stopId) !in st.stopDists
    ensures var (p, st') := GetPercentage(st, shapeId, stopId, coord, hav);
            (p, st'.shapeData) == CalculatePercentage(st.shapeData, shapeId, coord, hav) &&
            st'.stopDists == st.stopDists[StopKey(shapeId, stopId) := p]
  {
  }

  /**
   * A second call for the same shape and stop returns the first call's value and changes nothing,
   * whatever coordinate it passes.
   */
  lemma GetPercentageTwice(st: ShapeState, shapeId: string, stopId: string, coord: (real, real),
                           coord2: (real, real), hav: Haversine)
    requires ShapesValid(st.shapeData)
    ensures var (p, st') := GetPercentage(st, shapeId, stopId, coord, hav);
            GetPercentage(st', shapeId, stopId, coord2, hav) == (p, st')
  {
  }

  // ---------------------------------------------------------------------------------------
  // Filling in distances never moves a position

  /** Two lists of points along the same path that give every point the same distance. */
  ghost predicate SameDistances(c: seq<Shape>, d: seq<Shape>, hav: Haversine)
  {
    SamePath(c, d) && forall j :: 0 <= j < |c| ==> DistanceAt(c, j, hav) == DistanceAt(d, j, hav)
  }

  /** Two tables with the same shape ids, whose lists give every point the same distance. */
  ghost predicate SameTable(a: map<string, seq<Shape>>, b: map<string, seq<Shape>>, hav: Haversine)
  {
    a.Keys == b.Keys && forall id {:trigger SameDistances(a[id], b[id], hav)} :: id in a ==> SameDistances(a[id], b[id], hav)
  }

  lemma SameTableTrans(a: map<string, seq<Shape>>, b: map<string, seq<Shape>>, c: map<string, seq<Shape>>,
                       hav: Haversine)
    requires SameTable(a, b, hav) && SameTable(b, c, hav)
    ensures SameTable(a, c, hav)
  {
    forall id | id in a
      ensures SameDistances(a[id], c[id], hav)
    {
      assert SameDistances(a[id], b[id], hav) && SameDistances(b[id], c[id], hav);
    }
  }

  /** Settling a slot keeps the path and every point's distance. */
  lemma SettleSameDistances(c: seq<Shape>, i: nat, hav: Haversine)
    requires i < |c|
    ensures SameDistances(c, Settle(c, i, hav), hav)
  {
    SettleFrame(c, i, hav);
    forall j | 0 <= j < |c|
      ensures DistanceAt(c, j, hav) == DistanceAt(Settle(c, i, hav), j, hav)
    {
      SettleKeepsDistances(c, i, j, hav);
    }
  }

  /** The nearest point depends only on the points' positions. */
  lemma NearestSamePath(c: seq<Shape>, d: seq<Shape>, coord: (real, real), hav: Haversine)
    requires |c| > 0 && SamePath(c, d)
    ensures Nearest(d, coord, hav) == Nearest(c, coord, hav)
  {
    var key := DistanceTo(coord, hav);
    var i := Nearest(c, coord, hav);
    assert forall j :: 0 <= j < |d| ==> key(d[j]) == key(c[j]);
    FirstMinByUnique(d, key, i);
  }

  /** Lists along the same path that give the same distances give every coordinate the same position. */
  lemma PositionSameDistances(c: seq<Shape>, d: seq<Shape>, coord: (real, real), hav: Haversine)
    requires |c| > 0 && SameDistances(c, d, hav)
    ensures Position(d, coord, hav) == Position(c, coord, hav)
  {
    NearestSamePath(c, d, coord, hav);
  }

  /** Tables that agree on paths and distances give every lookup the same position. */
  lemma CalculatePercentageSameTable(a: map<string, seq<Shape>>, b: map<string, seq<Shape>>, shapeId: string,
                                     coord: (real, real), hav: Haversine)
    requires ShapesValid(a) && ShapesValid(b) && SameTable(a, b, hav)
    ensures CalculatePercentage(a, shapeId, coord, hav).0 == CalculatePercentage(b, shapeId, coord, hav).0
  {
    if shapeId in a {
      PositionSameDistances(a[shapeId], b[shapeId], coord, hav);
    }
  }

  /** The table a computation leaves behind agrees with the one it started from. */
  lemma CalculatePercentageSameTableAfter(shapes: map<string, seq<Shape>>, shapeId: string, coord: (real, real),
                                          hav: Haversine)
    requires ShapesValid(shapes)
    ensures SameTable(shapes, CalculatePercentage(shapes, shapeId, coord, hav).1, hav)
  {
    if shapeId in shapes {
      SettledPointsSameDistances(shapes[shapeId], coord, hav);
      UpdateSameTable(shapes, shapeId, SettledPoints(shapes[shapeId], coord, hav), hav);
    }
  }

  /** Both settlements leave every distance the code gives unchanged. */
  lemma SettledPointsSameDistances(c: seq<Shape>, coord: (real, real), hav: Haversine)
    requires |c| > 0
    ensures SameDistances(c, SettledPoints(c, coord, hav), hav)
  {
    var mid := Settle(c, Nearest(c, coord, hav), hav);
    var fin := Settle(mid, |mid| - 1, hav);
    assert SettledPoints(c, coord, hav) == fin;
    SettleSameDistances(c, Nearest(c, coord, hav), hav);
    SettleSameDistances(mid, |mid| - 1, hav);
    SameDistancesTrans(c, mid, fin, hav);
  }

  /** Replacing one shape by a list that gives the same distances keeps the table's distances. */
  lemma UpdateSameTable(shapes: map<string, seq<Shape>>, shapeId: string, d: seq<Shape>, hav: Haversine)
    requires shapeId in shapes && SameDistances(shapes[shapeId], d, hav)
    ensures SameTable(shapes, shapes[shapeId := d], hav)
  {
    var after := shapes[shapeId := d];
    forall id | id in shapes ensures SameDistances(shapes[id], after[id], hav) {
      if id != shapeId {
        assert after[id] == shapes[id];
      }
    }
  }

  lemma SameDistancesTrans(c: seq<Shape>, d: seq<Shape>, e: seq<Shape>, hav: Haversine)
    requires SameDistances(c, d, hav) && SameDistances(d, e, hav)
    ensures SameDistances(c, e, hav)
  {
  }

  /**
   * The position a lookup of the cache key `key` for `coord` on shape `shapeId` gives in state
   * `st`: the cached position, or else the position of `coord` on the shape as the table holds it.
   */
  function Placed(st: ShapeState, shapeId: string, key: string, coord: (real, real), hav: Haversine): Perc
    requires ShapesValid(st.shapeData)
  {
    if key in st.stopDists then st.stopDists[key] else CalculatePercentage(st.shapeData, shapeId, coord, hav).0
  }

  /**
   * A lookup gives the position `Placed` names, adds exactly its key to the cache and leaves a table
   * that agrees with the old one.
   */
  lemma GetPercentagePlaced(st: ShapeState, shapeId: string, stopId: string, coord: (real, real), hav: Haversine)
    requires ShapesValid(st.shapeData)
    ensures var (p, st') := GetPercentage(st, shapeId, stopId, coord, hav);
            p == Placed(st, shapeId, StopKey(shapeId, stopId), coord, hav) &&
            SameTable(st.shapeData, st'.shapeData, hav) &&
            st'.stopDists.Keys == st.stopDists.Keys + {StopKey(shapeId, stopId)}
  {
    CalculatePercentageSameTableAfter(st.shapeData, shapeId, coord, hav);
  }

  /**
   * The state of the position resolver. `stopDists` caches positions per shape and stop;
   * `shapeData` holds each shape's point list, whose slots get their distances filled in place.
   */
  class ShapeManager {
    const haversine: Haversine
    var stopDists: map<string, Perc>
    var shapeData: map<string, seq<Shape>>

    ghost predicate Valid()
      reads this
    {
      ShapesValid(shapeData)
    }

    function State(): ShapeState
      reads this
    {
      ShapeState(stopDists, shapeData)
    }

    /** Loads the shapes file text and groups its points by shape id. */
    constructor(shapeText: string, parsers: NumberParsers, haversine: Haversine)
      ensures Valid()
      ensures this.haversine == haversine
      ensures stopDists == map[]
      ensures shapeData == GroupById(ParseShapes(shapeText, parsers))
    {
      this.haversine := haversine;
      stopDists := map[];
      shapeData := GroupById(ParseShapes(shapeText, parsers));
      GroupByIdSpec(ParseShapes(shapeText, parsers));
    }

    /**
     * The point at slot `i`, given its distance when it has none; the new point is written at the
     * slot `indexOf` finds for the old one.
     */
    method FillDistance(shapeCoords: seq<Shape>, i: nat) returns (point: Shape, newCoords: seq<Shape>)
      requires i < |shapeCoords|
      ensures newCoords == Settle(shapeCoords, i, haversine)
      ensures point.shapeDist == Some(DistanceAt(shapeCoords, i, haversine))
    {
      var pnt := shapeCoords[i];
      newCoords := shapeCoords;
      if pnt.shapeDist == None {
        point := pnt.(shapeDist := Some(CalculateDistance(pnt, shapeCoords, haversine)));
        newCoords := newCoords[IndexOf(shapeCoords, pnt) := point];
      } else {
        point := pnt;
      }
    }

    /** `calculatePercentageDistance`: writes the settled points back into the shape's list. */
    method CalculatePercentageDistance(shapeId: string, coord: (real, real)) returns (r: Perc)
      requires Valid()
      modifies this
      ensures Valid()
      ensures (r, shapeData) == CalculatePercentage(old(shapeData), shapeId, coord, haversine)
      ensures shapeId !in old(shapeData) ==> r == NaN && shapeData == old(shapeData)
      ensures stopDists == old(stopDists)
    {
      if shapeId !in shapeData {
        return NaN;
      }
      var hav := haversine;
      var shapeCoords := shapeData[shapeId];
      ghost var shapes := shapeData;
      var stopPoint, lastPoint;
      // The list is the table's own, so both slot writes land in the table entry; the entry is
      // replaced once, after both, as nothing reads the table in between.
      stopPoint, shapeCoords := FillDistance(shapeCoords, Nearest(shapeCoords, coord, hav));
      ghost var mid := shapeCoords;
      assert |mid| == |shapes[shapeId]|;
      lastPoint, shapeCoords := FillDistance(shapeCoords, |shapeCoords| - 1);
      shapeData := shapeData[shapeId := shapeCoords];
      r := Divide(stopPoint.shapeDist.value, lastPoint.shapeDist.value);
      CalculatePercentageSteps(shapes, shapeId, coord, haversine, stopPoint, mid, lastPoint, shapeCoords);
      assert shapeData == shapes[shapeId := shapeCoords];
    }

    /** `getPercentageDistance`: a cached position, or a computed one that is then cached. */
    method GetPercentageDistance(shapeId: string, stopId: string, coord: (real, real)) returns (r: Perc)
      requires Valid()
      modifies this
      ensures Valid()
      ensures (r, State()) == GetPercentage(old(State()), shapeId, stopId, coord, haversine)
    {
      var sid := shapeId + "-" + stopId;
      if sid in stopDists {
        return stopDists[sid];
      }
      r := CalculatePercentageDistance(shapeId, coord);
      stopDists := stopDists[sid := r];
    }
  }
}
