/**
 * Trip resolution (`TripManager.kt`): the trips table, and the choice of a shape id for a live
 * event from its line number and its origin and destination labels.
 */
module Trips {
  import opened Options
  import opened Strings
  import Table
  import opened TextMatch

  /** One row of the trips table. */
  datatype Trip = Trip(tripId: string, routeId: string, shapeId: string, headsign: string)

  // ---------------------------------------------------------------------------------------
  // Loading

  /** Columns 0, 2, 3 and 7 of a row are the route id, trip id, headsign and shape id. */
  function TripOf(cols: seq<string>): Trip
    requires |cols| >= 8
  {
    Trip(tripId := cols[2], routeId := cols[0], shapeId := cols[7], headsign := cols[3])
  }

  function TripsOfRows(rows: seq<seq<string>>): seq<Trip>
    requires forall i :: 0 <= i < |rows| ==> |rows[i]| >= 8
  {
    seq(|rows|, i requires 0 <= i < |rows| => TripOf(rows[i]))
  }

  /** The trips of a list of data lines (no header among them). */
  function TripsOfLines(lines: seq<string>): seq<Trip>
  {
    TripsOfRows(Table.RowsOf(lines, 8))
  }

  /** The constructor's parse of the trips file text. */
  function ParseTrips(text: string): seq<Trip>
  {
    TripsOfRows(Table.DataRows(text, 8))
  }

  /** The first line of the file is a header and is skipped, whatever it holds. */
  lemma ParseTripsSkipsHeader(header: string, body: string)
    requires '\n' !in header
    ensures ParseTrips(header + "\n" + body) == TripsOfLines(Split(body, '\n'))
  {
    Table.HeaderSkipped(header, body, 8);
  }

  /** Lines are parsed one by one and the trips keep file order. */
  lemma TripsOfLinesAppend(a: seq<string>, b: seq<string>)
    ensures TripsOfLines(a + b) == TripsOfLines(a) + TripsOfLines(b)
  {
    Table.RowsOfAppend(a, b, 8);
  }

  /** A line with at least 8 fields gives the trip of columns 0, 2, 3 and 7; a shorter one nothing. */
  lemma TripsOfLine(line: string)
    ensures (var cols := Split(line, ',');
             TripsOfLines([line])
             == if |cols| >= 8 then [Trip(cols[2], cols[0], cols[7], cols[3])] else [])
  {
    Table.RowsOfSingle(line, 8);
  }

  // ---------------------------------------------------------------------------------------
  // Best matches

  /** The trips of the route `lineNumber`, in table order. */
  function RouteTrips(trips: seq<Trip>, lineNumber: string): (r: seq<Trip>)
    ensures forall t :: t in r <==> t in trips && t.routeId == lineNumber
    ensures |r| <= |trips|
  {
    if |trips| == 0 then []
    else (if trips[0].routeId == lineNumber then [trips[0]] else []) + RouteTrips(trips[1..], lineNumber)
  }

  /** The similarity of a normalised station name to a trip's normalised headsign. */
  function TripScore(station: string): Trip -> real
  {
    (t: Trip) => Score(station, Normalize(t.headsign))
  }

  lemma TripScoreValues(station: string, t: Trip)
    ensures TripScore(station)(t) == 0.0 || TripScore(station)(t) == 1.0
  {
    ScoreValues(station, Normalize(t.headsign));
  }

  /** The highest score of any trip in `ts`. */
  function MaxScore(ts: seq<Trip>, score: Trip -> real): (m: real)
    requires |ts| > 0
    ensures forall i :: 0 <= i < |ts| ==> score(ts[i]) <= m
    ensures exists i :: 0 <= i < |ts| && score(ts[i]) == m
  {
    var last := score(ts[|ts| - 1]);
    if |ts| == 1 then last
    else
      var m := MaxScore(ts[..|ts| - 1], score);
      assert forall i :: 0 <= i < |ts| - 1 ==> ts[i] == ts[..|ts| - 1][i];
      if m >= last then m else last
  }

  /** The trips of `ts` whose score is `v`, in order. */
  function WithScore(ts: seq<Trip>, score: Trip -> real, v: real): (r: seq<Trip>)
    ensures forall t :: t in r <==> t in ts && score(t) == v
  {
    if |ts| == 0 then []
    else
      var last := ts[|ts| - 1];
      assert ts == ts[..|ts| - 1] + [last];
      WithScore(ts[..|ts| - 1], score, v) + (if score(last) == v then [last] else [])
  }

  /** No trip of `ts` scores `v`: nothing is kept. */
  lemma {:induction false} WithScoreNone(ts: seq<Trip>, score: Trip -> real, v: real)
    requires forall i :: 0 <= i < |ts| ==> score(ts[i]) < v
    ensures WithScore(ts, score, v) == []
  {
    if |ts| > 0 {
      WithScoreNone(ts[..|ts| - 1], score, v);
    }
  }

  /** The trips of `ts` that reach the maximal score, in their order in `ts`. */
  function BestMatches(ts: seq<Trip>, score: Trip -> real): seq<Trip>
  {
    if |ts| == 0 then [] else WithScore(ts, score, MaxScore(ts, score))
  }

  /** A trip is a best match exactly when no trip in `ts` scores higher; there is one when `ts` is non-empty. */
  lemma BestMatchesSpec(ts: seq<Trip>, score: Trip -> real)
    ensures forall t :: t in BestMatches(ts, score)
                <==> t in ts && forall u :: u in ts ==> score(u) <= score(t)
    ensures |ts| > 0 ==> |BestMatches(ts, score)| > 0
  {
    if |ts| > 0 {
      var m := MaxScore(ts, score);
      var i :| 0 <= i < |ts| && score(ts[i]) == m;
      assert ts[i] in BestMatches(ts, score);
    }
  }

  /** The state of one running maximum after the trips `seen`: the initial `-1.0` and `[]` before any. */
  ghost predicate RunningBest(seen: seq<Trip>, score: Trip -> real, bestScore: real, best: seq<Trip>)
  {
    if |seen| == 0 then bestScore == -1.0 && best == []
    else bestScore == MaxScore(seen, score) && best == WithScore(seen, score, bestScore)
  }

  /**
   * One iteration of the best-match loop keeps `RunningBest`: a strictly higher score restarts
   * the list, an equal one appends to it.
   */
  lemma RunningBestStep(seen: seq<Trip>, x: Trip, score: Trip -> real, bestScore: real, best: seq<Trip>)
    requires RunningBest(seen, score, bestScore, best)
    requires score(x) >= 0.0
    ensures RunningBest(seen + [x], score,
                        if score(x) > bestScore then score(x) else bestScore,
                        if score(x) > bestScore then [x] else if score(x) == bestScore then best + [x] else best)
  {
    var all := seen + [x];
    assert all[..|all| - 1] == seen;
    if |seen| > 0 && score(x) > bestScore {
      WithScoreNone(seen, score, score(x));
    }
  }

  /**
   * One step of a running maximum over `ts`: the trip `ts[k]` with score `s` restarts the list
   * when it beats the best score so far and joins it when it ties.
   */
  method KeepBest(ts: seq<Trip>, k: nat, ghost score: Trip -> real, s: real, bestScore: real, best: seq<Trip>)
    returns (newScore: real, newBest: seq<Trip>)
    requires k < |ts| && s == score(ts[k]) && s >= 0.0
    requires RunningBest(ts[..k], score, bestScore, best)
    ensures RunningBest(ts[..k + 1], score, newScore, newBest)
  {
    assert ts[..k + 1] == ts[..k] + [ts[k]];
    RunningBestStep(ts[..k], ts[k], score, bestScore, best);
    if s > bestScore {
      newScore, newBest := s, [ts[k]];
    } else if s == bestScore {
      newScore, newBest := bestScore, best + [ts[k]];
    } else {
      newScore, newBest := bestScore, best;
    }
  }

  /**
   * The loop over the line's trips that keeps the best origin and destination matches; `scoreStart`
   * and `scoreEnd` name, for the proof, the scores the loop computes.
   */
  method CollectBestMatches(matching: seq<Trip>, normStart: string, normEnd: string,
                            ghost scoreStart: Trip -> real, ghost scoreEnd: Trip -> real)
    returns (bestStart: seq<Trip>, bestEnd: seq<Trip>)
    requires forall t {:trigger Normalize(t.headsign)} :: scoreStart(t) == Score(normStart, Normalize(t.headsign))
    requires forall t {:trigger Normalize(t.headsign)} :: scoreEnd(t) == Score(normEnd, Normalize(t.headsign))
    ensures bestStart == BestMatches(matching, scoreStart)
    ensures bestEnd == BestMatches(matching, scoreEnd)
  {
    var bestScoreStart := -1.0;
    bestStart := [];
    var bestScoreEnd := -1.0;
    bestEnd := [];
    var k := 0;
    while k < |matching|
      invariant 0 <= k <= |matching|
      invariant RunningBest(matching[..k], scoreStart, bestScoreStart, bestStart)
      invariant RunningBest(matching[..k], scoreEnd, bestScoreEnd, bestEnd)
    {
      var headsign := Normalize(matching[k].headsign);
      var startScore := Similarity(normStart, headsign);
      var endScore := Similarity(normEnd, headsign);
      bestScoreStart, bestStart := KeepBest(matching, k, scoreStart, startScore, bestScoreStart, bestStart);
      bestScoreEnd, bestEnd := KeepBest(matching, k, scoreEnd, endScore, bestScoreEnd, bestEnd);
      k := k + 1;
    }
    assert matching[..|matching|] == matching;
  }

  // ---------------------------------------------------------------------------------------
  // Choosing the shape id

  /** `getSecondNumericPart`: the integer in the second `_`-separated field, if any. */
  function Disambiguator(shapeId: string): Option<int>
  {
    var parts := Split(shapeId, '_');
    if |parts| >= 2 then ToIntOrNull(parts[1]) else None
  }

  /** An id without `_` has no disambiguator. */
  lemma DisambiguatorNone(shapeId: string)
    requires '_' !in shapeId
    ensures Disambiguator(shapeId) == None
  {
    SplitNoSep(shapeId, '_');
  }

  /**
   * The disambiguator exists exactly when the id has a second `_` field that is a numeral within
   * the `Int` range, and it is that numeral's value: a missing or non-numeric field gives none.
   */
  lemma DisambiguatorNumeric(shapeId: string)
    ensures var parts := Split(shapeId, '_');
            Disambiguator(shapeId).Some? <==>
              |parts| >= 2 && Numeral(parts[1]) && IntMin <= NumeralValue(parts[1]) <= IntMax
    ensures var parts := Split(shapeId, '_');
            Disambiguator(shapeId).Some? ==> Disambiguator(shapeId).value == NumeralValue(parts[1])
  {
  }

  /** An id `prefix_n` or `prefix_n_rest` has disambiguator `n`. */
  lemma DisambiguatorOf(prefix: string, n: int, rest: string)
    requires '_' !in prefix && IntMin <= n <= IntMax
    requires rest == [] || rest[0] == '_'
    ensures Disambiguator(prefix + "_" + ShowInt(n) + rest) == Some(n)
  {
    var id := prefix + "_" + ShowInt(n) + rest;
    assert id == prefix + ['_'] + (ShowInt(n) + rest);
    SplitAtFirst(prefix, '_', ShowInt(n) + rest);
    ShowIntHasNoUnderscore(n);
    SplitFirstField(ShowInt(n), '_', rest);
    ToIntOrNullShowInt(n);
  }

  /** The disambiguator of a trip's shape id. */
  const ShapeNumber: Trip -> Option<int> := (t: Trip) => Disambiguator(t.shapeId)

  /** The first origin candidate whose shape id has the number `d`, if there is one. */
  function FirstWithNumber(starts: seq<Trip>, number: Trip -> Option<int>, d: int): (r: Option<Trip>)
    ensures r.None? <==> forall i :: 0 <= i < |starts| ==> number(starts[i]) != Some(d)
    ensures r.Some? ==> exists i :: 0 <= i < |starts| && starts[i] == r.value && number(starts[i]) == Some(d)
                          && forall j :: 0 <= j < i ==> number(starts[j]) != Some(d)
  {
    if |starts| == 0 then None
    else if number(starts[0]) == Some(d) then Some(starts[0])
    else
      var r := FirstWithNumber(starts[1..], number, d);
      assert forall i :: 0 < i < |starts| ==> starts[i] == starts[1..][i - 1];
      if r.Some? then
        var i :| 0 <= i < |starts[1..]| && starts[1..][i] == r.value && number(starts[1..][i]) == Some(d)
                 && forall j :: 0 <= j < i ==> number(starts[1..][j]) != Some(d);
        assert starts[i + 1] == r.value;
        r
      else r
  }

  /**
   * The `bestMatchesEnd.forEach` loop: for the destination candidates in order, the first origin
   * candidate whose disambiguator equals that candidate's.
   */
  function PairedStart(ends: seq<Trip>, starts: seq<Trip>, number: Trip -> Option<int>): Option<Trip>
  {
    if |ends| == 0 then None
    else match number(ends[0])
      case Some(d) =>
        (match FirstWithNumber(starts, number, d)
         case Some(t) => Some(t)
         case None => PairedStart(ends[1..], starts, number))
      case None => PairedStart(ends[1..], starts, number)
  }

  /** Whether destination candidate `e` and origin candidate `s` have the same disambiguator. */
  predicate Pairs(e: Trip, s: Trip, number: Trip -> Option<int>)
  {
    number(e).Some? && number(s) == number(e)
  }

  /** There is a pairing exactly when some destination and origin candidate share a disambiguator. */
  lemma {:induction false} PairedStartNoneIff(ends: seq<Trip>, starts: seq<Trip>, number: Trip -> Option<int>)
    ensures PairedStart(ends, starts, number).None?
        <==> forall i, j :: 0 <= i < |ends| && 0 <= j < |starts| ==> !Pairs(ends[i], starts[j], number)
    decreases |ends|
  {
    if |ends| > 0 {
      PairedStartNoneIff(ends[1..], starts, number);
      assert forall i :: 0 < i < |ends| ==> ends[i] == ends[1..][i - 1];
      if number(ends[0]).Some? {
        var first := FirstWithNumber(starts, number, number(ends[0]).value);
        if first.Some? {
          var j :| 0 <= j < |starts| && starts[j] == first.value && number(starts[j]) == number(ends[0]);
          assert Pairs(ends[0], starts[j], number);
        }
      }
    }
  }

  /**
   * Destination candidate `i` is the first to have an origin match, and that match is `r`.
   */
  ghost predicate ChosenAt(ends: seq<Trip>, starts: seq<Trip>, number: Trip -> Option<int>, i: int, r: Option<Trip>)
  {
    0 <= i < |ends| && number(ends[i]).Some? && FirstWithNumber(starts, number, number(ends[i]).value) == r &&
    forall k :: 0 <= k < i && number(ends[k]).Some? ==> FirstWithNumber(starts, number, number(ends[k]).value).None?
  }

  /** The pairing chosen is the first origin match of the first destination candidate that has one. */
  lemma {:induction false} PairedStartChoice(ends: seq<Trip>, starts: seq<Trip>, number: Trip -> Option<int>)
    ensures PairedStart(ends, starts, number).Some? ==>
              exists i :: ChosenAt(ends, starts, number, i, PairedStart(ends, starts, number))
    decreases |ends|
  {
    if |ends| > 0 {
      var r := PairedStart(ends, starts, number);
      if number(ends[0]).Some? && FirstWithNumber(starts, number, number(ends[0]).value).Some? {
        assert ChosenAt(ends, starts, number, 0, r);
      } else if r.Some? {
        PairedStartChoice(ends[1..], starts, number);
        assert r == PairedStart(ends[1..], starts, number);
        var i :| ChosenAt(ends[1..], starts, number, i, r);
        assert forall k :: 0 < k < |ends| ==> ends[k] == ends[1..][k - 1];
        assert ChosenAt(ends, starts, number, i + 1, r);
      }
    }
  }

  /** The decision after the best-match loop (`TripManager.kt` lines 115-144). */
  function SelectShape(bestStart: seq<Trip>, bestEnd: seq<Trip>): Option<string>
  {
    if |bestStart| == 0 && |bestEnd| == 0 then None
    else if |bestEnd| == 1 then Some(bestEnd[0].shapeId)
    else match PairedStart(bestEnd, bestStart, ShapeNumber)
      case Some(t) => Some(t.shapeId)
      case None => if |bestEnd| > 0 then Some(bestEnd[0].shapeId) else None
  }

  /** The key under which a lookup is logged: the line number and the two stations, joined by `-`. */
  function TripKey(lineNumber: string, startStation: string, endStation: string): string
  {
    lineNumber + "-" + startStation + "-" + endStation
  }

  /** The answer of `findShapeId`, as a function of the trips table and the three inputs. */
  function ResolveShapeId(trips: seq<Trip>, lineNumber: string, startStation: string, endStation: string)
    : Option<string>
  {
    var matching := RouteTrips(trips, lineNumber);
    if |matching| == 0 then None
    else SelectShape(BestMatches(matching, TripScore(Normalize(startStation))),
                     BestMatches(matching, TripScore(Normalize(endStation))))
  }

  // ---------------------------------------------------------------------------------------
  // Properties of the resolution

  /** The selection yields a shape id exactly when there is a best destination match. */
  lemma SelectShapeSomeIff(bestStart: seq<Trip>, bestEnd: seq<Trip>)
    ensures SelectShape(bestStart, bestEnd).Some? <==> |bestEnd| > 0
  {
  }

  /** The answer is the shape id of a destination or origin best match. */
  lemma SelectShapeFrom(bestStart: seq<Trip>, bestEnd: seq<Trip>)
    ensures SelectShape(bestStart, bestEnd).Some? ==>
              exists t :: (t in bestStart || t in bestEnd) && t.shapeId == SelectShape(bestStart, bestEnd).value
  {
    if |bestEnd| != 1 && PairedStart(bestEnd, bestStart, ShapeNumber).Some? {
      PairedStartChoice(bestEnd, bestStart, ShapeNumber);
      var i :| ChosenAt(bestEnd, bestStart, ShapeNumber, i, PairedStart(bestEnd, bestStart, ShapeNumber));
    }
  }

  /**
   * With several best destination matches, a pairing with an origin match decides, and without
   * one the first destination match is taken.
   */
  lemma SelectShapeSeveralEnds(bestStart: seq<Trip>, bestEnd: seq<Trip>)
    requires |bestEnd| >= 2
    ensures PairedStart(bestEnd, bestStart, ShapeNumber).Some?
        <==> exists i, j :: 0 <= i < |bestEnd| && 0 <= j < |bestStart| && Pairs(bestEnd[i], bestStart[j], ShapeNumber)
    ensures PairedStart(bestEnd, bestStart, ShapeNumber).Some? ==>
              SelectShape(bestStart, bestEnd) == Some(PairedStart(bestEnd, bestStart, ShapeNumber).value.shapeId)
    ensures PairedStart(bestEnd, bestStart, ShapeNumber).None? ==>
              SelectShape(bestStart, bestEnd) == Some(bestEnd[0].shapeId)
  {
    PairedStartNoneIff(bestEnd, bestStart, ShapeNumber);
  }

  /** A shape id is found exactly when the line has a trip: the two late `null` returns are dead. */
  lemma ResolveSomeIffRoute(trips: seq<Trip>, lineNumber: string, startStation: string, endStation: string)
    ensures ResolveShapeId(trips, lineNumber, startStation, endStation).Some?
        <==> exists i :: 0 <= i < |trips| && trips[i].routeId == lineNumber
  {
    var matching := RouteTrips(trips, lineNumber);
    var scoreEnd := TripScore(Normalize(endStation));
    BestMatchesSpec(matching, scoreEnd);
    SelectShapeSomeIff(BestMatches(matching, TripScore(Normalize(startStation))), BestMatches(matching, scoreEnd));
    if exists i :: 0 <= i < |trips| && trips[i].routeId == lineNumber {
      var i :| 0 <= i < |trips| && trips[i].routeId == lineNumber;
      assert trips[i] in matching;
    }
  }

  /** Whatever is returned is the shape id of one of the line's trips. */
  lemma ResolveIsRouteShape(trips: seq<Trip>, lineNumber: string, startStation: string, endStation: string)
    ensures ResolveShapeId(trips, lineNumber, startStation, endStation).Some? ==>
              exists i :: 0 <= i < |trips| && trips[i].routeId == lineNumber
                && trips[i].shapeId == ResolveShapeId(trips, lineNumber, startStation, endStation).value
  {
    var matching := RouteTrips(trips, lineNumber);
    if |matching| > 0 {
      var bs := BestMatches(matching, TripScore(Normalize(startStation)));
      var be := BestMatches(matching, TripScore(Normalize(endStation)));
      BestMatchesSpec(matching, TripScore(Normalize(startStation)));
      BestMatchesSpec(matching, TripScore(Normalize(endStation)));
      SelectShapeFrom(bs, be);
      if SelectShape(bs, be).Some? {
        var t :| (t in bs || t in be) && t.shapeId == SelectShape(bs, be).value;
        var i :| 0 <= i < |trips| && trips[i] == t;
      }
    }
  }

  /** A single best destination match wins outright. */
  lemma ResolveSingleEnd(trips: seq<Trip>, lineNumber: string, startStation: string, endStation: string)
    requires |BestMatches(RouteTrips(trips, lineNumber), TripScore(Normalize(endStation)))| == 1
    ensures ResolveShapeId(trips, lineNumber, startStation, endStation)
         == Some(BestMatches(RouteTrips(trips, lineNumber), TripScore(Normalize(endStation)))[0].shapeId)
  {
  }

  // ---------------------------------------------------------------------------------------
  // The object

  /** `TripManager`: the trips table and the two lookup logs it writes. */
  class TripManager {
    const trips: seq<Trip>
    /** Keys of lookups that found nothing (written, never read). */
    var skipIds: seq<string>
    /** Key of each successful lookup to its shape id (written, never read). */
    var storedTrips: map<string, string>

    /** Loads the trips from the text of the trips file. */
    constructor (tripText: string)
      ensures trips == ParseTrips(tripText)
      ensures skipIds == [] && storedTrips == map[]
    {
      trips := ParseTrips(tripText);
      skipIds := [];
      storedTrips := map[];
    }

    /** `findShapeId` */
    method FindShapeId(lineNumber: string, startStation: string, endStation: string) returns (r: Option<string>)
      modifies this
      ensures r == ResolveShapeId(trips, lineNumber, startStation, endStation)
      ensures r.None? ==> skipIds == old(skipIds) + [TripKey(lineNumber, startStation, endStation)]
                          && storedTrips == old(storedTrips)
      ensures r.Some? ==> skipIds == old(skipIds)
                          && storedTrips == old(storedTrips)[TripKey(lineNumber, startStation, endStation) := r.value]
    {
      var tid := TripKey(lineNumber, startStation, endStation);
      var normStartStation := Normalize(startStation);
      var normEndStation := Normalize(endStation);

      var matchingTrips := RouteTrips(trips, lineNumber);
      if |matchingTrips| == 0 {
        skipIds := skipIds + [tid];
        return None;
      }

      var bestMatchesStart, bestMatchesEnd :=
        CollectBestMatches(matchingTrips, normStartStation, normEndStation,
                           TripScore(normStartStation), TripScore(normEndStation));
      assert ResolveShapeId(trips, lineNumber, startStation, endStation) == SelectShape(bestMatchesStart, bestMatchesEnd);

      if |bestMatchesStart| == 0 && |bestMatchesEnd| == 0 {
        BestMatchesSpec(matchingTrips, TripScore(normEndStation));
        assert false;
      }

      if |bestMatchesEnd| == 1 {
        r := Some(bestMatchesEnd[0].shapeId);
        storedTrips := storedTrips[tid := bestMatchesEnd[0].shapeId];
        return;
      }

      var paired := PairedStart(bestMatchesEnd, bestMatchesStart, ShapeNumber);
      if paired.Some? {
        storedTrips := storedTrips[tid := paired.value.shapeId];
        return Some(paired.value.shapeId);
      }

      if |bestMatchesEnd| > 0 {
        r := Some(bestMatchesEnd[0].shapeId);
        storedTrips := storedTrips[tid := bestMatchesEnd[0].shapeId];
        return;
      }

      BestMatchesSpec(matchingTrips, TripScore(normEndStation));
      assert false;
    }
  }
}
