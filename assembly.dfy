/**
 * The assembly of the published vehicle list (`updateData` in Main.kt) from decoded departure
 * monitor events: each event is matched to a shape through the trip table, and its previous,
 * onward and current stops are placed on that shape through the stop cache of the shape
 * resolver. The resolver's state is threaded through the calls in the order Kotlin makes them.
 */
module Assembly {
  import opened Options
  import opened Strings
  import opened Shapes
  import opened Trips

  // ---------------------------------------------------------------------------------------
  // The decoded response (`DmrResponse.DmrStopEvent` and its nested records)

  datatype DmrParent = DmrParent(id: string)

  datatype DmrLocation = DmrLocation(parent: DmrParent, coord: seq<real>)

  datatype DmrStopName = DmrStopName(name: string)

  datatype DmrTransportation = DmrTransportation(number: string, origin: DmrStopName, destination: DmrStopName)

  /** A stop before or after the monitored one, with its own times and coordinate. */
  datatype DmrRelLocation = DmrRelLocation(
    parent: DmrParent,
    arrivalTimeEstimated: Option<string>,
    arrivalTimePlanned: Option<string>,
    departureTimeEstimated: Option<string>,
    departureTimePlanned: Option<string>,
    coord: seq<real>)

  /** One departure at the monitored stop; the planned departure time is always present. */
  datatype DmrStopEvent = DmrStopEvent(
    location: DmrLocation,
    transportation: DmrTransportation,
    departureTimePlanned: string,
    departureTimeBaseTimetable: Option<string>,
    departureTimeEstimated: Option<string>,
    arrivalTimeEstimated: Option<string>,
    arrivalTimePlanned: Option<string>,
    previousLocations: seq<DmrRelLocation>,
    onwardLocations: seq<DmrRelLocation>)

  // ---------------------------------------------------------------------------------------
  // The output records (Types.kt)

  datatype Stop = Stop(id: string, arrival: Option<string>, departure: Option<string>, perc: Perc)

  datatype PublicTransport = PublicTransport(name: string, stops: seq<Stop>)

  /** The exceptions the mapping can raise: a stop id with fewer than three `:` fields, a short coordinate. */
  datatype Fault = BadStopId(parentId: string) | BadCoord(coord: seq<real>)

  datatype Result<T> = Ok(value: T) | Err(fault: Fault)

  // ---------------------------------------------------------------------------------------
  // Field access that can fail

  /** The short stop id: the third `:`-separated field of a global stop id, or a fault when there is none. */
  function ShortId(parentId: string): (r: Result<string>)
    ensures r.Ok? ==> ':' in parentId && ':' !in r.value
  {
    var fields := Split(parentId, ':');
    ColonFields(parentId);
    if |fields| >= 3 then Ok(fields[2]) else Err(BadStopId(parentId))
  }

  /** The `:` fields of an id contain no `:`, and an id without one is a single field. */
  lemma ColonFields(s: string)
    ensures forall i :: 0 <= i < |Split(s, ':')| ==> ':' !in Split(s, ':')[i]
    ensures ':' !in s ==> |Split(s, ':')| == 1
  {
    SplitFieldsNoSep(s, ':');
    if ':' !in s {
      SplitNoSep(s, ':');
    }
  }

  /** A global stop id `a:b:c...` has the short id `c`. */
  lemma ShortIdOf(a: string, b: string, c: string, rest: string)
    requires ':' !in a && ':' !in b && ':' !in c
    requires rest == [] || rest[0] == ':'
    ensures ShortId(a + ":" + b + ":" + c + rest) == Ok(c)
  {
    assert a + ":" + b + ":" + c + rest == a + [':'] + (b + [':'] + (c + rest));
    assert b + ":" + c + rest == b + [':'] + (c + rest);
    SplitAtFirst(a, ':', b + ":" + c + rest);
    SplitAtFirst(b, ':', c + rest);
    SplitFirstField(c, ':', rest);
  }

  /**
   * Conversely, an id with a short id `c` is `a:b:c`, possibly followed by more `:` fields;
   * the lemma returns `a`, `b` and that remainder.
   */
  lemma ShortIdFields(parentId: string) returns (a: string, b: string, rest: string)
    requires ShortId(parentId).Ok?
    ensures ':' !in a && ':' !in b && (rest == [] || rest[0] == ':')
    ensures parentId == a + ":" + b + ":" + ShortId(parentId).value + rest
  {
    var fields := Split(parentId, ':');
    ColonFields(parentId);
    JoinSplit(parentId, ':');
    a, b := fields[0], fields[1];
    var c := fields[2];
    assert ShortId(parentId).value == c;
    rest := if |fields| == 3 then "" else [':'] + Join(fields[3..], ':');
    var tail := fields[2..];
    assert tail[0] == c;
    if |fields| == 3 {
      assert Join(tail, ':') == c + rest;
    } else {
      assert tail[1..] == fields[3..];
      assert Join(tail, ':') == c + [':'] + Join(fields[3..], ':');
      assert Join(tail, ':') == c + rest;
    }
    assert fields[1..][1..] == tail;
    assert Join(fields[1..], ':') == b + [':'] + Join(tail, ':');
    assert parentId == a + [':'] + (b + [':'] + (c + rest));
    ColonJoin(a, b, c, rest);
  }

  lemma ColonJoin(a: string, b: string, c: string, rest: string)
    ensures a + [':'] + (b + [':'] + (c + rest)) == a + ":" + b + ":" + c + rest
  {
    assert ":" == [':'];
  }

  /** An id without a `:` has no short id. */
  lemma ShortIdNoColon(parentId: string)
    requires ':' !in parentId
    ensures ShortId(parentId) == Err(BadStopId(parentId))
  {
    SplitNoSep(parentId, ':');
  }

  /** The first two entries of a coordinate list as a pair, or a fault when the list is shorter. */
  function CoordPair(coord: seq<real>): (r: Result<(real, real)>)
    ensures r.Ok? <==> |coord| >= 2
    ensures r.Ok? ==> r.value.0 == coord[0] && r.value.1 == coord[1]
  {
    if |coord| >= 2 then Ok((coord[0], coord[1])) else Err(BadCoord(coord))
  }

  // ---------------------------------------------------------------------------------------
  // The stop cache across calls

  /** `later` keeps every cached position of `earlier`, and its shape table stays well formed. */
  ghost predicate Extends(earlier: ShapeState, later: ShapeState)
  {
    ShapesValid(later.shapeData) &&
    forall k :: k in earlier.stopDists ==> k in later.stopDists && later.stopDists[k] == earlier.stopDists[k]
  }

  /** `perc` is the position cached in `st` for the stop `stopId` of shape `shapeId`. */
  ghost predicate Cached(st: ShapeState, shapeId: string, stopId: string, perc: Perc)
  {
    StopKey(shapeId, stopId) in st.stopDists && st.stopDists[StopKey(shapeId, stopId)] == perc
  }

  lemma ExtendsCached(a: ShapeState, b: ShapeState, shapeId: string, stopId: string, perc: Perc)
    requires Cached(a, shapeId, stopId, perc) && Extends(a, b)
    ensures Cached(b, shapeId, stopId, perc)
  {
  }

  /** One position lookup: the shape, the cache key, the coordinate and the position it gave. */
  datatype Lookup = Lookup(shapeId: string, key: string, coord: (real, real), perc: Perc)

  function KeysOf(ls: seq<Lookup>): set<string>
  {
    set i | 0 <= i < |ls| :: ls[i].key
  }

  /**
   * From `st` to `st'` the cache kept its entries and gained entries only for `keys`, and the
   * table still gives every point the same distance.
   */
  ghost predicate Advances(st: ShapeState, st': ShapeState, keys: set<string>, hav: Haversine)
  {
    ShapesValid(st.shapeData) && Extends(st, st') && SameTable(st.shapeData, st'.shapeData, hav) &&
    st'.stopDists.Keys <= st.stopDists.Keys + keys
  }

  /**
   * Every lookup of `ls` that is the first for its key gave the position that key and coordinate
   * have in `st`; a later lookup of the same key gets the cached position of the first.
   */
  ghost predicate FirstsPlaced(st: ShapeState, ls: seq<Lookup>, hav: Haversine)
  {
    ShapesValid(st.shapeData) &&
    forall i {:trigger Placed(st, ls[i].shapeId, ls[i].key, ls[i].coord, hav)} ::
      0 <= i < |ls| && (forall j :: 0 <= j < i ==> ls[j].key != ls[i].key) ==>
        ls[i].perc == Placed(st, ls[i].shapeId, ls[i].key, ls[i].coord, hav)
  }

  /** A key not looked up in between gives the same position in both states. */
  lemma PlacedAdvances(st: ShapeState, st': ShapeState, keys: set<string>, shapeId: string, key: string,
                       coord: (real, real), hav: Haversine)
    requires Advances(st, st', keys, hav) && key !in keys
    ensures Placed(st', shapeId, key, coord, hav) == Placed(st, shapeId, key, coord, hav)
  {
    CalculatePercentageSameTable(st.shapeData, st'.shapeData, shapeId, coord, hav);
  }

  lemma KeysOfAppend(a: seq<Lookup>, b: seq<Lookup>)
    ensures KeysOf(a + b) == KeysOf(a) + KeysOf(b)
  {
    var ab := a + b;
    forall k | k in KeysOf(a) ensures k in KeysOf(ab) {
      var j :| 0 <= j < |a| && a[j].key == k;
      assert ab[j] == a[j];
    }
    forall k | k in KeysOf(b) ensures k in KeysOf(ab) {
      var j :| 0 <= j < |b| && b[j].key == k;
      assert ab[|a| + j] == b[j];
    }
  }

  /** A lookup of `b` that is the first for its key in `a + b` is placed in the state before `a`. */
  lemma FirstsPlacedAppendAt(st: ShapeState, st1: ShapeState, a: seq<Lookup>, b: seq<Lookup>, k: nat,
                             hav: Haversine)
    requires FirstsPlaced(st1, b, hav) && Advances(st, st1, KeysOf(a), hav)
    requires k < |b| && forall j :: 0 <= j < |a| + k ==> (a + b)[j].key != b[k].key
    ensures b[k].perc == Placed(st, b[k].shapeId, b[k].key, b[k].coord, hav)
  {
    var ab := a + b;
    forall j | 0 <= j < k ensures b[j].key != b[k].key {
      assert ab[|a| + j] == b[j];
    }
    forall j | 0 <= j < |a| ensures a[j].key != b[k].key {
      assert ab[j] == a[j];
    }
    assert b[k].key !in KeysOf(a);
    PlacedAdvances(st, st1, KeysOf(a), b[k].shapeId, b[k].key, b[k].coord, hav);
  }

  lemma AdvancesTrans(st: ShapeState, st1: ShapeState, st2: ShapeState, k1: set<string>, k2: set<string>,
                      hav: Haversine)
    requires Advances(st, st1, k1, hav) && Advances(st1, st2, k2, hav)
    ensures Advances(st, st2, k1 + k2, hav)
  {
    SameTableTrans(st.shapeData, st1.shapeData, st2.shapeData, hav);
  }

  lemma FirstsPlacedJoin(st: ShapeState, st1: ShapeState, a: seq<Lookup>, b: seq<Lookup>, hav: Haversine)
    requires FirstsPlaced(st, a, hav) && Advances(st, st1, KeysOf(a), hav) && FirstsPlaced(st1, b, hav)
    ensures FirstsPlaced(st, a + b, hav)
  {
    var ab := a + b;
    forall i | 0 <= i < |ab| && (forall j :: 0 <= j < i ==> ab[j].key != ab[i].key)
      ensures ab[i].perc == Placed(st, ab[i].shapeId, ab[i].key, ab[i].coord, hav)
    {
      if i >= |a| {
        assert ab[i] == b[i - |a|];
        FirstsPlacedAppendAt(st, st1, a, b, i - |a|, hav);
      } else {
        assert ab[i] == a[i];
        FirstsPlacedPrefixAt(st, a, b, i, hav);
      }
    }
  }

  /** A lookup of `a` that is the first for its key in `a + b` is the first in `a` as well. */
  lemma FirstsPlacedPrefixAt(st: ShapeState, a: seq<Lookup>, b: seq<Lookup>, i: nat, hav: Haversine)
    requires FirstsPlaced(st, a, hav)
    requires i < |a| && forall j :: 0 <= j < i ==> (a + b)[j].key != a[i].key
    ensures a[i].perc == Placed(st, a[i].shapeId, a[i].key, a[i].coord, hav)
  {
    forall j | 0 <= j < i ensures a[j].key != a[i].key {
      assert (a + b)[j] == a[j];
    }
  }

  /**
   * Lookups made one after another: the later ones, taken from the state the earlier ones left,
   * are placed in the first state as well.
   */
  lemma FirstsPlacedAppend(st: ShapeState, st1: ShapeState, st2: ShapeState, a: seq<Lookup>, b: seq<Lookup>,
                           hav: Haversine)
    requires FirstsPlaced(st, a, hav) && Advances(st, st1, KeysOf(a), hav)
    requires FirstsPlaced(st1, b, hav) && Advances(st1, st2, KeysOf(b), hav)
    ensures FirstsPlaced(st, a + b, hav) && Advances(st, st2, KeysOf(a + b), hav)
  {
    FirstsPlacedJoin(st, st1, a, b, hav);
    AdvancesTrans(st, st1, st2, KeysOf(a), KeysOf(b), hav);
    KeysOfAppend(a, b);
  }

  /** The lookup list of a single lookup. */
  lemma SingleLookup(st: ShapeState, st': ShapeState, l: Lookup, hav: Haversine)
    requires ShapesValid(st.shapeData) && Advances(st, st', {l.key}, hav)
    requires l.perc == Placed(st, l.shapeId, l.key, l.coord, hav)
    ensures FirstsPlaced(st, [l], hav) && Advances(st, st', KeysOf([l]), hav)
  {
    assert [l][0] == l;
    assert l.key in KeysOf([l]);
    assert KeysOf([l]) == {l.key};
  }

  /** The cache of `st` holds every lookup of `ls` under its key, with the position it gave. */
  ghost predicate Records(st: ShapeState, ls: seq<Lookup>)
  {
    forall i :: 0 <= i < |ls| ==> ls[i].key in st.stopDists && st.stopDists[ls[i].key] == ls[i].perc
  }

  /** Lookups recorded by a state, followed by lookups recorded by a later state, are all in the later one. */
  lemma RecordsJoin(st1: ShapeState, st2: ShapeState, a: seq<Lookup>, b: seq<Lookup>)
    requires Records(st1, a) && Extends(st1, st2) && Records(st2, b)
    ensures Records(st2, a + b)
  {
    var ab := a + b;
    forall i | 0 <= i < |ab| ensures ab[i].key in st2.stopDists && st2.stopDists[ab[i].key] == ab[i].perc {
      if i < |a| {
        assert ab[i] == a[i];
      } else {
        assert ab[i] == b[i - |a|];
      }
    }
  }

  /**
   * A repeated key gives what its first lookup gave: the position of the FIRST coordinate looked
   * up under it, whatever coordinate the later lookup carries.
   */
  lemma RepeatPlaced(st: ShapeState, st': ShapeState, ls: seq<Lookup>, i: nat, j: nat, hav: Haversine)
    requires FirstsPlaced(st, ls, hav) && Records(st', ls)
    requires i < j < |ls| && ls[i].key == ls[j].key && forall k :: 0 <= k < i ==> ls[k].key != ls[i].key
    ensures ls[j].perc == ls[i].perc == Placed(st, ls[i].shapeId, ls[i].key, ls[i].coord, hav)
  {
  }

  // ---------------------------------------------------------------------------------------
  // `toStopList`

  /** A location whose stop id and coordinate can both be read. */
  predicate LocationReadable(loc: DmrRelLocation)
  {
    ShortId(loc.parent.id).Ok? && |loc.coord| >= 2
  }

  /** `s` carries the short id and the estimated-else-planned times of `loc`, whose coordinate can be read. */
  ghost predicate StopFor(loc: DmrRelLocation, s: Stop)
  {
    ShortId(loc.parent.id) == Ok(s.id) && |loc.coord| >= 2 &&
    s.arrival == loc.arrivalTimeEstimated.Or(loc.arrivalTimePlanned) &&
    s.departure == loc.departureTimeEstimated.Or(loc.departureTimePlanned)
  }

  /** One element of `toStopList`: the stop, whose position is looked up under its short id. */
  function ToStop(loc: DmrRelLocation, shapeId: string, st: ShapeState, hav: Haversine)
    : (r: (Result<Stop>, ShapeState))
    requires ShapesValid(st.shapeData)
    ensures Extends(st, r.1)
    ensures r.0.Ok? <==> LocationReadable(loc)
    ensures r.0.Err? ==> r.1 == st
    ensures r.0.Ok? ==> StopFor(loc, r.0.value) && Cached(r.1, shapeId, r.0.value.id, r.0.value.perc)
    ensures r.0.Ok? ==>
              (r.0.value.perc, r.1) == GetPercentage(st, shapeId, r.0.value.id, (loc.coord[0], loc.coord[1]), hav)
    ensures r.0.Ok? ==>
              r.0.value.perc == Placed(st, shapeId, StopKey(shapeId, r.0.value.id), (loc.coord[0], loc.coord[1]), hav) &&
              Advances(st, r.1, {StopKey(shapeId, r.0.value.id)}, hav)
  {
    match ShortId(loc.parent.id)
    case Err(f) => (Err(f), st)
    case Ok(id) =>
      match CoordPair(loc.coord)
      case Err(f) => (Err(f), st)
      case Ok(coord) =>
        var (perc, st') := GetPercentage(st, shapeId, id, coord, hav);
        GetPercentagePlaced(st, shapeId, id, coord, hav);
        (Ok(Stop(id, loc.arrivalTimeEstimated.Or(loc.arrivalTimePlanned),
                 loc.departureTimeEstimated.Or(loc.departureTimePlanned), perc)), st')
  }

  /** The lookups behind a list of stops built from `locs`: short-id keys and the locations' coordinates. */
  ghost function LocationLookups(shapeId: string, locs: seq<DmrRelLocation>, stops: seq<Stop>): (ls: seq<Lookup>)
    requires |stops| == |locs| && forall i :: 0 <= i < |locs| ==> StopFor(locs[i], stops[i])
    ensures |ls| == |locs|
    ensures forall i :: 0 <= i < |locs| ==> ls[i].key == StopKey(shapeId, stops[i].id) && ls[i].perc == stops[i].perc
    decreases |locs|
  {
    if |locs| == 0 then []
    else
      assert StopFor(locs[0], stops[0]);
      assert forall i :: 0 <= i < |locs| - 1 ==> locs[1..][i] == locs[i + 1] && stops[1..][i] == stops[i + 1];
      [Lookup(shapeId, StopKey(shapeId, stops[0].id), (locs[0].coord[0], locs[0].coord[1]), stops[0].perc)] +
      LocationLookups(shapeId, locs[1..], stops[1..])
  }

  /**
   * `toStopList`: the stops of `locs` in order, each looked up in the state the previous lookups
   * left; the first unreadable location raises its fault.
   */
  function ToStopList(locs: seq<DmrRelLocation>, shapeId: string, st: ShapeState, hav: Haversine)
    : (r: (Result<seq<Stop>>, ShapeState))
    requires ShapesValid(st.shapeData)
    ensures Extends(st, r.1)
    ensures r.0.Ok? ==> |r.0.value| == |locs|
    ensures r.0.Ok? ==> forall i :: 0 <= i < |locs| ==>
              StopFor(locs[i], r.0.value[i]) && Cached(r.1, shapeId, r.0.value[i].id, r.0.value[i].perc)
    ensures r.0.Ok? ==>
              FirstsPlaced(st, LocationLookups(shapeId, locs, r.0.value), hav) &&
              Advances(st, r.1, KeysOf(LocationLookups(shapeId, locs, r.0.value)), hav)
    ensures r.0.Ok? ==> Records(r.1, LocationLookups(shapeId, locs, r.0.value))
    decreases |locs|
  {
    if |locs| == 0 then
      assert KeysOf([]) == {};
      (Ok([]), st)
    else
      var (head, st1) := ToStop(locs[0], shapeId, st, hav);
      match head
      case Err(f) => (Err(f), st1)
      case Ok(s) =>
        var (tail, st2) := ToStopList(locs[1..], shapeId, st1, hav);
        match tail
        case Err(f) => (Err(f), st2)
        case Ok(ss) =>
          StopsCons(locs, shapeId, s, ss, st1, st2);
          ToStopListStep(locs, shapeId, [s] + ss, st, st1, st2, hav);
          LocationLookupsRecorded(shapeId, locs, [s] + ss, st2);
          (Ok([s] + ss), st2)
  }

  /** Stops whose positions are all cached record their lookups. */
  lemma LocationLookupsRecorded(shapeId: string, locs: seq<DmrRelLocation>, stops: seq<Stop>, st: ShapeState)
    requires |stops| == |locs| && forall i :: 0 <= i < |locs| ==> StopFor(locs[i], stops[i])
    requires forall i :: 0 <= i < |locs| ==> Cached(st, shapeId, stops[i].id, stops[i].perc)
    ensures Records(st, LocationLookups(shapeId, locs, stops))
  {
    var ls := LocationLookups(shapeId, locs, stops);
    forall i | 0 <= i < |ls| ensures ls[i].key in st.stopDists && st.stopDists[ls[i].key] == ls[i].perc {
      assert Cached(st, shapeId, stops[i].id, stops[i].perc);
    }
  }

  /** The first stop of a list, followed by the rest's stops, is the stop list of all locations. */
  lemma StopsCons(locs: seq<DmrRelLocation>, shapeId: string, s: Stop, ss: seq<Stop>, st1: ShapeState, st2: ShapeState)
    requires |locs| > 0 && StopFor(locs[0], s) && Cached(st1, shapeId, s.id, s.perc) && Extends(st1, st2)
    requires |ss| == |locs| - 1
    requires forall i :: 0 <= i < |ss| ==> StopFor(locs[1..][i], ss[i]) && Cached(st2, shapeId, ss[i].id, ss[i].perc)
    ensures ([s] + ss)[0] == s && ([s] + ss)[1..] == ss
    ensures forall i :: 0 <= i < |locs| ==>
              StopFor(locs[i], ([s] + ss)[i]) && Cached(st2, shapeId, ([s] + ss)[i].id, ([s] + ss)[i].perc)
  {
    ExtendsCached(st1, st2, shapeId, s.id, s.perc);
    forall i | 1 <= i < |locs|
      ensures StopFor(locs[i], ([s] + ss)[i]) && Cached(st2, shapeId, ([s] + ss)[i].id, ([s] + ss)[i].perc)
    {
      assert locs[i] == locs[1..][i - 1] && ([s] + ss)[i] == ss[i - 1];
    }
  }

  /** One step of `ToStopList`: the first stop's lookup, followed by the rest's. */
  lemma ToStopListStep(locs: seq<DmrRelLocation>, shapeId: string, stops: seq<Stop>,
                       st: ShapeState, st1: ShapeState, st2: ShapeState, hav: Haversine)
    requires 0 < |locs| == |stops| && ShapesValid(st.shapeData)
    requires forall i :: 0 <= i < |locs| ==> StopFor(locs[i], stops[i])
    requires StopFor(locs[0], stops[0])
    requires stops[0].perc ==
               Placed(st, shapeId, StopKey(shapeId, stops[0].id), (locs[0].coord[0], locs[0].coord[1]), hav)
    requires Advances(st, st1, {StopKey(shapeId, stops[0].id)}, hav)
    requires FirstsPlaced(st1, LocationLookups(shapeId, locs[1..], stops[1..]), hav)
    requires Advances(st1, st2, KeysOf(LocationLookups(shapeId, locs[1..], stops[1..])), hav)
    ensures FirstsPlaced(st, LocationLookups(shapeId, locs, stops), hav) &&
            Advances(st, st2, KeysOf(LocationLookups(shapeId, locs, stops)), hav)
  {
    var h := Lookup(shapeId, StopKey(shapeId, stops[0].id), (locs[0].coord[0], locs[0].coord[1]), stops[0].perc);
    SingleLookup(st, st1, h, hav);
    FirstsPlacedAppend(st, st1, st2, [h], LocationLookups(shapeId, locs[1..], stops[1..]), hav);
  }

  /** `toStopList` succeeds exactly when every location is readable, whatever the cache holds. */
  lemma {:induction false} ToStopListOkIff(locs: seq<DmrRelLocation>, shapeId: string, st: ShapeState, hav: Haversine)
    requires ShapesValid(st.shapeData)
    ensures ToStopList(locs, shapeId, st, hav).0.Ok? <==> forall i :: 0 <= i < |locs| ==> LocationReadable(locs[i])
    decreases |locs|
  {
    if |locs| > 0 {
      var st1 := ToStop(locs[0], shapeId, st, hav).1;
      ToStopListOkIff(locs[1..], shapeId, st1, hav);
      ReadableCons(locs);
    }
  }

  lemma ReadableCons(locs: seq<DmrRelLocation>)
    requires |locs| > 0
    ensures (forall i :: 0 <= i < |locs| ==> LocationReadable(locs[i])) <==>
            LocationReadable(locs[0]) && forall i :: 0 <= i < |locs| - 1 ==> LocationReadable(locs[1..][i])
  {
    assert forall i :: 1 <= i < |locs| ==> locs[i] == locs[1..][i - 1];
  }

  // ---------------------------------------------------------------------------------------
  // One event (the body of the `mapNotNull`)

  /** The event's own location has a readable stop id and coordinate. */
  predicate CurrentReadable(ev: DmrStopEvent)
  {
    ShortId(ev.location.parent.id).Ok? && |ev.location.coord| >= 2
  }

  /**
   * The monitored stop. Its short id is the stop's `id`, but its position is looked up under the
   * full `parent.id`; the departure falls back to the planned time, which is always present.
   */
  function CurrentStop(ev: DmrStopEvent, shapeId: string, st: ShapeState, hav: Haversine)
    : (r: (Result<Stop>, ShapeState))
    requires ShapesValid(st.shapeData)
    ensures Extends(st, r.1)
    ensures r.0.Ok? <==> CurrentReadable(ev)
    ensures r.0.Err? ==> r.1 == st
    ensures r.0.Ok? ==>
              ShortId(ev.location.parent.id) == Ok(r.0.value.id) &&
              r.0.value.arrival == ev.arrivalTimeEstimated.Or(ev.arrivalTimePlanned) &&
              r.0.value.departure == Some(ev.departureTimeEstimated.OrElse(ev.departureTimePlanned)) &&
              Cached(r.1, shapeId, ev.location.parent.id, r.0.value.perc)
    ensures r.0.Ok? ==>
              (r.0.value.perc, r.1) ==
                GetPercentage(st, shapeId, ev.location.parent.id, (ev.location.coord[0], ev.location.coord[1]), hav)
    ensures r.0.Ok? ==>
              r.0.value.perc == Placed(st, shapeId, StopKey(shapeId, ev.location.parent.id),
                                       (ev.location.coord[0], ev.location.coord[1]), hav) &&
              Advances(st, r.1, {StopKey(shapeId, ev.location.parent.id)}, hav)
  {
    match ShortId(ev.location.parent.id)
    case Err(f) => (Err(f), st)
    case Ok(id) =>
      match CoordPair(ev.location.coord)
      case Err(f) => (Err(f), st)
      case Ok(coord) =>
        var (perc, st') := GetPercentage(st, shapeId, ev.location.parent.id, coord, hav);
        GetPercentagePlaced(st, shapeId, ev.location.parent.id, coord, hav);
        (Ok(Stop(id, ev.arrivalTimeEstimated.Or(ev.arrivalTimePlanned),
                 Some(ev.departureTimeEstimated.OrElse(ev.departureTimePlanned)), perc)), st')
  }

  /** The shape of each event, as the trip table resolves its line number, origin and destination names. */
  function ShapeFinder(trips: seq<Trip>): DmrStopEvent -> Option<string>
  {
    (ev: DmrStopEvent) => ResolveShapeId(trips, ev.transportation.number, ev.transportation.origin.name, ev.transportation.destination.name)
  }

  /**
   * `stops` is the previous stops, the onward stops and then the current stop of `ev`, in that
   * order, each with its short id and its estimated-else-planned times.
   */
  ghost predicate StopsInOrder(ev: DmrStopEvent, stops: seq<Stop>)
  {
    var prev := ev.previousLocations;
    var next := ev.onwardLocations;
    |stops| == |prev| + |next| + 1 &&
    (forall i :: 0 <= i < |prev| ==> StopFor(prev[i], stops[i])) &&
    (forall i :: 0 <= i < |next| ==> StopFor(next[i], stops[|prev| + i])) &&
    ShortId(ev.location.parent.id) == Ok(stops[|stops| - 1].id) && |ev.location.coord| >= 2 &&
    stops[|stops| - 1].arrival == ev.arrivalTimeEstimated.Or(ev.arrivalTimePlanned) &&
    stops[|stops| - 1].departure == Some(ev.departureTimeEstimated.OrElse(ev.departureTimePlanned))
  }

  lemma StopsInOrderConcat(ev: DmrStopEvent, prevStops: seq<Stop>, nextStops: seq<Stop>, thisStop: Stop)
    requires |prevStops| == |ev.previousLocations| && |nextStops| == |ev.onwardLocations|
    requires forall i :: 0 <= i < |prevStops| ==> StopFor(ev.previousLocations[i], prevStops[i])
    requires forall i :: 0 <= i < |nextStops| ==> StopFor(ev.onwardLocations[i], nextStops[i])
    requires ShortId(ev.location.parent.id) == Ok(thisStop.id) && |ev.location.coord| >= 2
    requires thisStop.arrival == ev.arrivalTimeEstimated.Or(ev.arrivalTimePlanned)
    requires thisStop.departure == Some(ev.departureTimeEstimated.OrElse(ev.departureTimePlanned))
    ensures StopsInOrder(ev, prevStops + nextStops + [thisStop])
  {
    var stops := prevStops + nextStops + [thisStop];
    assert forall i :: 0 <= i < |prevStops| ==> stops[i] == prevStops[i];
    assert forall i :: 0 <= i < |nextStops| ==> stops[|prevStops| + i] == nextStops[i];
  }

  /**
   * The lookups behind an event's stops, in the order they are made: the previous stops, the
   * onward stops, then the current stop under its full id.
   */
  ghost function EventLookups(ev: DmrStopEvent, shapeId: string, stops: seq<Stop>): seq<Lookup>
    requires StopsInOrder(ev, stops)
  {
    var p := |ev.previousLocations|;
    var q := |ev.onwardLocations|;
    var mid := stops[p..p + q];
    assert forall i :: 0 <= i < q ==> mid[i] == stops[p + i];
    LocationLookups(shapeId, ev.previousLocations, stops[..p]) +
    LocationLookups(shapeId, ev.onwardLocations, mid) +
    [Lookup(shapeId, StopKey(shapeId, ev.location.parent.id), (ev.location.coord[0], ev.location.coord[1]),
            stops[p + q].perc)]
  }

  /**
   * The vehicle of an event whose shape is `shapeId`: its line number, its stops in order, and
   * their positions as the state the event starts from places them.
   */
  function Vehicle(ev: DmrStopEvent, shapeId: string, st: ShapeState, hav: Haversine)
    : (r: (Result<PublicTransport>, ShapeState))
    requires ShapesValid(st.shapeData)
    ensures Extends(st, r.1)
    ensures r.0.Ok? ==> r.0.value.name == ev.transportation.number && StopsInOrder(ev, r.0.value.stops)
    ensures r.0.Ok? ==>
              FirstsPlaced(st, EventLookups(ev, shapeId, r.0.value.stops), hav) &&
              Advances(st, r.1, KeysOf(EventLookups(ev, shapeId, r.0.value.stops)), hav)
    ensures r.0.Ok? ==> Records(r.1, EventLookups(ev, shapeId, r.0.value.stops))
  {
    var (prev, st1) := ToStopList(ev.previousLocations, shapeId, st, hav);
    match prev
    case Err(f) => (Err(f), st1)
    case Ok(prevStops) =>
      var (next, st2) := ToStopList(ev.onwardLocations, shapeId, st1, hav);
      match next
      case Err(f) => (Err(f), st2)
      case Ok(nextStops) =>
        var (current, st3) := CurrentStop(ev, shapeId, st2, hav);
        match current
        case Err(f) => (Err(f), st3)
        case Ok(thisStop) =>
          VehicleStops(ev, shapeId, st, st1, st2, st3, prevStops, nextStops, thisStop, hav);
          VehicleRecords(ev, shapeId, st1, st2, st3, prevStops, nextStops, thisStop);
          (Ok(PublicTransport(ev.transportation.number, prevStops + nextStops + [thisStop])), st3)
  }

  /** The three lookup runs of `Vehicle`, joined. */
  lemma VehicleStops(ev: DmrStopEvent, shapeId: string, st: ShapeState, st1: ShapeState, st2: ShapeState,
                     st3: ShapeState, prevStops: seq<Stop>, nextStops: seq<Stop>, thisStop: Stop, hav: Haversine)
    requires |prevStops| == |ev.previousLocations| && |nextStops| == |ev.onwardLocations|
    requires forall i :: 0 <= i < |prevStops| ==> StopFor(ev.previousLocations[i], prevStops[i])
    requires forall i :: 0 <= i < |nextStops| ==> StopFor(ev.onwardLocations[i], nextStops[i])
    requires ShortId(ev.location.parent.id) == Ok(thisStop.id) && |ev.location.coord| >= 2
    requires thisStop.arrival == ev.arrivalTimeEstimated.Or(ev.arrivalTimePlanned)
    requires thisStop.departure == Some(ev.departureTimeEstimated.OrElse(ev.departureTimePlanned))
    requires FirstsPlaced(st, LocationLookups(shapeId, ev.previousLocations, prevStops), hav)
    requires Advances(st, st1, KeysOf(LocationLookups(shapeId, ev.previousLocations, prevStops)), hav)
    requires FirstsPlaced(st1, LocationLookups(shapeId, ev.onwardLocations, nextStops), hav)
    requires Advances(st1, st2, KeysOf(LocationLookups(shapeId, ev.onwardLocations, nextStops)), hav)
    requires thisStop.perc == Placed(st2, shapeId, StopKey(shapeId, ev.location.parent.id),
                                     (ev.location.coord[0], ev.location.coord[1]), hav)
    requires Advances(st2, st3, {StopKey(shapeId, ev.location.parent.id)}, hav)
    ensures StopsInOrder(ev, prevStops + nextStops + [thisStop])
    ensures FirstsPlaced(st, EventLookups(ev, shapeId, prevStops + nextStops + [thisStop]), hav) &&
            Advances(st, st3, KeysOf(EventLookups(ev, shapeId, prevStops + nextStops + [thisStop])), hav)
  {
    StopsInOrderConcat(ev, prevStops, nextStops, thisStop);
    var stops := prevStops + nextStops + [thisStop];
    var lp := LocationLookups(shapeId, ev.previousLocations, prevStops);
    var ln := LocationLookups(shapeId, ev.onwardLocations, nextStops);
    var lc := Lookup(shapeId, StopKey(shapeId, ev.location.parent.id),
                     (ev.location.coord[0], ev.location.coord[1]), thisStop.perc);
    EventLookupsSplit(ev, shapeId, prevStops, nextStops, thisStop);
    FirstsPlacedAppend(st, st1, st2, lp, ln, hav);
    SingleLookup(st2, st3, lc, hav);
    FirstsPlacedAppend(st, st2, st3, lp + ln, [lc], hav);
  }

  /** An event's lookups are those of its previous stops, of its onward stops, then of its current stop. */
  lemma EventLookupsSplit(ev: DmrStopEvent, shapeId: string, prevStops: seq<Stop>, nextStops: seq<Stop>, thisStop: Stop)
    requires |prevStops| == |ev.previousLocations| && |nextStops| == |ev.onwardLocations|
    requires forall i :: 0 <= i < |prevStops| ==> StopFor(ev.previousLocations[i], prevStops[i])
    requires forall i :: 0 <= i < |nextStops| ==> StopFor(ev.onwardLocations[i], nextStops[i])
    requires StopsInOrder(ev, prevStops + nextStops + [thisStop])
    ensures EventLookups(ev, shapeId, prevStops + nextStops + [thisStop]) ==
              LocationLookups(shapeId, ev.previousLocations, prevStops) +
              LocationLookups(shapeId, ev.onwardLocations, nextStops) +
              [Lookup(shapeId, StopKey(shapeId, ev.location.parent.id),
                      (ev.location.coord[0], ev.location.coord[1]), thisStop.perc)]
  {
    var stops := prevStops + nextStops + [thisStop];
    assert stops[..|prevStops|] == prevStops;
    assert stops[|prevStops|..|prevStops| + |nextStops|] == nextStops;
  }

  /** The three lookup runs of `Vehicle` are all recorded in the final state. */
  lemma VehicleRecords(ev: DmrStopEvent, shapeId: string, st1: ShapeState, st2: ShapeState, st3: ShapeState,
                       prevStops: seq<Stop>, nextStops: seq<Stop>, thisStop: Stop)
    requires |prevStops| == |ev.previousLocations| && |nextStops| == |ev.onwardLocations|
    requires forall i :: 0 <= i < |prevStops| ==> StopFor(ev.previousLocations[i], prevStops[i])
    requires forall i :: 0 <= i < |nextStops| ==> StopFor(ev.onwardLocations[i], nextStops[i])
    requires StopsInOrder(ev, prevStops + nextStops + [thisStop])
    requires Records(st1, LocationLookups(shapeId, ev.previousLocations, prevStops)) && Extends(st1, st2)
    requires Records(st2, LocationLookups(shapeId, ev.onwardLocations, nextStops)) && Extends(st2, st3)
    requires Cached(st3, shapeId, ev.location.parent.id, thisStop.perc)
    ensures Records(st3, EventLookups(ev, shapeId, prevStops + nextStops + [thisStop]))
  {
    var stops := prevStops + nextStops + [thisStop];
    var lp := LocationLookups(shapeId, ev.previousLocations, prevStops);
    var ln := LocationLookups(shapeId, ev.onwardLocations, nextStops);
    var lc := Lookup(shapeId, StopKey(shapeId, ev.location.parent.id),
                     (ev.location.coord[0], ev.location.coord[1]), thisStop.perc);
    EventLookupsSplit(ev, shapeId, prevStops, nextStops, thisStop);
    RecordsJoin(st1, st2, lp, ln);
    assert [lc][0] == lc;
    RecordsJoin(st2, st3, lp + ln, [lc]);
  }

  /** One event: dropped (`None`) when no shape is found, else the vehicle on the shape found. */
  function ProcessEvent(findShape: DmrStopEvent -> Option<string>, ev: DmrStopEvent, st: ShapeState, hav: Haversine)
    : (r: (Result<Option<PublicTransport>>, ShapeState))
    requires ShapesValid(st.shapeData)
    ensures Extends(st, r.1)
    ensures findShape(ev).None? <==> r.0 == Ok(None)
    ensures findShape(ev).None? ==> r.1 == st
    ensures findShape(ev).Some? ==>
              var (v, st') := Vehicle(ev, findShape(ev).value, st, hav);
              r.1 == st' && (r.0.Ok? <==> v.Ok?) && (v.Ok? ==> r.0 == Ok(Some(v.value)))
  {
    match findShape(ev)
    case None => (Ok(None), st)
    case Some(shapeId) =>
      var (v, st') := Vehicle(ev, shapeId, st, hav);
      match v
      case Err(f) => (Err(f), st')
      case Ok(pt) => (Ok(Some(pt)), st')
  }

  /** Every location of the event can be read. */
  predicate LocationsReadable(ev: DmrStopEvent)
  {
    (forall i :: 0 <= i < |ev.previousLocations| ==> LocationReadable(ev.previousLocations[i])) &&
    (forall i :: 0 <= i < |ev.onwardLocations| ==> LocationReadable(ev.onwardLocations[i])) &&
    CurrentReadable(ev)
  }

  /** A vehicle is built exactly when every location of its event can be read. */
  lemma VehicleOkIff(ev: DmrStopEvent, shapeId: string, st: ShapeState, hav: Haversine)
    requires ShapesValid(st.shapeData)
    ensures Vehicle(ev, shapeId, st, hav).0.Ok? <==> LocationsReadable(ev)
  {
    var (prev, st1) := ToStopList(ev.previousLocations, shapeId, st, hav);
    ToStopListOkIff(ev.previousLocations, shapeId, st, hav);
    if prev.Ok? {
      ToStopListOkIff(ev.onwardLocations, shapeId, st1, hav);
    }
  }

  /** An event raises no fault exactly when it is dropped or all its locations are readable. */
  lemma ProcessEventOkIff(findShape: DmrStopEvent -> Option<string>, ev: DmrStopEvent, st: ShapeState, hav: Haversine)
    requires ShapesValid(st.shapeData)
    ensures ProcessEvent(findShape, ev, st, hav).0.Ok? <==> findShape(ev).None? || LocationsReadable(ev)
  {
    if findShape(ev).Some? {
      VehicleOkIff(ev, findShape(ev).value, st, hav);
    }
  }

  /**
   * Every stop's position is the one cached under its key: the short id for previous and onward
   * stops, the full `parent.id` for the current stop.
   */
  lemma VehicleCached(ev: DmrStopEvent, shapeId: string, st: ShapeState, hav: Haversine)
    requires ShapesValid(st.shapeData)
    ensures var (r, st') := Vehicle(ev, shapeId, st, hav);
            r.Ok? ==>
              (forall i :: 0 <= i < |r.value.stops| - 1 ==> Cached(st', shapeId, r.value.stops[i].id, r.value.stops[i].perc)) &&
              Cached(st', shapeId, ev.location.parent.id, r.value.stops[|r.value.stops| - 1].perc)
  {
    var (prev, st1) := ToStopList(ev.previousLocations, shapeId, st, hav);
    if prev.Ok? {
      var (next, st2) := ToStopList(ev.onwardLocations, shapeId, st1, hav);
      if next.Ok? {
        var (current, st3) := CurrentStop(ev, shapeId, st2, hav);
        if current.Ok? {
          CachedConcat(shapeId, prev.value, next.value, current.value, st1, st2, st3);
        }
      }
    }
  }

  /** Entries cached by the three lookup runs of a vehicle are all in the final state. */
  lemma CachedConcat(shapeId: string, prevStops: seq<Stop>, nextStops: seq<Stop>, thisStop: Stop,
                     st1: ShapeState, st2: ShapeState, st3: ShapeState)
    requires forall i :: 0 <= i < |prevStops| ==> Cached(st1, shapeId, prevStops[i].id, prevStops[i].perc)
    requires forall i :: 0 <= i < |nextStops| ==> Cached(st2, shapeId, nextStops[i].id, nextStops[i].perc)
    requires Extends(st1, st2) && Extends(st2, st3)
    ensures var stops := prevStops + nextStops + [thisStop];
            forall i :: 0 <= i < |stops| - 1 ==> Cached(st3, shapeId, stops[i].id, stops[i].perc)
  {
    var stops := prevStops + nextStops + [thisStop];
    forall i | 0 <= i < |stops| - 1
      ensures Cached(st3, shapeId, stops[i].id, stops[i].perc)
    {
      if i < |prevStops| {
        assert stops[i] == prevStops[i];
        ExtendsCached(st1, st2, shapeId, stops[i].id, stops[i].perc);
        ExtendsCached(st2, st3, shapeId, stops[i].id, stops[i].perc);
      } else {
        assert stops[i] == nextStops[i - |prevStops|];
        ExtendsCached(st2, st3, shapeId, stops[i].id, stops[i].perc);
      }
    }
  }

  /**
   * Within one shape, the current stop's key is never the key its short id forms, so the two
   * kinds of stop never share an entry of that shape.
   */
  lemma CurrentKeyDiffers(shapeId: string, parentId: string)
    requires ShortId(parentId).Ok?
    ensures StopKey(shapeId, parentId) != StopKey(shapeId, ShortId(parentId).value)
  {
    var short := ShortId(parentId).value;
    var n := |shapeId| + 1;
    assert StopKey(shapeId, parentId)[n..] == parentId;
    assert StopKey(shapeId, short)[n..] == short;
  }

  // ---------------------------------------------------------------------------------------
  // `updateData`: the `mapNotNull` over all events

  /** The events that resolve to a shape, in event order. */
  function ResolvedEvents(findShape: DmrStopEvent -> Option<string>, events: seq<DmrStopEvent>): (r: seq<DmrStopEvent>)
    ensures forall i :: 0 <= i < |r| ==> findShape(r[i]).Some?
    ensures forall e :: e in r <==> e in events && findShape(e).Some?
    ensures |r| <= |events|
  {
    if |events| == 0 then []
    else (if findShape(events[0]).Some? then [events[0]] else []) + ResolvedEvents(findShape, events[1..])
  }

  /** `pts` are the vehicles of `evs`, one per event and in order, each with its line number and stops. */
  ghost predicate Publishes(evs: seq<DmrStopEvent>, pts: seq<PublicTransport>)
  {
    |pts| == |evs| &&
    forall i :: 0 <= i < |evs| ==> pts[i].name == evs[i].transportation.number && StopsInOrder(evs[i], pts[i].stops)
  }

  /** The lookups behind the vehicles `pts` of the resolved events `evs`, in the order they are made. */
  ghost function RunLookups(findShape: DmrStopEvent -> Option<string>, evs: seq<DmrStopEvent>,
                            pts: seq<PublicTransport>): seq<Lookup>
    requires Publishes(evs, pts) && forall i :: 0 <= i < |evs| ==> findShape(evs[i]).Some?
    decreases |evs|
  {
    if |evs| == 0 then []
    else
      assert forall i :: 0 <= i < |evs| - 1 ==> evs[1..][i] == evs[i + 1] && pts[1..][i] == pts[i + 1];
      EventLookups(evs[0], findShape(evs[0]).value, pts[0].stops) + RunLookups(findShape, evs[1..], pts[1..])
  }

  /**
   * The vehicles of all events, in order, dropping those without a shape; the events share one
   * resolver state, and the first fault ends the run.
   */
  function UpdateData(findShape: DmrStopEvent -> Option<string>, events: seq<DmrStopEvent>, st: ShapeState, hav: Haversine)
    : (r: (Result<seq<PublicTransport>>, ShapeState))
    requires ShapesValid(st.shapeData)
    ensures Extends(st, r.1)
    ensures r.0.Ok? ==> Publishes(ResolvedEvents(findShape, events), r.0.value)
    ensures r.0.Ok? ==>
              FirstsPlaced(st, RunLookups(findShape, ResolvedEvents(findShape, events), r.0.value), hav) &&
              Advances(st, r.1, KeysOf(RunLookups(findShape, ResolvedEvents(findShape, events), r.0.value)), hav)
    ensures r.0.Ok? ==> Records(r.1, RunLookups(findShape, ResolvedEvents(findShape, events), r.0.value))
    decreases |events|
  {
    if |events| == 0 then
      assert KeysOf([]) == {};
      (Ok([]), st)
    else
      var (head, st1) := ProcessEvent(findShape, events[0], st, hav);
      match head
      case Err(f) => (Err(f), st1)
      case Ok(pt) =>
        var (tail, st2) := UpdateData(findShape, events[1..], st1, hav);
        match tail
        case Err(f) => (Err(f), st2)
        case Ok(pts) =>
          UpdateDataStep(findShape, events, st, st1, st2, pt, pts, hav);
          UpdateDataRecords(findShape, events, st1, st2, pt, pts);
          ((Ok((if pt.Some? then [pt.value] else []) + pts)), st2)
  }

  lemma PublishesCons(ev: DmrStopEvent, rest: seq<DmrStopEvent>, pt: PublicTransport, pts: seq<PublicTransport>)
    requires pt.name == ev.transportation.number && StopsInOrder(ev, pt.stops) && Publishes(rest, pts)
    ensures Publishes([ev] + rest, [pt] + pts)
  {
    var evs := [ev] + rest;
    var out := [pt] + pts;
    assert evs[0] == ev && out[0] == pt;
    assert forall i :: 1 <= i < |evs| ==> evs[i] == rest[i - 1] && out[i] == pts[i - 1];
  }

  lemma RunLookupsCons(findShape: DmrStopEvent -> Option<string>, ev: DmrStopEvent, rest: seq<DmrStopEvent>,
                       pt: PublicTransport, pts: seq<PublicTransport>)
    requires findShape(ev).Some? && forall i :: 0 <= i < |rest| ==> findShape(rest[i]).Some?
    requires pt.name == ev.transportation.number && StopsInOrder(ev, pt.stops) && Publishes(rest, pts)
    ensures Publishes([ev] + rest, [pt] + pts)
    ensures forall i :: 0 <= i < |[ev] + rest| ==> findShape(([ev] + rest)[i]).Some?
    ensures RunLookups(findShape, [ev] + rest, [pt] + pts) ==
            EventLookups(ev, findShape(ev).value, pt.stops) + RunLookups(findShape, rest, pts)
  {
    PublishesCons(ev, rest, pt, pts);
    var evs := [ev] + rest;
    var out := [pt] + pts;
    assert forall i :: 1 <= i < |evs| ==> evs[i] == rest[i - 1];
    assert evs[0] == ev && out[0] == pt && evs[1..] == rest && out[1..] == pts;
  }

  /** One step of `UpdateData`: the first event's vehicle, if any, followed by the rest's. */
  lemma UpdateDataStep(findShape: DmrStopEvent -> Option<string>, events: seq<DmrStopEvent>,
                       st: ShapeState, st1: ShapeState, st2: ShapeState,
                       pt: Option<PublicTransport>, pts: seq<PublicTransport>, hav: Haversine)
    requires |events| > 0 && ShapesValid(st.shapeData)
    requires pt.None? <==> findShape(events[0]).None?
    requires pt.None? ==> st1 == st
    requires pt.Some? ==>
               pt.value.name == events[0].transportation.number && StopsInOrder(events[0], pt.value.stops) &&
               FirstsPlaced(st, EventLookups(events[0], findShape(events[0]).value, pt.value.stops), hav) &&
               Advances(st, st1, KeysOf(EventLookups(events[0], findShape(events[0]).value, pt.value.stops)), hav)
    requires Publishes(ResolvedEvents(findShape, events[1..]), pts)
    requires FirstsPlaced(st1, RunLookups(findShape, ResolvedEvents(findShape, events[1..]), pts), hav)
    requires Advances(st1, st2, KeysOf(RunLookups(findShape, ResolvedEvents(findShape, events[1..]), pts)), hav)
    ensures var out := (if pt.Some? then [pt.value] else []) + pts;
            Publishes(ResolvedEvents(findShape, events), out) &&
            FirstsPlaced(st, RunLookups(findShape, ResolvedEvents(findShape, events), out), hav) &&
            Advances(st, st2, KeysOf(RunLookups(findShape, ResolvedEvents(findShape, events), out)), hav)
  {
    var rest := ResolvedEvents(findShape, events[1..]);
    var tl := RunLookups(findShape, rest, pts);
    var ev := events[0];
    if pt.Some? {
      var shapeId := findShape(ev).value;
      var hd := EventLookups(ev, shapeId, pt.value.stops);
      assert ResolvedEvents(findShape, events) == [ev] + rest;
      RunLookupsCons(findShape, ev, rest, pt.value, pts);
      FirstsPlacedAppend(st, st1, st2, hd, tl, hav);
    } else {
      assert ResolvedEvents(findShape, events) == rest;
      assert [] + pts == pts;
    }
  }

  /** The lookups of the first event's vehicle, if any, and of the rest's are all recorded in the final state. */
  lemma UpdateDataRecords(findShape: DmrStopEvent -> Option<string>, events: seq<DmrStopEvent>,
                          st1: ShapeState, st2: ShapeState, pt: Option<PublicTransport>, pts: seq<PublicTransport>)
    requires |events| > 0
    requires pt.None? <==> findShape(events[0]).None?
    requires pt.Some? ==>
               pt.value.name == events[0].transportation.number && StopsInOrder(events[0], pt.value.stops) &&
               Records(st1, EventLookups(events[0], findShape(events[0]).value, pt.value.stops))
    requires Extends(st1, st2) && Publishes(ResolvedEvents(findShape, events[1..]), pts)
    requires Records(st2, RunLookups(findShape, ResolvedEvents(findShape, events[1..]), pts))
    requires Publishes(ResolvedEvents(findShape, events), (if pt.Some? then [pt.value] else []) + pts)
    ensures Records(st2, RunLookups(findShape, ResolvedEvents(findShape, events), (if pt.Some? then [pt.value] else []) + pts))
  {
    var rest := ResolvedEvents(findShape, events[1..]);
    var ev := events[0];
    if pt.Some? {
      assert ResolvedEvents(findShape, events) == [ev] + rest;
      RunLookupsCons(findShape, ev, rest, pt.value, pts);
      RecordsJoin(st1, st2, EventLookups(ev, findShape(ev).value, pt.value.stops), RunLookups(findShape, rest, pts));
    } else {
      assert ResolvedEvents(findShape, events) == rest;
      assert [] + pts == pts;
    }
  }

  /** An event that is dropped, or whose every location can be read. */
  predicate EventReadable(findShape: DmrStopEvent -> Option<string>, ev: DmrStopEvent)
  {
    findShape(ev).None? || LocationsReadable(ev)
  }

  /** Every event is readable. */
  predicate AllReadable(findShape: DmrStopEvent -> Option<string>, events: seq<DmrStopEvent>)
  {
    forall i :: 0 <= i < |events| ==> EventReadable(findShape, events[i])
  }

  lemma AllReadableCons(findShape: DmrStopEvent -> Option<string>, events: seq<DmrStopEvent>)
    requires |events| > 0
    ensures AllReadable(findShape, events) <==> EventReadable(findShape, events[0]) && AllReadable(findShape, events[1..])
  {
    assert forall i :: 1 <= i < |events| ==> events[i] == events[1..][i - 1];
  }

  /** The run raises no fault exactly when every event is readable. */
  lemma {:induction false} UpdateDataOkIff(findShape: DmrStopEvent -> Option<string>, events: seq<DmrStopEvent>, st: ShapeState, hav: Haversine)
    requires ShapesValid(st.shapeData)
    ensures UpdateData(findShape, events, st, hav).0.Ok? <==> AllReadable(findShape, events)
    decreases |events|
  {
    if |events| > 0 {
      var (head, st1) := ProcessEvent(findShape, events[0], st, hav);
      ProcessEventOkIff(findShape, events[0], st, hav);
      AllReadableCons(findShape, events);
      if head.Ok? {
        UpdateDataOkIff(findShape, events[1..], st1, hav);
      }
    }
  }

  /** Whether the trip table has a trip of the line `number`. */
  predicate HasTrip(trips: seq<Trip>, number: string)
  {
    exists i :: 0 <= i < |trips| && trips[i].routeId == number
  }

  /** The events whose line has a trip in the table, in event order. */
  function KnownLineEvents(trips: seq<Trip>, events: seq<DmrStopEvent>): seq<DmrStopEvent>
  {
    if |events| == 0 then []
    else (if HasTrip(trips, events[0].transportation.number) then [events[0]] else [])
         + KnownLineEvents(trips, events[1..])
  }

  /**
   * With the trip table's resolver, exactly the events of lines with a trip are kept: an event of
   * an unknown line is dropped, and every other one is published.
   */
  lemma {:induction false} ShapeFinderKeepsKnownLines(trips: seq<Trip>, events: seq<DmrStopEvent>)
    ensures ResolvedEvents(ShapeFinder(trips), events) == KnownLineEvents(trips, events)
    decreases |events|
  {
    if |events| > 0 {
      var t := events[0].transportation;
      ResolveSomeIffRoute(trips, t.number, t.origin.name, t.destination.name);
      ShapeFinderKeepsKnownLines(trips, events[1..]);
    }
  }
}
