/** The state-vector loop of the older `fetch_nearby_flights` in test.py. It
    reads four fields instead of six, and its outer `except Exception` turns
    any exception that escapes the loop into an empty result. */
module TestScript {
  import opened PyValues
  import opened OpenSky
  import FlightApi

  /** The default `threshold_km` of this client. */
  const DefaultThresholdKm: real := 10.0

  /** The four fields the loop reads from one state vector. */
  datatype StateFields = StateFields(
    callsign: string,
    latitude: Option<real>,
    longitude: Option<real>,
    altitude: Option<real>)

  /** One entry of the returned list. */
  datatype NearbyAircraft = NearbyAircraft(
    callsign: string,
    latitude: real,
    longitude: real,
    altitude: Option<real>,
    distanceKm: real)

  /** The reads of the loop body, in source order: callsign from index 1,
      latitude from 6, longitude from 5 and altitude from 7. */
  function ReadFields(state: Json, parse: FloatParser): (r: Outcome<StateFields>)
    ensures r.Ok? ==> HasIndex(state, 7)
    ensures r.Ok? ==> CallsignField(state) == Ok(r.value.callsign)
                      && OptionalFloat(state, 6, parse) == Ok(r.value.latitude)
                      && OptionalFloat(state, 5, parse) == Ok(r.value.longitude)
    ensures r.Raise? ==> (Caught(r.exc) <==> !BreaksHandler(state))
  {
    var callsign :- CallsignField(state);
    var latitude :- OptionalFloat(state, 6, parse);
    var longitude :- OptionalFloat(state, 5, parse);
    var altitude :- OptionalFloat(state, 7, parse);
    Ok(StateFields(callsign, latitude, longitude, altitude))
  }

  /** Whether a state reads cleanly and has both coordinates. */
  predicate Positioned(state: Json, parse: FloatParser) {
    var fields := ReadFields(state, parse);
    fields.Ok? && fields.value.latitude.Some? && fields.value.longitude.Some?
  }

  /** The unrounded distance from the balloon to a positioned state. */
  function StateDistance(state: Json, balloonLat: real, balloonLon: real, ext: Externals): real
    requires Positioned(state, ext.parse)
  {
    var fields := ReadFields(state, ext.parse).value;
    ext.geodesic(balloonLat, balloonLon, fields.latitude.value, fields.longitude.value)
  }

  /** What the loop body does with one state. */
  function ProcessState(state: Json, balloonLat: real, balloonLon: real, thresholdKm: real, ext: Externals)
    : Step<NearbyAircraft>
  {
    match ReadFields(state, ext.parse)
    case Raise(e) => if Caught(e) then Continue else Escape(e)
    case Ok(f) =>
      if f.latitude.None? || f.longitude.None? then Continue
      else
        var distanceKm := ext.geodesic(balloonLat, balloonLon, f.latitude.value, f.longitude.value);
        if distanceKm <= thresholdKm then
          Append(NearbyAircraft(f.callsign, f.latitude.value, f.longitude.value, f.altitude, ext.round2(distanceKm)))
        else Continue
  }

  /** When the loop body keeps, skips or escapes on a state. */
  lemma ProcessStateOutcome(state: Json, balloonLat: real, balloonLon: real, thresholdKm: real, ext: Externals)
    // kept exactly when both coordinates are present and the unrounded distance is within the threshold
    ensures var r := ProcessState(state, balloonLat, balloonLon, thresholdKm, ext);
            r.Append? <==>
              Positioned(state, ext.parse) && StateDistance(state, balloonLat, balloonLon, ext) <= thresholdKm
    // a falsy latitude or longitude is never reported
    ensures var r := ProcessState(state, balloonLat, balloonLon, thresholdKm, ext);
            HasIndex(state, 6) && !Truthy(GetItem(state, 6).value) ==> !r.Append?
    ensures var r := ProcessState(state, balloonLat, balloonLon, thresholdKm, ext);
            HasIndex(state, 5) && !Truthy(GetItem(state, 5).value) ==> !r.Append?
    // a state too short for all four reads is skipped
    ensures var r := ProcessState(state, balloonLat, balloonLon, thresholdKm, ext);
            !HasIndex(state, 7) && !BreaksHandler(state) ==> r == Continue
    // only a dict state or a non-string callsign escapes the handler
    ensures var r := ProcessState(state, balloonLat, balloonLon, thresholdKm, ext);
            r.Escape? <==> BreaksHandler(state)
  {
  }

  /** Where each field of a kept record comes from: the four reads of the state,
      with only the reported distance rounded. */
  lemma KeptRecordFields(state: Json, balloonLat: real, balloonLon: real, thresholdKm: real, ext: Externals,
                         rec: NearbyAircraft)
    requires ProcessState(state, balloonLat, balloonLon, thresholdKm, ext) == Append(rec)
    ensures HasIndex(state, 7)
    ensures CallsignField(state) == Ok(rec.callsign)
    ensures OptionalFloat(state, 6, ext.parse) == Ok(Some(rec.latitude))
    ensures OptionalFloat(state, 5, ext.parse) == Ok(Some(rec.longitude))
    ensures OptionalFloat(state, 7, ext.parse) == Ok(rec.altitude)
    ensures ext.geodesic(balloonLat, balloonLon, rec.latitude, rec.longitude) <= thresholdKm
    ensures rec.distanceKm == ext.round2(ext.geodesic(balloonLat, balloonLon, rec.latitude, rec.longitude))
  {
  }

  /** The loop body applied to each state. */
  function Steps(states: seq<Json>, balloonLat: real, balloonLon: real, thresholdKm: real, ext: Externals)
    : (r: seq<Step<NearbyAircraft>>)
    ensures |r| == |states|
    ensures forall i :: 0 <= i < |states| ==> r[i] == ProcessState(states[i], balloonLat, balloonLon, thresholdKm, ext)
  {
    seq(|states|, i requires 0 <= i < |states| => ProcessState(states[i], balloonLat, balloonLon, thresholdKm, ext))
  }

  /** The loop over `data['states']`, before the outer handler. */
  function ScanStates(states: seq<Json>, balloonLat: real, balloonLon: real, thresholdKm: real, ext: Externals)
    : Outcome<seq<NearbyAircraft>>
  {
    Collect(Steps(states, balloonLat, balloonLon, thresholdKm, ext))
  }

  /** The result of lines 16-54 for the decoded response object `data`. Any
      exception escaping the loop is caught by the outer handler, which
      returns an empty list. */
  function NearbyAircraftList(data: seq<(string, Json)>, balloonLat: real, balloonLon: real, thresholdKm: real,
                              ext: Externals)
    : (r: seq<NearbyAircraft>)
    ensures Lookup(data, "states").None? ==> r == []
    ensures Lookup(data, "states") == Some(JNull) ==> r == []
  {
    match Lookup(data, "states")
    case None => []
    case Some(v) =>
      match Iterate(v)
      case Raise(_) => []
      case Ok(states) =>
        match ScanStates(states, balloonLat, balloonLon, thresholdKm, ext)
        case Raise(_) => []
        case Ok(out) => out
  }

  /** The loop as the source runs it: skip with `continue`, append in place,
      and return an empty list from the outer handler. */
  method FetchNearbyFlights(data: seq<(string, Json)>, balloonLat: real, balloonLon: real, ext: Externals,
                            thresholdKm: real := DefaultThresholdKm)
    returns (nearby: seq<NearbyAircraft>)
    ensures nearby == NearbyAircraftList(data, balloonLat, balloonLon, thresholdKm, ext)
  {
    nearby := [];
    var found := Lookup(data, "states");
    if found.Some? {
      var iteration := Iterate(found.value);
      if iteration.Raise? {
        return [];
      }
      var states := iteration.value;
      for i := 0 to |states|
        invariant ScanStates(states[..i], balloonLat, balloonLon, thresholdKm, ext) == Ok(nearby)
      {
        ghost var step := ProcessState(states[i], balloonLat, balloonLon, thresholdKm, ext);
        ScanStep(states, i, balloonLat, balloonLon, thresholdKm, ext, nearby);
        var fields := ReadFields(states[i], ext.parse);
        if fields.Raise? {
          if Caught(fields.exc) {
            assert step == Continue;
            continue;
          }
          assert step == Escape(fields.exc);
          ScanEscapes(states, i, balloonLat, balloonLon, thresholdKm, ext, fields.exc);
          return [];
        }
        var f := fields.value;
        if f.latitude.None? || f.longitude.None? {
          assert step == Continue;
          continue;
        }
        var distanceKm := ext.geodesic(balloonLat, balloonLon, f.latitude.value, f.longitude.value);
        if distanceKm <= thresholdKm {
          var aircraft := NearbyAircraft(f.callsign, f.latitude.value, f.longitude.value, f.altitude,
                                         ext.round2(distanceKm));
          assert step == Append(aircraft);
          nearby := nearby + [aircraft];
        } else {
          assert step == Continue;
        }
      }
      assert states[..|states|] == states;
    }
  }

  /** One more turn of the loop over a prefix of the states. */
  lemma ScanStep(states: seq<Json>, i: nat, balloonLat: real, balloonLon: real, thresholdKm: real, ext: Externals,
                 done: seq<NearbyAircraft>)
    requires i < |states| && ScanStates(states[..i], balloonLat, balloonLon, thresholdKm, ext) == Ok(done)
    ensures ScanStates(states[..i + 1], balloonLat, balloonLon, thresholdKm, ext)
            == Next(done, ProcessState(states[i], balloonLat, balloonLon, thresholdKm, ext))
  {
    var steps := Steps(states, balloonLat, balloonLon, thresholdKm, ext);
    assert steps[..i] == Steps(states[..i], balloonLat, balloonLon, thresholdKm, ext);
    assert steps[..i + 1] == Steps(states[..i + 1], balloonLat, balloonLon, thresholdKm, ext);
    CollectPrefixStep(steps, i, done);
  }

  /** A state that escapes the handler after a prefix that does not ends the
      loop with its exception. */
  lemma ScanEscapes(states: seq<Json>, i: nat, balloonLat: real, balloonLon: real, thresholdKm: real, ext: Externals,
                    e: Exc)
    requires i < |states| && ScanStates(states[..i], balloonLat, balloonLon, thresholdKm, ext).Ok?
    requires ProcessState(states[i], balloonLat, balloonLon, thresholdKm, ext) == Escape(e)
    ensures ScanStates(states, balloonLat, balloonLon, thresholdKm, ext) == Raise(e)
  {
    var steps := Steps(states, balloonLat, balloonLon, thresholdKm, ext);
    assert steps[..i] == Steps(states[..i], balloonLat, balloonLon, thresholdKm, ext);
    EscapeAfterPrefix(steps, i, e);
  }

  /** The positions of the states that produce a record. */
  ghost function KeptPositions(states: seq<Json>, balloonLat: real, balloonLon: real, thresholdKm: real, ext: Externals)
    : seq<nat>
  {
    AppendPositions(Steps(states, balloonLat, balloonLon, thresholdKm, ext))
  }

  /** When no state escapes the handler, the output is the records of the kept
      states in input order, missing none that qualify. */
  lemma OutputFollowsStateOrder(states: seq<Json>, balloonLat: real, balloonLon: real, thresholdKm: real,
                                ext: Externals, out: seq<NearbyAircraft>)
    requires ScanStates(states, balloonLat, balloonLon, thresholdKm, ext) == Ok(out)
    ensures var pos := KeptPositions(states, balloonLat, balloonLon, thresholdKm, ext);
            && |pos| == |out|
            && (forall k :: 0 <= k < |pos| ==>
                  pos[k] < |states| && ProcessState(states[pos[k]], balloonLat, balloonLon, thresholdKm, ext) == Append(out[k]))
            && (forall k1, k2 :: 0 <= k1 < k2 < |pos| ==> pos[k1] < pos[k2])
            && (forall i :: 0 <= i < |states| && Positioned(states[i], ext.parse)
                               && StateDistance(states[i], balloonLat, balloonLon, ext) <= thresholdKm
                    ==> i in pos)
  {
    var steps := Steps(states, balloonLat, balloonLon, thresholdKm, ext);
    CollectIsOrderedSubsequence(steps, out);
    forall i | 0 <= i < |states| && Positioned(states[i], ext.parse)
               && StateDistance(states[i], balloonLat, balloonLon, ext) <= thresholdKm
      ensures steps[i].Append?
    {
      ProcessStateOutcome(states[i], balloonLat, balloonLon, thresholdKm, ext);
    }
  }

  /** One state that escapes the handler empties the whole result, even when
      other states were within range. */
  lemma EscapingStateEmptiesResult(data: seq<(string, Json)>, before: seq<Json>, state: Json, after: seq<Json>,
                                   balloonLat: real, balloonLon: real, thresholdKm: real, ext: Externals)
    requires Lookup(data, "states") == Some(JArr(before + [state] + after))
    requires BreaksHandler(state)
    ensures NearbyAircraftList(data, balloonLat, balloonLon, thresholdKm, ext) == []
  {
    var steps := Steps(before + [state] + after, balloonLat, balloonLon, thresholdKm, ext);
    ProcessStateOutcome(state, balloonLat, balloonLon, thresholdKm, ext);
    assert steps[|before|].Escape?;
    CollectRaisesOnEscape(steps);
  }

  /** Every state the six-field client keeps, this client keeps too, with the
      same callsign, position, altitude and reported distance. */
  lemma KeepsWhatFlightApiKeeps(state: Json, balloonLat: real, balloonLon: real, thresholdKm: real, ext: Externals)
    requires FlightApi.ProcessState(state, balloonLat, balloonLon, thresholdKm, ext).Append?
    ensures var mine := ProcessState(state, balloonLat, balloonLon, thresholdKm, ext);
            var theirs := FlightApi.ProcessState(state, balloonLat, balloonLon, thresholdKm, ext).record;
            && mine.Append?
            && mine.record == NearbyAircraft(theirs.callsign, theirs.latitude, theirs.longitude, theirs.altitude,
                                             theirs.distanceKm)
  {
    var theirs := FlightApi.ProcessState(state, balloonLat, balloonLon, thresholdKm, ext).record;
    FlightApi.KeptRecordFields(state, balloonLat, balloonLon, thresholdKm, ext, theirs);
    assert ReadFields(state, ext.parse)
           == Ok(StateFields(theirs.callsign, Some(theirs.latitude), Some(theirs.longitude), theirs.altitude));
  }

  /** The reverse fails: a state with only eight positions is reported here,
      while the six-field client skips it with an `IndexError` at index 9. */
  lemma ShortStateKeptOnlyHere(balloonLat: real, balloonLon: real, thresholdKm: real, ext: Externals)
    requires ext.geodesic(balloonLat, balloonLon, 48.5, 11.25) <= thresholdKm
    ensures ProcessState(ShortState(), balloonLat, balloonLon, thresholdKm, ext).Append?
    ensures ProcessState(ShortState(), balloonLat, balloonLon, thresholdKm, ext).record.callsign == "DLH4AB"
    ensures FlightApi.ProcessState(ShortState(), balloonLat, balloonLon, thresholdKm, ext) == Continue
  {
    ShortStateFields(ext.parse);
    ShortStateTooShort(ext.parse);
    var state := ShortState();
    assert Positioned(state, ext.parse);
    assert StateDistance(state, balloonLat, balloonLon, ext) == ext.geodesic(balloonLat, balloonLon, 48.5, 11.25);
    assert FlightApi.ReadFields(state, ext.parse) == Raise(IndexError);
  }

  /** The four reads of this client succeed on the short state. */
  lemma ShortStateFields(parse: FloatParser)
    ensures ReadFields(ShortState(), parse) == Ok(StateFields("DLH4AB", Some(48.5), Some(11.25), Some(10000.0)))
  {
    var state := ShortState();
    ShortStateCallsign();
    ShortStateCoordinates(parse);
  }

  /** Positions 6, 5 and 7 of the short state read as numbers. */
  lemma ShortStateCoordinates(parse: FloatParser)
    ensures OptionalFloat(ShortState(), 6, parse) == Ok(Some(48.5))
    ensures OptionalFloat(ShortState(), 5, parse) == Ok(Some(11.25))
    ensures OptionalFloat(ShortState(), 7, parse) == Ok(Some(10000.0))
  {
    var state := ShortState();
    assert state.items[5] == JNum(11.25) && state.items[6] == JNum(48.5) && state.items[7] == JNum(10000.0);
    OptionalFloatOfNumber(state, 6, 48.5, parse);
    OptionalFloatOfNumber(state, 5, 11.25, parse);
    OptionalFloatOfNumber(state, 7, 10000.0, parse);
  }

  /** The six-field client's read of index 9 raises `IndexError` on the short
      state, after its first four reads succeed. */
  lemma ShortStateTooShort(parse: FloatParser)
    ensures FlightApi.ReadFields(ShortState(), parse) == Raise(IndexError)
  {
    var state := ShortState();
    ShortStateCallsign();
    ShortStateCoordinates(parse);
    assert GetItem(state, 9) == Raise(IndexError);
    assert OptionalFloat(state, 9, parse) == Raise(IndexError);
  }

  /** An eight-element state vector: no velocity, heading or later fields. */
  function ShortState(): Json {
    JArr([JStr("3c6444"), JStr("DLH4AB  "), JStr("Germany"), JNull, JNull, JNum(11.25), JNum(48.5), JNum(10000.0)])
  }

  /** Its callsign loses the trailing padding. */
  lemma ShortStateCallsign()
    ensures CallsignField(ShortState()) == Ok("DLH4AB")
  {
    var padded := JStr("DLH4AB  ");
    assert ShortState().items[1] == padded;
    assert GetItem(ShortState(), 1) == Ok(padded) && Truthy(padded);
    StripRemovesPadding("DLH4AB", "  ");
    assert "DLH4AB" + "  " == padded.s;
  }
}
