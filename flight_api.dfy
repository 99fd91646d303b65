/** The state-vector loop of `fetch_nearby_flights` in utils/flight_api.py:
    given the decoded OpenSky response, keep the aircraft within
    `thresholdKm` of the balloon. The HTTP request and its status handling
    are not part of this model. */
module FlightApi {
  import opened PyValues
  import opened OpenSky

  /** The default `threshold_km` of this client. */
  const DefaultThresholdKm: real := 100.0

  /** The six fields the loop reads from one state vector. */
  datatype StateFields = StateFields(
    callsign: string,
    latitude: Option<real>,
    longitude: Option<real>,
    altitude: Option<real>,
    velocity: Option<real>,
    heading: Option<real>)

  /** One entry of the returned list. */
  datatype NearbyFlight = NearbyFlight(
    callsign: string,
    latitude: real,
    longitude: real,
    altitude: Option<real>,
    velocity: Option<real>,
    heading: Option<real>,
    distanceKm: real)

  /** The reads of the loop body, in source order: callsign from index 1,
      latitude from 6, longitude from 5, altitude from 7, velocity from 9 and
      heading from 10. The first read that raises decides the exception. */
  function ReadFields(state: Json, parse: FloatParser): (r: Outcome<StateFields>)
    ensures r.Ok? ==> HasIndex(state, 10)
    ensures r.Ok? ==> CallsignField(state) == Ok(r.value.callsign)
                      && OptionalFloat(state, 6, parse) == Ok(r.value.latitude)
                      && OptionalFloat(state, 5, parse) == Ok(r.value.longitude)
    ensures r.Raise? ==> (Caught(r.exc) <==> !BreaksHandler(state))
  {
    var callsign :- CallsignField(state);
    var latitude :- OptionalFloat(state, 6, parse);
    var longitude :- OptionalFloat(state, 5, parse);
    var altitude :- OptionalFloat(state, 7, parse);
    var velocity :- OptionalFloat(state, 9, parse);
    var heading :- OptionalFloat(state, 10, parse);
    Ok(StateFields(callsign, latitude, longitude, altitude, velocity, heading))
  }

  /** Whether a state reads cleanly and has both coordinates. */
  predicate Positioned(state: Json, parse: FloatParser) {
    var fields := ReadFields(state, parse);
    fields.Ok? && fields.value.latitude.Some? && fields.value.longitude.Some?
  }

  /** The unrounded distance from the balloon to a positioned state. */
  function StateDistance(state: Json, balloonLat: real, balloonLon: real, ext: Externals): real
    requires Positioned(state, ext.parse)
  {
    var fields := ReadFields(state, ext.parse).value;
    ext.geodesic(balloonLat, balloonLon, fields.latitude.value, fields.longitude.value)
  }

  /** What the loop body does with one state. */
  function ProcessState(state: Json, balloonLat: real, balloonLon: real, thresholdKm: real, ext: Externals)
    : Step<NearbyFlight>
  {
    match ReadFields(state, ext.parse)
    case Raise(e) => if Caught(e) then Continue else Escape(e)
    case Ok(f) =>
      if f.latitude.None? || f.longitude.None? then Continue
      else
        var distanceKm := ext.geodesic(balloonLat, balloonLon, f.latitude.value, f.longitude.value);
        if distanceKm <= thresholdKm then
          Append(NearbyFlight(f.callsign, f.latitude.value, f.longitude.value,
                              f.altitude, f.velocity, f.heading, ext.round2(distanceKm)))
        else Continue
  }

  /** When the loop body keeps, skips or escapes on a state. */
  lemma ProcessStateOutcome(state: Json, balloonLat: real, balloonLon: real, thresholdKm: real, ext: Externals)
    // kept exactly when both coordinates are present and the unrounded distance is within the threshold
    ensures var r := ProcessState(state, balloonLat, balloonLon, thresholdKm, ext);
            r.Append? <==>
              Positioned(state, ext.parse) && StateDistance(state, balloonLat, balloonLon, ext) <= thresholdKm
    // a falsy latitude or longitude is never reported
    ensures var r := ProcessState(state, balloonLat, balloonLon, thresholdKm, ext);
            HasIndex(state, 6) && !Truthy(GetItem(state, 6).value) ==> !r.Append?
    ensures var r := ProcessState(state, balloonLat, balloonLon, thresholdKm, ext);
            HasIndex(state, 5) && !Truthy(GetItem(state, 5).value) ==> !r.Append?
    // a state too short for all six reads is skipped
    ensures var r := ProcessState(state, balloonLat, balloonLon, thresholdKm, ext);
            !HasIndex(state, 10) && !BreaksHandler(state) ==> r == Continue
    // only a dict state or a non-string callsign escapes the handler
    ensures var r := ProcessState(state, balloonLat, balloonLon, thresholdKm, ext);
            r.Escape? <==> BreaksHandler(state)
  {
  }

  /** Where each field of a kept record comes from: the six reads of the state,
      with only the reported distance rounded. */
  lemma KeptRecordFields(state: Json, balloonLat: real, balloonLon: real, thresholdKm: real, ext: Externals,
                         rec: NearbyFlight)
    requires ProcessState(state, balloonLat, balloonLon, thresholdKm, ext) == Append(rec)
    ensures HasIndex(state, 10)
    ensures CallsignField(state) == Ok(rec.callsign)
    ensures OptionalFloat(state, 6, ext.parse) == Ok(Some(rec.latitude))
    ensures OptionalFloat(state, 5, ext.parse) == Ok(Some(rec.longitude))
    ensures OptionalFloat(state, 7, ext.parse) == Ok(rec.altitude)
    ensures OptionalFloat(state, 9, ext.parse) == Ok(rec.velocity)
    ensures OptionalFloat(state, 10, ext.parse) == Ok(rec.heading)
    ensures ext.geodesic(balloonLat, balloonLon, rec.latitude, rec.longitude) <= thresholdKm
    ensures rec.distanceKm == ext.round2(ext.geodesic(balloonLat, balloonLon, rec.latitude, rec.longitude))
  {
    var fields := ReadFields(state, ext.parse);
    assert fields.Ok? && fields.value.latitude.Some? && fields.value.longitude.Some?;
    ReadFieldsLater(state, ext.parse);
    var f := fields.value;
    assert rec == NearbyFlight(f.callsign, f.latitude.value, f.longitude.value, f.altitude, f.velocity, f.heading,
                               ext.round2(ext.geodesic(balloonLat, balloonLon, f.latitude.value, f.longitude.value)));
  }

  /** The last three reads of a state that reads cleanly. */
  lemma ReadFieldsLater(state: Json, parse: FloatParser)
    requires ReadFields(state, parse).Ok?
    ensures var f := ReadFields(state, parse).value;
            OptionalFloat(state, 7, parse) == Ok(f.altitude)
            && OptionalFloat(state, 9, parse) == Ok(f.velocity)
            && OptionalFloat(state, 10, parse) == Ok(f.heading)
  {
  }

  /** The loop body applied to each state. */
  function Steps(states: seq<Json>, balloonLat: real, balloonLon: real, thresholdKm: real, ext: Externals)
    : (r: seq<Step<NearbyFlight>>)
    ensures |r| == |states|
    ensures forall i :: 0 <= i < |states| ==> r[i] == ProcessState(states[i], balloonLat, balloonLon, thresholdKm, ext)
  {
    seq(|states|, i requires 0 <= i < |states| => ProcessState(states[i], balloonLat, balloonLon, thresholdKm, ext))
  }

  /** The loop over `data['states']`. */
  function ScanStates(states: seq<Json>, balloonLat: real, balloonLon: real, thresholdKm: real, ext: Externals)
    : Outcome<seq<NearbyFlight>>
  {
    Collect(Steps(states, balloonLat, balloonLon, thresholdKm, ext))
  }

  /** The result of lines 46-84 for the decoded response object `data`: a list,
      or the exception that leaves the function. */
  function NearbyFlights(data: seq<(string, Json)>, balloonLat: real, balloonLon: real, thresholdKm: real, ext: Externals)
    : (r: Outcome<seq<NearbyFlight>>)
    ensures Lookup(data, "states").None? ==> r == Ok([])
    ensures Lookup(data, "states") == Some(JNull) ==> r == Raise(TypeError)
    ensures Lookup(data, "states") == Some(JArr([])) ==> r == Ok([])
  {
    match Lookup(data, "states")
    case None => Ok([])
    case Some(v) =>
      var states :- Iterate(v);
      ScanStates(states, balloonLat, balloonLon, thresholdKm, ext)
  }

  /** The loop as the source runs it: skip with `continue`, append in place. */
  method FetchNearbyFlights(data: seq<(string, Json)>, balloonLat: real, balloonLon: real, ext: Externals,
                            thresholdKm: real := DefaultThresholdKm)
    returns (result: Outcome<seq<NearbyFlight>>)
    ensures result == NearbyFlights(data, balloonLat, balloonLon, thresholdKm, ext)
  {
    var found := Lookup(data, "states");
    if found.None? {
      return Ok([]);
    }
    var iteration := Iterate(found.value);
    if iteration.Raise? {
      return Raise(iteration.exc);
    }
    var states := iteration.value;
    var nearby: seq<NearbyFlight> := [];
    for i := 0 to |states|
      invariant ScanStates(states[..i], balloonLat, balloonLon, thresholdKm, ext) == Ok(nearby)
    {
      ghost var step := ProcessState(states[i], balloonLat, balloonLon, thresholdKm, ext);
      ScanStep(states, i, balloonLat, balloonLon, thresholdKm, ext, nearby);
      var fields := ReadFields(states[i], ext.parse);
      if fields.Raise? {
        if Caught(fields.exc) {
          assert step == Continue;
          continue;
        }
        assert step == Escape(fields.exc);
        ScanEscapes(states, i, balloonLat, balloonLon, thresholdKm, ext, fields.exc);
        return Raise(fields.exc);
      }
      var f := fields.value;
      if f.latitude.None? || f.longitude.None? {
        assert step == Continue;
        continue;
      }
      var distanceKm := ext.geodesic(balloonLat, balloonLon, f.latitude.value, f.longitude.value);
      if distanceKm <= thresholdKm {
        var flight := NearbyFlight(f.callsign, f.latitude.value, f.longitude.value,
                                   f.altitude, f.velocity, f.heading, ext.round2(distanceKm));
        assert step == Append(flight);
        nearby := nearby + [flight];
      } else {
        assert step == Continue;
      }
    }
    assert states[..|states|] == states;
    return Ok(nearby);
  }

  /** The body's outcomes for `a + b` are those for `a` followed by those for `b`. */
  lemma StepsConcat(a: seq<Json>, b: seq<Json>, balloonLat: real, balloonLon: real, thresholdKm: real, ext: Externals)
    ensures Steps(a + b, balloonLat, balloonLon, thresholdKm, ext)
            == Steps(a, balloonLat, balloonLon, thresholdKm, ext) + Steps(b, balloonLat, balloonLon, thresholdKm, ext)
  {
  }

  /** One more turn of the loop over a prefix of the states. */
  lemma ScanStep(states: seq<Json>, i: nat, balloonLat: real, balloonLon: real, thresholdKm: real, ext: Externals,
                 done: seq<NearbyFlight>)
    requires i < |states| && ScanStates(states[..i], balloonLat, balloonLon, thresholdKm, ext) == Ok(done)
    ensures ScanStates(states[..i + 1], balloonLat, balloonLon, thresholdKm, ext)
            == Next(done, ProcessState(states[i], balloonLat, balloonLon, thresholdKm, ext))
  {
    var steps := Steps(states, balloonLat, balloonLon, thresholdKm, ext);
    assert steps[..i] == Steps(states[..i], balloonLat, balloonLon, thresholdKm, ext);
    assert steps[..i + 1] == Steps(states[..i + 1], balloonLat, balloonLon, thresholdKm, ext);
    CollectPrefixStep(steps, i, done);
  }

  /** A state that escapes the handler after a prefix that does not ends the
      loop with its exception. */
  lemma ScanEscapes(states: seq<Json>, i: nat, balloonLat: real, balloonLon: real, thresholdKm: real, ext: Externals,
                    e: Exc)
    requires i < |states| && ScanStates(states[..i], balloonLat, balloonLon, thresholdKm, ext).Ok?
    requires ProcessState(states[i], balloonLat, balloonLon, thresholdKm, ext) == Escape(e)
    ensures ScanStates(states, balloonLat, balloonLon, thresholdKm, ext) == Raise(e)
  {
    var steps := Steps(states, balloonLat, balloonLon, thresholdKm, ext);
    assert steps[..i] == Steps(states[..i], balloonLat, balloonLon, thresholdKm, ext);
    EscapeAfterPrefix(steps, i, e);
  }

  /** The positions of the states that produce a record. */
  ghost function KeptPositions(states: seq<Json>, balloonLat: real, balloonLon: real, thresholdKm: real, ext: Externals)
    : seq<nat>
  {
    AppendPositions(Steps(states, balloonLat, balloonLon, thresholdKm, ext))
  }

  /** The output is the records of the kept states, in input order: an
      order-preserving subsequence of the states, missing none that qualify. */
  lemma OutputFollowsStateOrder(states: seq<Json>, balloonLat: real, balloonLon: real, thresholdKm: real,
                                ext: Externals, out: seq<NearbyFlight>)
    requires ScanStates(states, balloonLat, balloonLon, thresholdKm, ext) == Ok(out)
    ensures var pos := KeptPositions(states, balloonLat, balloonLon, thresholdKm, ext);
            && |pos| == |out|
            && (forall k :: 0 <= k < |pos| ==>
                  pos[k] < |states| && ProcessState(states[pos[k]], balloonLat, balloonLon, thresholdKm, ext) == Append(out[k]))
            && (forall k1, k2 :: 0 <= k1 < k2 < |pos| ==> pos[k1] < pos[k2])
            && (forall i :: 0 <= i < |states| && Positioned(states[i], ext.parse)
                               && StateDistance(states[i], balloonLat, balloonLon, ext) <= thresholdKm
                    ==> i in pos)
  {
    var steps := Steps(states, balloonLat, balloonLon, thresholdKm, ext);
    CollectIsOrderedSubsequence(steps, out);
    forall i | 0 <= i < |states| && Positioned(states[i], ext.parse)
               && StateDistance(states[i], balloonLat, balloonLon, ext) <= thresholdKm
      ensures steps[i].Append?
    {
      ProcessStateOutcome(states[i], balloonLat, balloonLon, thresholdKm, ext);
    }
  }

  /** Every reported flight is within the threshold by its unrounded
      distance, and reports that distance rounded. */
  lemma ReportedFlightsAreNear(states: seq<Json>, balloonLat: real, balloonLon: real, thresholdKm: real,
                               ext: Externals, out: seq<NearbyFlight>)
    requires ScanStates(states, balloonLat, balloonLon, thresholdKm, ext) == Ok(out)
    ensures forall k :: 0 <= k < |out| ==>
              && ext.geodesic(balloonLat, balloonLon, out[k].latitude, out[k].longitude) <= thresholdKm
              && out[k].distanceKm == ext.round2(ext.geodesic(balloonLat, balloonLon, out[k].latitude, out[k].longitude))
  {
    OutputFollowsStateOrder(states, balloonLat, balloonLon, thresholdKm, ext, out);
    var pos := KeptPositions(states, balloonLat, balloonLon, thresholdKm, ext);
    forall k | 0 <= k < |out|
      ensures ext.geodesic(balloonLat, balloonLon, out[k].latitude, out[k].longitude) <= thresholdKm
    {
      var s := states[pos[k]];
      KeptRecordFields(s, balloonLat, balloonLon, thresholdKm, ext, out[k]);
    }
  }

  /** A skipped state (malformed, too short, unpositioned or too far) changes
      nothing: the states after it are processed as if it were absent. */
  lemma SkippedStateIsInvisible(before: seq<Json>, state: Json, after: seq<Json>,
                                balloonLat: real, balloonLon: real, thresholdKm: real, ext: Externals)
    requires ProcessState(state, balloonLat, balloonLon, thresholdKm, ext) == Continue
    ensures ScanStates(before + [state] + after, balloonLat, balloonLon, thresholdKm, ext)
            == ScanStates(before + after, balloonLat, balloonLon, thresholdKm, ext)
  {
    var a := Steps(before, balloonLat, balloonLon, thresholdKm, ext);
    var b := Steps(after, balloonLat, balloonLon, thresholdKm, ext);
    StepsConcat(before + [state], after, balloonLat, balloonLon, thresholdKm, ext);
    StepsConcat(before, [state], balloonLat, balloonLon, thresholdKm, ext);
    StepsConcat(before, after, balloonLat, balloonLon, thresholdKm, ext);
    assert Steps([state], balloonLat, balloonLon, thresholdKm, ext) == [Continue];
    SkippedStepIsInvisible(a, b);
  }

  /** A state whose reads raise an exception the handler does not absorb ends
      the whole call with that exception, discarding the flights found so far:
      the outer handlers catch only request errors. */
  lemma EscapingStateAbortsCall(data: seq<(string, Json)>, before: seq<Json>, state: Json, after: seq<Json>,
                                balloonLat: real, balloonLon: real, thresholdKm: real, ext: Externals)
    requires Lookup(data, "states") == Some(JArr(before + [state] + after))
    requires forall k :: 0 <= k < |before| ==> !BreaksHandler(before[k])
    requires BreaksHandler(state)
    ensures ReadFields(state, ext.parse).Raise?
    ensures NearbyFlights(data, balloonLat, balloonLon, thresholdKm, ext) == Raise(ReadFields(state, ext.parse).exc)
  {
    ProcessStateOutcome(state, balloonLat, balloonLon, thresholdKm, ext);
    var states := before + [state] + after;
    assert Iterate(JArr(states)) == Ok(states);
    ScanStopsAtEscape(states, |before|, balloonLat, balloonLon, thresholdKm, ext);
  }

  /** The scan raises the exception of the first state that escapes. */
  lemma ScanStopsAtEscape(states: seq<Json>, n: nat, balloonLat: real, balloonLon: real, thresholdKm: real,
                          ext: Externals)
    requires n < |states|
    requires forall k :: 0 <= k < n ==> !BreaksHandler(states[k])
    requires ProcessState(states[n], balloonLat, balloonLon, thresholdKm, ext).Escape?
    ensures ScanStates(states, balloonLat, balloonLon, thresholdKm, ext)
            == Raise(ProcessState(states[n], balloonLat, balloonLon, thresholdKm, ext).exc)
  {
    var steps := Steps(states, balloonLat, balloonLon, thresholdKm, ext);
    var e := steps[n].exc;
    forall k | 0 <= k < n ensures !steps[..n][k].Escape? {
      ProcessStateOutcome(states[k], balloonLat, balloonLon, thresholdKm, ext);
    }
    assert steps == steps[..n] + [Escape(e)] + steps[n + 1..];
    FirstEscapeDecides(steps[..n], e, steps[n + 1..]);
  }
}
