/** `find_nearby_flights` in utils/analysis.py: every (balloon, flight) pair
    whose distance is within the threshold, balloon by balloon, without
    deduplication or sorting. */
module Analysis {
  import opened PyValues
  import Geo

  /** The default `threshold_km`. */
  const DefaultThresholdKm: real := 10.0

  /** A row of the balloon frame: the two columns the filter reads. */
  datatype Balloon = Balloon(latitude: real, longitude: real)

  /** A flight record; its coordinates may be `None`. */
  datatype Flight = Flight(callsign: string, latitude: Option<real>, longitude: Option<real>)

  /** One entry of the returned list. */
  datatype NearbyRecord = NearbyRecord(callsign: string, latitude: real, longitude: real, distanceKm: real)

  /** `flight['latitude'] and flight['longitude']`: both present and non-zero. */
  predicate HasPosition(f: Flight) {
    TruthyNumber(f.latitude) && TruthyNumber(f.longitude)
  }

  /** The distance the filter computes for a pair. */
  function Distance(b: Balloon, f: Flight, geodesic: Geo.Geodesic): real
    requires HasPosition(f)
  {
    geodesic(b.latitude, b.longitude, f.latitude.value, f.longitude.value)
  }

  /** Whether the pair is reported. */
  predicate IsNear(b: Balloon, f: Flight, thresholdKm: real, geodesic: Geo.Geodesic) {
    HasPosition(f) && Distance(b, f, geodesic) <= thresholdKm
  }

  /** The record reported for a pair. */
  function RecordFor(b: Balloon, f: Flight, geodesic: Geo.Geodesic): NearbyRecord
    requires HasPosition(f)
  {
    NearbyRecord(f.callsign, f.latitude.value, f.longitude.value, Distance(b, f, geodesic))
  }

  /** The inner loop: the records for one balloon, in flight order. */
  function NearbyForBalloon(b: Balloon, flights: seq<Flight>, thresholdKm: real, geodesic: Geo.Geodesic)
    : seq<NearbyRecord>
  {
    if flights == [] then []
    else
      var rest := NearbyForBalloon(b, flights[..|flights| - 1], thresholdKm, geodesic);
      var f := flights[|flights| - 1];
      if IsNear(b, f, thresholdKm, geodesic) then rest + [RecordFor(b, f, geodesic)] else rest
  }

  /** Both loops: the records for each balloon in turn. */
  function FindNearby(balloons: seq<Balloon>, flights: seq<Flight>, thresholdKm: real, geodesic: Geo.Geodesic)
    : seq<NearbyRecord>
  {
    if balloons == [] then []
    else
      FindNearby(balloons[..|balloons| - 1], flights, thresholdKm, geodesic)
      + NearbyForBalloon(balloons[|balloons| - 1], flights, thresholdKm, geodesic)
  }

  /** The nested loops as the source runs them, appending in place. */
  method FindNearbyFlights(balloons: seq<Balloon>, flights: seq<Flight>, geodesic: Geo.Geodesic,
                           thresholdKm: real := DefaultThresholdKm)
    returns (nearby: seq<NearbyRecord>)
    ensures nearby == FindNearby(balloons, flights, thresholdKm, geodesic)
    ensures forall k :: 0 <= k < |nearby| ==> nearby[k].distanceKm <= thresholdKm
  {
    nearby := [];
    for i := 0 to |balloons|
      invariant nearby == FindNearby(balloons[..i], flights, thresholdKm, geodesic)
    {
      var balloon := balloons[i];
      ghost var done := nearby;
      for j := 0 to |flights|
        invariant nearby == done + NearbyForBalloon(balloon, flights[..j], thresholdKm, geodesic)
      {
        assert flights[..j + 1][..j] == flights[..j];
        var flight := flights[j];
        if TruthyNumber(flight.latitude) && TruthyNumber(flight.longitude) {
          var distance := geodesic(balloon.latitude, balloon.longitude, flight.latitude.value, flight.longitude.value);
          if distance <= thresholdKm {
            nearby := nearby + [NearbyRecord(flight.callsign, flight.latitude.value, flight.longitude.value, distance)];
          }
        }
      }
      assert flights[..|flights|] == flights;
      assert balloons[..i + 1][..i] == balloons[..i];
    }
    assert balloons[..|balloons|] == balloons;
    ReportedPairsAreNear(balloons, flights, thresholdKm, geodesic);
  }

  /** The flight positions reported for one balloon, in increasing order. */
  ghost function NearFlightPositions(b: Balloon, flights: seq<Flight>, thresholdKm: real, geodesic: Geo.Geodesic)
    : seq<nat>
  {
    if flights == [] then []
    else
      var rest := NearFlightPositions(b, flights[..|flights| - 1], thresholdKm, geodesic);
      if IsNear(b, flights[|flights| - 1], thresholdKm, geodesic) then rest + [|flights| - 1] else rest
  }

  /** `(balloon position, flight position)` for every reported pair. */
  ghost function NearPairs(balloons: seq<Balloon>, flights: seq<Flight>, thresholdKm: real, geodesic: Geo.Geodesic)
    : seq<(nat, nat)>
  {
    if balloons == [] then []
    else
      var i := |balloons| - 1;
      var js := NearFlightPositions(balloons[i], flights, thresholdKm, geodesic);
      NearPairs(balloons[..i], flights, thresholdKm, geodesic) + seq(|js|, k requires 0 <= k < |js| => (i, js[k]))
  }

  /** Strictly increasing positions. */
  predicate Increasing(js: seq<nat>) {
    forall k1, k2 :: 0 <= k1 < k2 < |js| ==> js[k1] < js[k2]
  }

  /** Balloon-major order: by balloon position, then by flight position. */
  predicate PairBefore(p: (nat, nat), q: (nat, nat)) {
    p.0 < q.0 || (p.0 == q.0 && p.1 < q.1)
  }

  /** Each entry of `pairs` names a near pair, whose record sits at the same
      place in `out`. */
  ghost predicate PairsReported(pairs: seq<(nat, nat)>, balloons: seq<Balloon>, flights: seq<Flight>,
                                thresholdKm: real, geodesic: Geo.Geodesic, out: seq<NearbyRecord>)
  {
    && |pairs| == |out|
    && (forall k :: 0 <= k < |pairs| ==>
          && pairs[k].0 < |balloons| && pairs[k].1 < |flights|
          && IsNear(balloons[pairs[k].0], flights[pairs[k].1], thresholdKm, geodesic)
          && out[k] == RecordFor(balloons[pairs[k].0], flights[pairs[k].1], geodesic))
  }

  /** `pairs` is strictly increasing in balloon-major order. */
  predicate PairsOrdered(pairs: seq<(nat, nat)>) {
    forall k1, k2 :: 0 <= k1 < k2 < |pairs| ==> PairBefore(pairs[k1], pairs[k2])
  }

  /** Every near pair appears in `pairs`. */
  ghost predicate PairsComplete(pairs: seq<(nat, nat)>, balloons: seq<Balloon>, flights: seq<Flight>,
                                thresholdKm: real, geodesic: Geo.Geodesic)
  {
    forall i, j :: 0 <= i < |balloons| && 0 <= j < |flights| && IsNear(balloons[i], flights[j], thresholdKm, geodesic)
      ==> (i, j) in pairs
  }

  /** `out` lists, in balloon-major order, the records of exactly the near
      pairs named by `pairs`. */
  ghost predicate EnumeratesPairs(pairs: seq<(nat, nat)>, balloons: seq<Balloon>, flights: seq<Flight>,
                                  thresholdKm: real, geodesic: Geo.Geodesic, out: seq<NearbyRecord>)
  {
    && PairsReported(pairs, balloons, flights, thresholdKm, geodesic, out)
    && PairsOrdered(pairs)
    && PairsComplete(pairs, balloons, flights, thresholdKm, geodesic)
  }

  /** For one balloon: the records are those of exactly its near flights, in
      flight order. */
  lemma {:induction false} NearbyForBalloonEnumerates(b: Balloon, flights: seq<Flight>, thresholdKm: real,
                                                      geodesic: Geo.Geodesic)
    ensures var js := NearFlightPositions(b, flights, thresholdKm, geodesic);
            var out := NearbyForBalloon(b, flights, thresholdKm, geodesic);
            && |js| == |out|
            && (forall k :: 0 <= k < |js| ==>
                  js[k] < |flights| && IsNear(b, flights[js[k]], thresholdKm, geodesic)
                  && out[k] == RecordFor(b, flights[js[k]], geodesic))
            && (forall k1, k2 :: 0 <= k1 < k2 < |js| ==> js[k1] < js[k2])
            && (forall j :: 0 <= j < |flights| && IsNear(b, flights[j], thresholdKm, geodesic) ==> j in js)
    decreases |flights|
  {
    if flights != [] {
      var n := |flights| - 1;
      var init := flights[..n];
      NearbyForBalloonEnumerates(b, init, thresholdKm, geodesic);
      var js := NearFlightPositions(b, init, thresholdKm, geodesic);
      assert forall k :: 0 <= k < |js| ==> flights[js[k]] == init[js[k]];
      forall j | 0 <= j < n && IsNear(b, flights[j], thresholdKm, geodesic)
        ensures j in js
      {
        assert init[j] == flights[j];
      }
      if IsNear(b, flights[n], thresholdKm, geodesic) {
        var js' := js + [n];
        assert js'[|js|] == n;
      }
    }
  }

  /** The whole result: exactly the near pairs, each once, in balloon-major
      order. A flight near two balloons is therefore reported twice. */
  lemma {:induction false} FindNearbyEnumeratesPairs(balloons: seq<Balloon>, flights: seq<Flight>,
                                                     thresholdKm: real, geodesic: Geo.Geodesic)
    ensures EnumeratesPairs(NearPairs(balloons, flights, thresholdKm, geodesic), balloons, flights,
                            thresholdKm, geodesic, FindNearby(balloons, flights, thresholdKm, geodesic))
    decreases |balloons|
  {
    if balloons != [] {
      var i := |balloons| - 1;
      FindNearbyEnumeratesPairs(balloons[..i], flights, thresholdKm, geodesic);
      NearbyForBalloonEnumerates(balloons[i], flights, thresholdKm, geodesic);
      NextRowReported(balloons, flights, thresholdKm, geodesic);
      NextRowOrdered(balloons, flights, thresholdKm, geodesic);
      NextRowComplete(balloons, flights, thresholdKm, geodesic);
    }
  }

  /** The positions of the last balloon's near flights, tagged with its
      position. */
  ghost function LastRowPairs(balloons: seq<Balloon>, flights: seq<Flight>, thresholdKm: real, geodesic: Geo.Geodesic)
    : (tagged: seq<(nat, nat)>)
    requires balloons != []
    ensures NearPairs(balloons, flights, thresholdKm, geodesic)
            == NearPairs(balloons[..|balloons| - 1], flights, thresholdKm, geodesic) + tagged
    ensures var js := NearFlightPositions(balloons[|balloons| - 1], flights, thresholdKm, geodesic);
            |tagged| == |js| && forall k :: 0 <= k < |js| ==> tagged[k] == (|balloons| - 1, js[k])
  {
    var i := |balloons| - 1;
    var js := NearFlightPositions(balloons[i], flights, thresholdKm, geodesic);
    seq(|js|, k requires 0 <= k < |js| => (i, js[k]))
  }

  /** The outer loop's step keeps `PairsReported`. */
  lemma NextRowReported(balloons: seq<Balloon>, flights: seq<Flight>, thresholdKm: real, geodesic: Geo.Geodesic)
    requires balloons != []
    requires var init := balloons[..|balloons| - 1];
             PairsReported(NearPairs(init, flights, thresholdKm, geodesic), init, flights, thresholdKm, geodesic,
                           FindNearby(init, flights, thresholdKm, geodesic))
    requires var b := balloons[|balloons| - 1];
             var js := NearFlightPositions(b, flights, thresholdKm, geodesic);
             var row := NearbyForBalloon(b, flights, thresholdKm, geodesic);
             && |js| == |row|
             && (forall k :: 0 <= k < |js| ==>
                   js[k] < |flights| && IsNear(b, flights[js[k]], thresholdKm, geodesic)
                   && row[k] == RecordFor(b, flights[js[k]], geodesic))
    ensures PairsReported(NearPairs(balloons, flights, thresholdKm, geodesic), balloons, flights, thresholdKm, geodesic,
                          FindNearby(balloons, flights, thresholdKm, geodesic))
  {
    var i := |balloons| - 1;
    var init := balloons[..i];
    var prefix := NearPairs(init, flights, thresholdKm, geodesic);
    var prev := FindNearby(init, flights, thresholdKm, geodesic);
    var js := NearFlightPositions(balloons[i], flights, thresholdKm, geodesic);
    var row := NearbyForBalloon(balloons[i], flights, thresholdKm, geodesic);
    var pairs := NearPairs(balloons, flights, thresholdKm, geodesic);
    var out := FindNearby(balloons, flights, thresholdKm, geodesic);
    var tagged := LastRowPairs(balloons, flights, thresholdKm, geodesic);
    assert out == prev + row;
    forall k | 0 <= k < |pairs|
      ensures pairs[k].0 < |balloons| && pairs[k].1 < |flights|
      ensures IsNear(balloons[pairs[k].0], flights[pairs[k].1], thresholdKm, geodesic)
      ensures out[k] == RecordFor(balloons[pairs[k].0], flights[pairs[k].1], geodesic)
    {
      if k < |prefix| {
        assert pairs[k] == prefix[k] && out[k] == prev[k];
        assert balloons[prefix[k].0] == init[prefix[k].0];
      } else {
        assert pairs[k] == tagged[k - |prefix|] == (i, js[k - |prefix|]);
        assert out[k] == row[k - |prefix|];
      }
    }
  }

  /** The outer loop's step keeps the pairs in balloon-major order. */
  lemma NextRowOrdered(balloons: seq<Balloon>, flights: seq<Flight>, thresholdKm: real, geodesic: Geo.Geodesic)
    requires balloons != []
    requires var init := balloons[..|balloons| - 1];
             var prefix := NearPairs(init, flights, thresholdKm, geodesic);
             PairsOrdered(prefix) && forall k :: 0 <= k < |prefix| ==> prefix[k].0 < |init|
    requires Increasing(NearFlightPositions(balloons[|balloons| - 1], flights, thresholdKm, geodesic))
    ensures PairsOrdered(NearPairs(balloons, flights, thresholdKm, geodesic))
  {
    var i := |balloons| - 1;
    var prefix := NearPairs(balloons[..i], flights, thresholdKm, geodesic);
    var js := NearFlightPositions(balloons[i], flights, thresholdKm, geodesic);
    var tagged := LastRowPairs(balloons, flights, thresholdKm, geodesic);
    var pairs := prefix + tagged;
    forall k1, k2 | 0 <= k1 < k2 < |pairs|
      ensures PairBefore(pairs[k1], pairs[k2])
    {
      if k2 < |prefix| {
        assert pairs[k1] == prefix[k1] && pairs[k2] == prefix[k2];
      } else if k1 < |prefix| {
        assert pairs[k1] == prefix[k1] && pairs[k2] == tagged[k2 - |prefix|];
        assert prefix[k1].0 < i && tagged[k2 - |prefix|].0 == i;
      } else {
        assert pairs[k1] == tagged[k1 - |prefix|] && pairs[k2] == tagged[k2 - |prefix|];
        assert Increasing(js);
        assert js[k1 - |prefix|] < js[k2 - |prefix|];
      }
    }
  }

  /** The outer loop's step keeps every near pair listed. */
  lemma NextRowComplete(balloons: seq<Balloon>, flights: seq<Flight>, thresholdKm: real, geodesic: Geo.Geodesic)
    requires balloons != []
    requires var init := balloons[..|balloons| - 1];
             PairsComplete(NearPairs(init, flights, thresholdKm, geodesic), init, flights, thresholdKm, geodesic)
    requires var b := balloons[|balloons| - 1];
             var js := NearFlightPositions(b, flights, thresholdKm, geodesic);
             forall j :: 0 <= j < |flights| && IsNear(b, flights[j], thresholdKm, geodesic) ==> j in js
    ensures PairsComplete(NearPairs(balloons, flights, thresholdKm, geodesic), balloons, flights, thresholdKm, geodesic)
  {
    var i := |balloons| - 1;
    var init := balloons[..i];
    var prefix := NearPairs(init, flights, thresholdKm, geodesic);
    var js := NearFlightPositions(balloons[i], flights, thresholdKm, geodesic);
    var tagged := LastRowPairs(balloons, flights, thresholdKm, geodesic);
    var pairs := prefix + tagged;
    forall i', j | 0 <= i' < |balloons| && 0 <= j < |flights| && IsNear(balloons[i'], flights[j], thresholdKm, geodesic)
      ensures (i', j) in pairs
    {
      if i' < i {
        assert init[i'] == balloons[i'];
        var k :| 0 <= k < |prefix| && prefix[k] == (i', j);
        assert pairs[k] == (i', j);
      } else {
        var k :| 0 <= k < |js| && js[k] == j;
        assert pairs[|prefix| + k] == tagged[k] == (i', j);
      }
    }
  }

  /** Every reported record is within the threshold, by a distance that is
      not rounded, and copies a flight whose coordinates are both truthy. */
  lemma ReportedPairsAreNear(balloons: seq<Balloon>, flights: seq<Flight>, thresholdKm: real, geodesic: Geo.Geodesic)
    ensures var out := FindNearby(balloons, flights, thresholdKm, geodesic);
            forall k :: 0 <= k < |out| ==>
              out[k].distanceKm <= thresholdKm && out[k].latitude != 0.0 && out[k].longitude != 0.0
  {
    FindNearbyEnumeratesPairs(balloons, flights, thresholdKm, geodesic);
  }

  /** A flight with a falsy coordinate contributes nothing: dropping it from
      the flight list leaves the result unchanged. */
  lemma {:induction false} UnpositionedFlightIgnored(balloons: seq<Balloon>, before: seq<Flight>, f: Flight,
                                                     after: seq<Flight>, thresholdKm: real, geodesic: Geo.Geodesic)
    requires !HasPosition(f)
    ensures FindNearby(balloons, before + [f] + after, thresholdKm, geodesic)
            == FindNearby(balloons, before + after, thresholdKm, geodesic)
    decreases |balloons|
  {
    if balloons != [] {
      var i := |balloons| - 1;
      UnpositionedFlightIgnored(balloons[..i], before, f, after, thresholdKm, geodesic);
      RowSkipsUnpositioned(balloons[i], before, f, after, thresholdKm, geodesic);
    }
  }

  /** The inner loop passes over a flight with a falsy coordinate. */
  lemma {:induction false} RowSkipsUnpositioned(b: Balloon, before: seq<Flight>, f: Flight, after: seq<Flight>,
                                                thresholdKm: real, geodesic: Geo.Geodesic)
    requires !HasPosition(f)
    ensures NearbyForBalloon(b, before + [f] + after, thresholdKm, geodesic)
            == NearbyForBalloon(b, before + after, thresholdKm, geodesic)
    decreases |after|
  {
    if after == [] {
      assert before + [f] + after == before + [f];
      assert (before + [f])[..|before|] == before;
      assert before + after == before;
    } else {
      var n := |after| - 1;
      RowSkipsUnpositioned(b, before, f, after[..n], thresholdKm, geodesic);
      assert (before + [f] + after)[..|before + [f] + after| - 1] == before + [f] + after[..n];
      assert (before + after)[..|before + after| - 1] == before + after[..n];
      assert (before + [f] + after)[|before + [f] + after| - 1] == after[n];
      assert (before + after)[|before + after| - 1] == after[n];
    }
  }

  /** No balloons or no flights: nothing is reported. */
  lemma {:induction false} EmptyInputGivesEmptyResult(balloons: seq<Balloon>, flights: seq<Flight>,
                                                      thresholdKm: real, geodesic: Geo.Geodesic)
    requires balloons == [] || flights == []
    ensures FindNearby(balloons, flights, thresholdKm, geodesic) == []
    decreases |balloons|
  {
    if balloons != [] {
      EmptyInputGivesEmptyResult(balloons[..|balloons| - 1], flights, thresholdKm, geodesic);
    }
  }

  /** Without deduplication the result holds at most one record per pair. */
  lemma {:induction false} ResultSizeBound(balloons: seq<Balloon>, flights: seq<Flight>,
                                           thresholdKm: real, geodesic: Geo.Geodesic)
    ensures |FindNearby(balloons, flights, thresholdKm, geodesic)| <= |balloons| * |flights|
    decreases |balloons|
  {
    if balloons != [] {
      var i := |balloons| - 1;
      ResultSizeBound(balloons[..i], flights, thresholdKm, geodesic);
      RowSizeBound(balloons[i], flights, thresholdKm, geodesic);
      MulSucc(i, |flights|);
    }
  }

  lemma MulSucc(a: nat, b: nat)
    ensures (a + 1) * b == a * b + b
  {
  }

  /** The inner loop reports each flight at most once. */
  lemma {:induction false} RowSizeBound(b: Balloon, flights: seq<Flight>, thresholdKm: real, geodesic: Geo.Geodesic)
    ensures |NearbyForBalloon(b, flights, thresholdKm, geodesic)| <= |flights|
    decreases |flights|
  {
    if flights != [] {
      RowSizeBound(b, flights[..|flights| - 1], thresholdKm, geodesic);
    }
  }

  /** A flight near two balloons is reported once for each, the earlier
      balloon first, each with its own distance. */
  lemma NoDeduplication(balloons: seq<Balloon>, flights: seq<Flight>, thresholdKm: real, geodesic: Geo.Geodesic,
                        i1: nat, i2: nat, j: nat)
    returns (k1: nat, k2: nat)
    requires i1 < i2 < |balloons| && j < |flights|
    requires IsNear(balloons[i1], flights[j], thresholdKm, geodesic)
    requires IsNear(balloons[i2], flights[j], thresholdKm, geodesic)
    ensures k1 < k2 < |FindNearby(balloons, flights, thresholdKm, geodesic)|
    ensures FindNearby(balloons, flights, thresholdKm, geodesic)[k1] == RecordFor(balloons[i1], flights[j], geodesic)
    ensures FindNearby(balloons, flights, thresholdKm, geodesic)[k2] == RecordFor(balloons[i2], flights[j], geodesic)
  {
    var pairs := NearPairs(balloons, flights, thresholdKm, geodesic);
    var out := FindNearby(balloons, flights, thresholdKm, geodesic);
    FindNearbyEnumeratesPairs(balloons, flights, thresholdKm, geodesic);
    assert EnumeratesPairs(pairs, balloons, flights, thresholdKm, geodesic, out);
    k1 := PositionOfPair(pairs, balloons, flights, thresholdKm, geodesic, out, i1, j);
    k2 := PositionOfPair(pairs, balloons, flights, thresholdKm, geodesic, out, i2, j);
    PairOrderIsPositionOrder(pairs, k1, k2);
  }

  /** Where a near pair sits in the result, and the record found there. */
  lemma PositionOfPair(pairs: seq<(nat, nat)>, balloons: seq<Balloon>, flights: seq<Flight>,
                       thresholdKm: real, geodesic: Geo.Geodesic, out: seq<NearbyRecord>, i: nat, j: nat)
    returns (k: nat)
    requires EnumeratesPairs(pairs, balloons, flights, thresholdKm, geodesic, out)
    requires i < |balloons| && j < |flights| && IsNear(balloons[i], flights[j], thresholdKm, geodesic)
    ensures k < |pairs| && pairs[k] == (i, j) && k < |out| && out[k] == RecordFor(balloons[i], flights[j], geodesic)
  {
    assert (i, j) in pairs;
    k :| 0 <= k < |pairs| && pairs[k] == (i, j);
  }

  /** In a strictly increasing list of pairs, an earlier pair sits at an
      earlier position. */
  lemma PairOrderIsPositionOrder(pairs: seq<(nat, nat)>, k1: nat, k2: nat)
    requires forall a, b :: 0 <= a < b < |pairs| ==> PairBefore(pairs[a], pairs[b])
    requires k1 < |pairs| && k2 < |pairs| && PairBefore(pairs[k1], pairs[k2])
    ensures k1 < k2
  {
  }
}
