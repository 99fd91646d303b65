# Balloon and flight proximity: a Dafny model

The repository tracks WindBorne weather balloons and the aircraft near them.
`utils/balloon_api.py` downloads 24 hourly files of balloon positions and cleans the resulting frame.
`utils/flight_api.py` (and its older copy `test.py`) scans the OpenSky state vectors for aircraft within a distance of one balloon.
`utils/analysis.py` pairs every balloon with every nearby flight.

This project models those four pieces in Dafny:

- `py_values.dfy`, module `PyValues`: the decoded JSON values and the Python built-ins the code applies to them.
  - truthiness, `float(...)`, `str.strip()`
  - `v[i]` with its `IndexError`, `KeyError` and `TypeError`
  - `for x in v` and `key in d` / `d[key]`
- `geo.dfy`, module `Geo`: the types of the two library functions, the geodesic distance and `round(x, 2)`, which are parameters.
- `opensky.dfy`, module `OpenSky`: what the two OpenSky clients share.
  - the callsign and optional-float reads of one state vector;
  - which exceptions the per-state handler absorbs;
  - the per-state outcome `Append | Continue | Escape`, and the fold `Collect` that turns those outcomes into the list or the exception that escapes.
- `flight_api.dfy`, module `FlightApi`: the state loop of `fetch_nearby_flights`, six fields per state.
  - a `for` loop method with `continue`, proved equal to a specification function;
  - lemmas for which states are kept, what a kept record holds, ordering, and escaping exceptions.
- `test_script.dfy`, module `TestScript`: the same loop in `test.py`, four fields per state. Its outer `except Exception` turns any escaping exception into `[]`. Lemmas compare it with the six-field client.
- `analysis.dfy`, module `Analysis`: the nested loops of `find_nearby_flights`, as a method proved equal to a specification function. Lemmas characterise the result as exactly the near (balloon, flight) pairs, each once, in balloon-major order, without deduplication.
- `balloon_api.dfy`, module `BalloonApi`:
  - the hourly file names, proved well formed and injective;
  - the hour loop and the entry loop of `fetch_balloon_data`, as methods proved equal to specification functions;
  - the timestamp ordering they produce;
  - `clean_balloon_data` as a row filter, with idempotence, and the fact that its `dropna` step is subsumed by its `query` step.

External effects are parameters:

- the HTTP fetch of an hourly file is a function `fetch` from URL to `HourResponse`;
- the current time is an integer `now` in seconds;
- `float()` on strings is a `FloatParser`;
- the geodesic distance and `round` are uninterpreted function parameters (module `Geo`): the two flight clients take them through `OpenSky.Externals`, and `find_nearby_flights` takes the distance as a plain parameter.

## Model

| member | source | states |
|---|---|---|
| PyValues.GetItem | utils/flight_api.py:54-59 | `state[i]` succeeds exactly when a list or string has position `i`; a dict raises `KeyError`; otherwise `IndexError` or `TypeError` |
| PyValues.ToFloat | utils/flight_api.py:55-59 | `float(v)` is the number itself for a number and 0.0 or 1.0 for a boolean; a string gives the parser's value, or `ValueError` when it does not parse; `None`, a list or a dict raises `TypeError` |
| PyValues.Iterate | utils/flight_api.py:50 | `for state in data['states']` iterates a list's elements and raises `TypeError` on a non-iterable value such as `None` |
| PyValues.Lookup | utils/flight_api.py:46-50 | `'states' in data` fails exactly when no member has that key; a found value belongs to a member with that key |
| PyValues.Strip | utils/flight_api.py:54 | `strip()` returns a slice of its argument with only whitespace before and after it; neither end of the result is whitespace, and the result is empty exactly for all-whitespace input |
| PyValues.StripIdempotent | utils/flight_api.py:54 | stripping a stripped callsign changes nothing |
| PyValues.StripRemovesPadding | utils/flight_api.py:54 | the trailing padding OpenSky puts after a callsign is removed, and nothing else |
| OpenSky.CallsignField | utils/flight_api.py:54 | a falsy `state[1]` gives `"Unknown"`; a truthy string gives `state[1].strip()`; a truthy non-string raises `AttributeError`; a missing position raises an exception the handler absorbs, except on a dict |
| OpenSky.OptionalFloat | utils/flight_api.py:55-59 | a falsy field reads as `None` (so 0 is missing); a truthy field reads as `float` of it; failures other than a dict's `KeyError` are absorbed by the handler |
| OpenSky.CollectRaisesOnEscape | utils/flight_api.py:50-84 | the loop raises exactly when some state's exception escapes the handler; when every state is skipped the result is `[]` |
| OpenSky.CollectConcat | utils/flight_api.py:50-84 | the loop over two runs of states is the loop over the first followed by the loop over the second |
| OpenSky.SkippedStepIsInvisible | utils/flight_api.py:80-82 | a state skipped by `continue` or by the handler leaves the later states' processing unchanged |
| OpenSky.FirstEscapeDecides | utils/flight_api.py:80-84 | the first exception that escapes the handler is the outcome, whatever follows it |
| OpenSky.CollectIsOrderedSubsequence | utils/flight_api.py:71-79 | the result lists the records of exactly the appending states, in state order |
| FlightApi.ReadFields | utils/flight_api.py:54-59 | the six reads succeed only when position 10 exists; the callsign and coordinates are those reads; among the values modelled, an exception is absorbed exactly when the state is not a dict and has no truthy non-string callsign |
| FlightApi.ProcessStateOutcome | utils/flight_api.py:54-82 | a state is kept exactly when both coordinates are present and its unrounded distance is at most the threshold; a falsy coordinate is never kept; a short state is skipped; among the values modelled, only a dict state or a non-string callsign escapes |
| FlightApi.KeptRecordFields | utils/flight_api.py:61-79 | a kept record carries the six reads of its state and the rounded distance, and its unrounded distance is within the threshold |
| FlightApi.NearbyFlights | utils/flight_api.py:46-50 | no `'states'` key gives `[]`; `'states': null` raises `TypeError`; an empty list gives `[]` |
| FlightApi.FetchNearbyFlights | utils/flight_api.py:46-84 | the loop with `continue` and in-place append returns the list or the escaping exception that `NearbyFlights` defines |
| FlightApi.OutputFollowsStateOrder | utils/flight_api.py:50-79 | the output is the records of the kept states, in input order, missing none that qualify |
| FlightApi.ReportedFlightsAreNear | utils/flight_api.py:67-78 | every reported flight is within the threshold by its unrounded distance and reports that distance rounded |
| FlightApi.SkippedStateIsInvisible | utils/flight_api.py:54-82 | removing a skipped state does not change the result |
| FlightApi.EscapingStateAbortsCall | utils/flight_api.py:50-91 | a dict state or a truthy non-string callsign after absorbable states makes the whole call raise that state's exception (`KeyError` or `AttributeError`), since the outer handlers catch only request errors |
| TestScript.ReadFields | test.py:24-27 | the four reads succeed only when position 7 exists; among the values modelled, an exception is absorbed exactly when the state does not break the handler |
| TestScript.ProcessStateOutcome | test.py:24-48 | kept exactly when positioned and within the threshold by the unrounded distance; falsy coordinates never kept; short states skipped; among the values modelled, only dict states or non-string callsigns escape |
| TestScript.KeptRecordFields | test.py:29-46 | a kept record carries the four reads and the rounded distance, within the threshold |
| TestScript.NearbyAircraftList | test.py:20-54 | no `'states'` key gives `[]`, and so does `'states': null`, through the outer handler |
| TestScript.FetchNearbyFlights | test.py:20-54 | the loop with `continue`, in-place append and the outer handler returns what `NearbyAircraftList` defines |
| TestScript.OutputFollowsStateOrder | test.py:21-46 | the output is the records of the kept states, in input order, missing none that qualify |
| TestScript.EscapingStateEmptiesResult | test.py:21-54 | a state that escapes the per-state handler empties the whole result |
| TestScript.KeepsWhatFlightApiKeeps | test.py:24-46 | every state the six-field client keeps is kept here with the same callsign, position, altitude and distance |
| TestScript.ShortStateKeptOnlyHere | test.py:24-46 | an eight-position state within range is kept here with its stripped callsign, while the six-field client skips it |
| TestScript.ShortStateFields | test.py:24-27 | the four reads of the eight-position example state succeed with the stripped callsign and its coordinates |
| TestScript.ShortStateTooShort | utils/flight_api.py:58 | the six-field client's read of position 9 raises `IndexError` on that state |
| Analysis.FindNearbyFlights | utils/analysis.py:3-22 | the nested loops return the specification's list, and every reported distance is within the threshold |
| Analysis.NearbyForBalloonEnumerates | utils/analysis.py:9-21 | for one balloon, the records are those of exactly its near flights, in flight order |
| Analysis.FindNearbyEnumeratesPairs | utils/analysis.py:7-22 | the result lists exactly the near (balloon, flight) pairs, each once, in balloon-major order, each with its record |
| Analysis.ReportedPairsAreNear | utils/analysis.py:10-20 | every record is within the threshold by an unrounded distance and has non-zero coordinates |
| Analysis.UnpositionedFlightIgnored | utils/analysis.py:10 | a flight with a falsy coordinate can be removed without changing the result |
| Analysis.EmptyInputGivesEmptyResult | utils/analysis.py:7-9 | no balloons or no flights gives an empty result |
| Analysis.ResultSizeBound | utils/analysis.py:8-21 | at most one record per (balloon, flight) pair |
| Analysis.NoDeduplication | utils/analysis.py:8-21 | a flight near two balloons is reported twice, the earlier balloon first, each with its own distance |
| BalloonApi.DecimalRoundTrip | utils/balloon_api.py:18 | the decimal numeral of an hour reads back as that hour |
| BalloonApi.ZeroPad2Digits | utils/balloon_api.py:18 | `{hour:02d}` has at least two digits, exactly two below 100, and denotes `hour` |
| BalloonApi.HourUrlForm | utils/balloon_api.py:18 | each URL is `BASE_URL`, the padded hour and `.json`, and the hour can be read back from it |
| BalloonApi.HourUrlInjective | utils/balloon_api.py:17-18 | distinct hours are fetched from distinct URLs |
| BalloonApi.ParseEntryAccepts | utils/balloon_api.py:26-39 | an entry is kept exactly when it is a list of at least three elements whose first three convert with `float`, and its record holds them in order |
| BalloonApi.ExtraElementsIgnored | utils/balloon_api.py:26-30 | elements after the third do not matter |
| BalloonApi.EntryRecords | utils/balloon_api.py:25-41 | the entry loop keeps at most one record per entry, each stamped with the hour's instant |
| BalloonApi.FetchBalloonData | utils/balloon_api.py:17-41 | the hour loop returns the records of the 24 files in hour order, newest timestamps first, none older than 23 hours before `now` |
| BalloonApi.AppendEntryRecords | utils/balloon_api.py:25-39 | the entry loop appends exactly the accepted entries' records to `all_data` |
| BalloonApi.HourRecordsStamped | utils/balloon_api.py:31 | every record of an hourly file carries `now - hour` hours |
| BalloonApi.TimestampsFromFetchedHours | utils/balloon_api.py:17-37 | every timestamp is `now` less a whole number of hours inside the fetched window |
| BalloonApi.TimestampsAreNewestFirst | utils/balloon_api.py:17-37 | the timestamps never increase along the list and none is older than the last fetched hour |
| BalloonApi.EntryRecordsConcat | utils/balloon_api.py:25-41 | the entry loop over two runs of entries is the loop over each in turn |
| BalloonApi.DroppedEntryIsInvisible | utils/balloon_api.py:38-41 | a malformed entry is skipped without affecting its neighbours |
| BalloonApi.EntryRecordsEnumerate | utils/balloon_api.py:25-37 | every accepted entry contributes its record, and every record comes from an accepted entry |
| BalloonApi.Select | utils/balloon_api.py:59-65 | a row filter keeps exactly the qualifying rows, in frame order: a subsequence of qualifying rows whose length is the number of qualifying positions, so duplicate rows are kept |
| BalloonApi.CleanBalloonData | utils/balloon_api.py:51-67 | an empty frame is returned unchanged; otherwise exactly the complete rows within latitude, longitude and altitude bounds, in order, as many as there are such positions, duplicates included |
| BalloonApi.CleanIsIdempotent | utils/balloon_api.py:51-67 | cleaning a cleaned frame changes nothing |
| BalloonApi.DropnaIsSubsumed | utils/balloon_api.py:59-65 | dropping incomplete rows before the bounds query removes nothing the query would keep |

## Left out

- The HTTP layer:
  - `requests.get`, headers, basic authentication and timeouts;
  - the status-code branches of `fetch_nearby_flights` (utils/flight_api.py:23-41) and test.py:11-14;
  - the `Timeout` and `RequestException` handlers, which only return `[]` or skip a file.
  
  Each hourly fetch is a parameter. A fetch that fails or does not decode is `RequestFailed` or `MalformedJson`.
- `print` logging throughout: it has no effect on results.
- Floating-point arithmetic:
  - numbers are `real`, so NaN and infinities are not modelled;
  - JSON integers are `real` too, so Python's distinction between `int` and `float` is lost. `float()` of an integer too large for a float raises `OverflowError`, which none of the handlers in utils/flight_api.py (80, 86-91) or utils/balloon_api.py (38, 44, 46) catches. In the source such a value ends the whole `fetch_nearby_flights` or `fetch_balloon_data` call with that exception, and test.py's outer handler (test.py:52) returns `[]`. In the model it converts, and its state or entry is kept;
  - `float()` on strings is a supplied parser;
  - `round(x, 2)` and the ellipsoidal geodesic are uninterpreted functions.
- Geodesic validation: geopy's own `ValueError` for latitudes outside [-90, 90] is not modelled, because the distance is taken as total. In the flight clients that error would be absorbed by the per-state handler; in `find_nearby_flights` it would propagate.
- Distance geometry: no symmetry or triangle property of the distance is claimed.
- The clock: `datetime.utcnow()` is the integer parameter `now`, in seconds. The `isoformat()` rendering of timestamps and the construction of the pandas frame (utils/balloon_api.py:49) are not modelled.
- `clean_balloon_data` input: the frame is modelled after `pd.to_numeric(errors='ignore')`, as numeric columns where `None` stands for a missing value. String cells that fail to convert, which `errors='ignore'` leaves in place, are not modelled.
- Duplicate JSON keys: a decoded object keeps every member as it appears. Lookup takes the last value, as `json.loads` does. But iterating an object (`for state in data['states']` when `'states'` holds an object) yields a repeated key once per occurrence, where a Python dict yields it once.
- Top-level response shape: the OpenSky response is modelled as a decoded JSON object. A top-level list or scalar, where `'states' in data` behaves differently, is not modelled.
- The threshold: it is not validated, as in the source. A non-positive threshold simply matches less.
- Entry point and front end: app.py, which picks the balloon passed to the flight client, and static/js/main.js are not part of this model.
- Behaviour that may look unintended is modelled as the code has it:
  - the flight clients treat a coordinate of exactly 0 as missing (truthiness), and do no range check on aircraft coordinates;
  - a whitespace-only callsign becomes the empty string, not `"Unknown"`;
  - a dict state or a truthy non-string callsign raises an exception that escapes utils/flight_api.py instead of being skipped;
  - `find_nearby_flights` does not round its distances;
  - `'states': null` makes utils/flight_api.py raise `TypeError`, while test.py returns `[]`.
- OpenSky.Collect: its own contract only bounds the length of the result. What it computes is stated by the `Collect…` lemmas in the model table.
- TestScript.NearbyAircraftList: its own contract covers only the missing and null `states` cases. The loop's behaviour is stated by the lemmas in the model table.
