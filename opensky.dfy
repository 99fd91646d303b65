/** What the two OpenSky clients (utils/flight_api.py and test.py) share: how a
    field of a state vector is read, which exceptions the per-state `try`
    absorbs, and how the per-state outcomes fold into the result list. */
module OpenSky {
  import opened PyValues
  import Geo

  /** The library code the clients call: the geodesic distance, `round(x, 2)`
      and `float(s)` on strings. */
  datatype Externals = Externals(geodesic: Geo.Geodesic, round2: Geo.Round2, parse: FloatParser)

  /** The per-state handler `except (ValueError, TypeError, IndexError)`. */
  predicate Caught(e: Exc) {
    e == ValueError || e == TypeError || e == IndexError
  }

  /** What the loop body does with one state vector: append a record, skip to
      the next state (`continue`, or an exception the handler absorbs), or let
      an exception escape the loop. */
  datatype Step<T> = Append(record: T) | Continue | Escape(exc: Exc)

  /** The callsign sentinel for a falsy `state[1]`. */
  const Unknown: string := "Unknown"

  /** `state[1].strip() if state[1] else "Unknown"`. A truthy `state[1]` that is
      not a string has no `strip` and raises `AttributeError`. */
  function CallsignField(state: Json): (r: Outcome<string>)
    ensures r.Ok? <==> HasIndex(state, 1)
                       && (!Truthy(GetItem(state, 1).value) || GetItem(state, 1).value.JStr?)
    ensures r.Ok? && !Truthy(GetItem(state, 1).value) ==> r.value == Unknown
    ensures r.Ok? && Truthy(GetItem(state, 1).value) ==> r.value == Strip(GetItem(state, 1).value.s)
    ensures r.Raise? ==> (Caught(r.exc) <==> !state.JObj? && !HasIndex(state, 1))
  {
    var v :- GetItem(state, 1);
    if !Truthy(v) then Ok(Unknown)
    else if v.JStr? then Ok(Strip(v.s))
    else Raise(AttributeError)
  }

  /** The states whose field reads raise an exception the per-state handler
      does not absorb: a dict indexed by position (`KeyError`), or a truthy
      non-string `state[1]`, which has no `strip` (`AttributeError`). */
  predicate BreaksHandler(state: Json) {
    state.JObj? || (HasIndex(state, 1) && Truthy(GetItem(state, 1).value) && !GetItem(state, 1).value.JStr?)
  }

  /** `float(state[i]) if state[i] else None`: a falsy field (`None`, `0`, an
      empty string) reads as `None`, so a coordinate of exactly 0 is missing. */
  function OptionalFloat(state: Json, i: nat, parse: FloatParser): (r: Outcome<Option<real>>)
    ensures r.Ok? && r.value.Some? <==>
              HasIndex(state, i) && Truthy(GetItem(state, i).value)
              && ToFloat(GetItem(state, i).value, parse).Ok?
    ensures r.Ok? && r.value.Some? ==> r.value.value == ToFloat(GetItem(state, i).value, parse).value
    ensures r.Ok? && r.value.None? <==> HasIndex(state, i) && !Truthy(GetItem(state, i).value)
    ensures r.Raise? && !state.JObj? ==> Caught(r.exc)
  {
    var v :- GetItem(state, i);
    if Truthy(v) then (var x :- ToFloat(v, parse); Ok(Some(x))) else Ok(None)
  }

  /** A non-zero number at position `i` reads as itself. */
  lemma OptionalFloatOfNumber(state: Json, i: nat, x: real, parse: FloatParser)
    requires state.JArr? && i < |state.items| && state.items[i] == JNum(x) && x != 0.0
    ensures OptionalFloat(state, i, parse) == Ok(Some(x))
  {
    assert GetItem(state, i) == Ok(JNum(x));
  }

  /** The list the loop builds from the per-state outcomes, or the exception
      that escaped it. Processing stops at the first escape. */
  function Collect<T>(steps: seq<Step<T>>): (r: Outcome<seq<T>>)
    ensures r.Ok? ==> |r.value| <= |steps|
  {
    if steps == [] then Ok([])
    else
      var prev := Collect(steps[..|steps| - 1]);
      if prev.Raise? then prev
      else Next(prev.value, steps[|steps| - 1])
  }

  /** The loop raises exactly when some step escapes, and a loop whose every
      step continues builds the empty list. */
  lemma {:induction false} CollectRaisesOnEscape<T>(steps: seq<Step<T>>)
    ensures Collect(steps).Raise? <==> exists k :: 0 <= k < |steps| && steps[k].Escape?
    ensures (forall k :: 0 <= k < |steps| ==> steps[k].Continue?) ==> Collect(steps) == Ok([])
    decreases |steps|
  {
    if steps != [] {
      var n := |steps| - 1;
      var init := steps[..n];
      CollectRaisesOnEscape(init);
      assert forall k :: 0 <= k < n ==> init[k] == steps[k];
      if Collect(init).Raise? {
        var k :| 0 <= k < n && init[k].Escape?;
        assert steps[k].Escape?;
      }
    }
  }

  /** One more turn of the loop after it has built `done`. */
  function Next<T>(done: seq<T>, step: Step<T>): Outcome<seq<T>> {
    match step
    case Append(x) => Ok(done + [x])
    case Continue => Ok(done)
    case Escape(e) => Raise(e)
  }

  /** One more turn of the loop over a prefix of `steps`. */
  lemma CollectPrefixStep<T>(steps: seq<Step<T>>, i: nat, done: seq<T>)
    requires i < |steps| && Collect(steps[..i]) == Ok(done)
    ensures Collect(steps[..i + 1]) == Next(done, steps[i])
  {
    assert steps[..i + 1][..i] == steps[..i];
  }

  /** A step that escapes after a prefix that does not ends the loop with its
      exception. */
  lemma {:induction false} EscapeAfterPrefix<T>(steps: seq<Step<T>>, i: nat, e: Exc)
    requires i < |steps| && Collect(steps[..i]).Ok? && steps[i] == Escape(e)
    ensures Collect(steps) == Raise(e)
    decreases |steps|
  {
    var n := |steps| - 1;
    var init := steps[..n];
    if n == i {
      assert init == steps[..i];
    } else {
      assert init[..i] == steps[..i];
      assert init[i] == steps[i];
      EscapeAfterPrefix(init, i, e);
    }
  }

  /** Running the loop over `a` and then over `b`. */
  function Then<T>(first: Outcome<seq<T>>, second: Outcome<seq<T>>): Outcome<seq<T>> {
    match first
    case Raise(e) => Raise(e)
    case Ok(xs) => (match second case Raise(e) => Raise(e) case Ok(ys) => Ok(xs + ys))
  }

  /** The loop over `a + b` is the loop over `a` followed by the loop over `b`. */
  lemma {:induction false} CollectConcat<T>(a: seq<Step<T>>, b: seq<Step<T>>)
    ensures Collect(a + b) == Then(Collect(a), Collect(b))
    decreases |b|
  {
    if b == [] {
      assert a + b == a;
      if Collect(a).Ok? {
        assert Collect(a).value + [] == Collect(a).value;
      }
    } else {
      var b' := b[..|b| - 1];
      var last := b[|b| - 1];
      assert (a + b)[..|a + b| - 1] == a + b';
      assert (a + b)[|a + b| - 1] == last;
      CollectConcat(a, b');
      match Collect(a) {
        case Raise(_) =>
        case Ok(xs) =>
          match Collect(b') {
            case Raise(_) =>
            case Ok(ys) =>
              match last {
                case Append(x) => assert xs + (ys + [x]) == (xs + ys) + [x];
                case Continue =>
                case Escape(_) =>
              }
          }
      }
    }
  }

  /** A state the body skips leaves the result exactly as if it were absent:
      the states after it are still processed. */
  lemma SkippedStepIsInvisible<T>(a: seq<Step<T>>, b: seq<Step<T>>)
    ensures Collect(a + [Continue] + b) == Collect(a + b)
  {
    CollectConcat(a + [Continue], b);
    CollectConcat(a, b);
    assert (a + [Continue])[..|a + [Continue]| - 1] == a;
  }

  /** The first escaping exception decides the outcome, whatever follows it. */
  lemma FirstEscapeDecides<T>(a: seq<Step<T>>, e: Exc, b: seq<Step<T>>)
    requires forall k :: 0 <= k < |a| ==> !a[k].Escape?
    ensures Collect(a + [Escape(e)] + b) == Raise(e)
  {
    var steps := a + [Escape(e)] + b;
    CollectRaisesOnEscape(a);
    assert steps[..|a|] == a;
    EscapeAfterPrefix(steps, |a|, e);
  }

  /** The positions of the steps that append, in increasing order. */
  ghost function AppendPositions<T>(steps: seq<Step<T>>): seq<nat> {
    if steps == [] then []
    else
      var rest := AppendPositions(steps[..|steps| - 1]);
      if steps[|steps| - 1].Append? then rest + [|steps| - 1] else rest
  }

  /** `out` lists, in order, the records of exactly the appending steps named
      by the strictly increasing positions `pos`. */
  ghost predicate Enumerates<T>(pos: seq<nat>, steps: seq<Step<T>>, out: seq<T>) {
    && |pos| == |out|
    && (forall k :: 0 <= k < |pos| ==> pos[k] < |steps| && steps[pos[k]] == Append(out[k]))
    && (forall k1, k2 :: 0 <= k1 < k2 < |pos| ==> pos[k1] < pos[k2])
    && (forall i :: 0 <= i < |steps| && steps[i].Append? ==> i in pos)
  }

  /** When nothing escapes, the result is the subsequence of appended records,
      in the order of the states that produced them. */
  lemma {:induction false} CollectIsOrderedSubsequence<T>(steps: seq<Step<T>>, out: seq<T>)
    requires Collect(steps) == Ok(out)
    ensures Enumerates(AppendPositions(steps), steps, out)
    decreases |steps|
  {
    if steps != [] {
      var n := |steps| - 1;
      var init := steps[..n];
      assert init + [steps[n]] == steps;
      var prev := Collect(init).value;
      assert Collect(steps) == Next(prev, steps[n]);
      assert AppendPositions(steps) == if steps[n].Append? then AppendPositions(init) + [n] else AppendPositions(init);
      CollectIsOrderedSubsequence(init, prev);
      EnumeratesExtend(AppendPositions(init), init, prev, steps[n]);
    }
  }

  /** One more turn of the loop keeps `Enumerates`. */
  lemma EnumeratesExtend<T>(pos: seq<nat>, init: seq<Step<T>>, prev: seq<T>, step: Step<T>)
    requires Enumerates(pos, init, prev)
    requires !step.Escape?
    ensures Enumerates(if step.Append? then pos + [|init|] else pos, init + [step], Next(prev, step).value)
  {
    var steps := init + [step];
    var n := |init|;
    var pos' := if step.Append? then pos + [n] else pos;
    var out := Next(prev, step).value;
    assert out == if step.Append? then prev + [step.record] else prev;
    forall k | 0 <= k < |pos'|
      ensures pos'[k] < |steps| && steps[pos'[k]] == Append(out[k])
    {
      if k < |pos| {
        assert pos'[k] == pos[k] && out[k] == prev[k];
        assert steps[pos[k]] == init[pos[k]];
      } else {
        assert pos'[k] == n && out[k] == step.record;
      }
    }
    forall k1, k2 | 0 <= k1 < k2 < |pos'|
      ensures pos'[k1] < pos'[k2]
    {
      assert pos'[k1] == pos[k1] && pos[k1] < n;
      if k2 < |pos| {
        assert pos'[k2] == pos[k2];
      }
    }
    forall i | 0 <= i < |steps| && steps[i].Append?
      ensures i in pos'
    {
      if i < n {
        assert init[i] == steps[i];
        assert i in pos;
      } else {
        assert pos'[|pos|] == n;
      }
    }
  }

}
