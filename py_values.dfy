/** Python values as the decoded JSON feeds deliver them, and the handful of
    Python built-ins the core applies to them: truthiness, `float(...)`,
    `str.strip()`, indexing with `v[i]`, iteration with `for x in v` and
    dictionary lookup. */
module PyValues {

  /** A value produced by `json.loads`. An object keeps its members in the
      order they were decoded. */
  datatype Json =
    | JNull
    | JBool(b: bool)
    | JNum(n: real)
    | JStr(s: string)
    | JArr(items: seq<Json>)
    | JObj(fields: seq<(string, Json)>)

  /** The exceptions the core can raise. */
  datatype Exc = TypeError | ValueError | IndexError | KeyError | AttributeError

  datatype Option<+T> = None | Some(value: T)

  /** The outcome of a Python expression: a value, or a raised exception. */
  datatype Outcome<+T> = Ok(value: T) | Raise(exc: Exc) {
    predicate IsFailure() { Raise? }

    function PropagateFailure<U>(): Outcome<U>
      requires Raise?
    {
      Raise(exc)
    }

    function Extract(): T
      requires Ok?
    {
      value
    }
  }

  /** `float(s)` on a string: `Some(x)` for a numeral denoting `x`, `None`
      where Python raises `ValueError`. Supplied by the caller. */
  type FloatParser = string -> Option<real>

  /** Python's `bool(v)`: `None`, `False`, zero and empty containers are falsy. */
  predicate Truthy(v: Json) {
    match v
    case JNull => false
    case JBool(b) => b
    case JNum(n) => n != 0.0
    case JStr(s) => s != []
    case JArr(xs) => xs != []
    case JObj(fs) => fs != []
  }

  /** Truthiness of a numeric field that may be `None`: `None` and `0` are falsy. */
  predicate TruthyNumber(x: Option<real>) {
    x.Some? && x.value != 0.0
  }

  /** `len(v)` for the values that can be indexed by position. */
  predicate HasIndex(v: Json, i: nat) {
    (v.JArr? && i < |v.items|) || (v.JStr? && i < |v.s|)
  }

  /** `v[i]` for a non-negative integer `i`. A list yields its element, a string
      a one-character string; a dict raises `KeyError` (JSON keys are strings,
      never the integer `i`); a scalar is not subscriptable. */
  function GetItem(v: Json, i: nat): (r: Outcome<Json>)
    ensures r.Ok? <==> HasIndex(v, i)
    ensures v.JArr? && i < |v.items| ==> r == Ok(v.items[i])
    ensures r.Raise? ==> (r.exc == KeyError <==> v.JObj?)
    ensures r.Raise? && !v.JObj? ==> r.exc == IndexError || r.exc == TypeError
  {
    match v
    case JArr(xs) => if i < |xs| then Ok(xs[i]) else Raise(IndexError)
    case JStr(s) => if i < |s| then Ok(JStr([s[i]])) else Raise(IndexError)
    case JObj(_) => Raise(KeyError)
    case _ => Raise(TypeError)
  }

  /** `float(v)`. Booleans convert to 0.0 and 1.0, numbers to themselves,
      strings through `parse`; `None`, lists and dicts raise `TypeError`. */
  function ToFloat(v: Json, parse: FloatParser): (r: Outcome<real>)
    ensures r.Raise? ==> r.exc == TypeError || r.exc == ValueError
    ensures v.JNum? ==> r == Ok(v.n)
    ensures v.JBool? ==> r == Ok(if v.b then 1.0 else 0.0)
    ensures v.JStr? && parse(v.s).Some? ==> r == Ok(parse(v.s).value)
    ensures v.JStr? && parse(v.s).None? ==> r == Raise(ValueError)
    ensures v.JNull? || v.JArr? || v.JObj? ==> r == Raise(TypeError)
  {
    match v
    case JBool(b) => Ok(if b then 1.0 else 0.0)
    case JNum(n) => Ok(n)
    case JStr(s) => (match parse(s) case Some(x) => Ok(x) case None => Raise(ValueError))
    case _ => Raise(TypeError)
  }

  /** The values `for x in v` runs over: the elements of a list, the
      one-character strings of a string, the keys of a dict. Anything else is
      not iterable. */
  function Iterate(v: Json): (r: Outcome<seq<Json>>)
    ensures r.Ok? <==> v.JArr? || v.JStr? || v.JObj?
    ensures v.JArr? ==> r == Ok(v.items)
    ensures r.Raise? ==> r.exc == TypeError
  {
    match v
    case JArr(xs) => Ok(xs)
    case JStr(s) => Ok(seq(|s|, k requires 0 <= k < |s| => JStr([s[k]])))
    case JObj(fs) => Ok(seq(|fs|, k requires 0 <= k < |fs| => JStr(fs[k].0)))
    case _ => Raise(TypeError)
  }

  /** `d[key]` on a decoded JSON object, `None` where `key in d` is false.
      A key decoded twice keeps its last value, as `json.loads` does. */
  function Lookup(fields: seq<(string, Json)>, key: string): (r: Option<Json>)
    ensures r.None? <==> forall k :: 0 <= k < |fields| ==> fields[k].0 != key
    ensures r.Some? ==> exists k :: 0 <= k < |fields| && fields[k] == (key, r.value)
  {
    if fields == [] then None
    else if fields[|fields| - 1].0 == key then Some(fields[|fields| - 1].1)
    else Lookup(fields[..|fields| - 1], key)
  }

  /** `str.isspace()` on one character: the ASCII and Unicode whitespace
      characters Python strips. */
  predicate IsSpace(c: char) {
    c == ' ' || ('\t' <= c <= '\r') || ('\U{1c}' <= c <= '\U{1f}')
    || c == '\U{85}' || c == '\U{a0}' || c == '\U{1680}'
    || ('\U{2000}' <= c <= '\U{200a}') || c == '\U{2028}' || c == '\U{2029}'
    || c == '\U{202f}' || c == '\U{205f}' || c == '\U{3000}'
  }

  /** `s.lstrip()`: the suffix of `s` left after its leading whitespace. */
  function StripStart(s: string): (r: string)
    ensures |r| <= |s| && r == s[|s| - |r|..]
    ensures forall k :: 0 <= k < |s| - |r| ==> IsSpace(s[k])
    ensures r == [] || !IsSpace(r[0])
  {
    if s != [] && IsSpace(s[0]) then StripStart(s[1..]) else s
  }

  /** `s.rstrip()`: the prefix of `s` left before its trailing whitespace. */
  function StripEnd(s: string): (r: string)
    ensures |r| <= |s| && r == s[..|r|]
    ensures forall k :: |r| <= k < |s| ==> IsSpace(s[k])
    ensures r == [] || !IsSpace(r[|r| - 1])
  {
    if s != [] && IsSpace(s[|s| - 1]) then StripEnd(s[..|s| - 1]) else s
  }

  /** Everything of `s` outside the slice `s[i..j]` is whitespace. */
  predicate SpaceOutside(s: string, i: nat, j: nat)
    requires i <= j <= |s|
  {
    (forall k :: 0 <= k < i ==> IsSpace(s[k])) && (forall k :: j <= k < |s| ==> IsSpace(s[k]))
  }

  /** `s.strip()`: the slice of `s` left once its leading and trailing
      whitespace is removed. Neither end of the result is whitespace, and the
      result is empty exactly when `s` is all whitespace. */
  function Strip(s: string): (r: string)
    ensures exists i: nat, j: nat :: i <= j <= |s| && r == s[i..j] && SpaceOutside(s, i, j)
    ensures r == [] || (!IsSpace(r[0]) && !IsSpace(r[|r| - 1]))
    ensures |r| <= |s|
    ensures r == [] <==> forall k :: 0 <= k < |s| ==> IsSpace(s[k])
  {
    var t := StripStart(s);
    var r := StripEnd(t);
    PrefixOfSuffix(s, t, r);
    assert r != [] ==> r[0] == t[0];
    assert r == [] ==> t == [];
    r
  }

  /** A prefix `r` of a suffix `t` of `s`, with only whitespace around it in
      `s`, is a slice of `s` with only whitespace outside it. */
  lemma PrefixOfSuffix(s: string, t: string, r: string)
    requires |t| <= |s| && t == s[|s| - |t|..]
    requires forall k :: 0 <= k < |s| - |t| ==> IsSpace(s[k])
    requires |r| <= |t| && r == t[..|r|]
    requires forall k :: |r| <= k < |t| ==> IsSpace(t[k])
    ensures r == s[|s| - |t|..|s| - |t| + |r|]
    ensures SpaceOutside(s, |s| - |t|, |s| - |t| + |r|)
  {
    var i := |s| - |t|;
    forall k | i + |r| <= k < |s|
      ensures IsSpace(s[k])
    {
      assert s[k] == t[k - i];
    }
  }

  /** Whitespace padding after a word with non-space ends is all that
      `strip` removes. */
  lemma StripRemovesPadding(word: string, pad: string)
    requires word != [] && !IsSpace(word[0]) && !IsSpace(word[|word| - 1])
    requires forall k :: 0 <= k < |pad| ==> IsSpace(pad[k])
    ensures Strip(word + pad) == word
  {
    assert (word + pad)[0] == word[0];
    assert StripStart(word + pad) == word + pad;
    StripEndRemovesPadding(word, pad);
  }

  /** `rstrip` removes trailing whitespace and stops at a non-space. */
  lemma {:induction false} StripEndRemovesPadding(word: string, pad: string)
    requires word != [] && !IsSpace(word[|word| - 1])
    requires forall k :: 0 <= k < |pad| ==> IsSpace(pad[k])
    ensures StripEnd(word + pad) == word
    decreases |pad|
  {
    if pad == [] {
      assert word + pad == word;
    } else {
      var shorter := pad[..|pad| - 1];
      StripEndRemovesPadding(word, shorter);
      var s := word + pad;
      assert s[|s| - 1] == pad[|pad| - 1];
      assert s[..|s| - 1] == word + shorter;
    }
  }

  /** Stripping twice strips nothing more. */
  lemma StripIdempotent(s: string)
    ensures Strip(Strip(s)) == Strip(s)
  {
    var r := Strip(s);
    assert r == [] || !IsSpace(r[0]);
    assert StripStart(r) == r;
    assert StripEnd(r) == r;
  }
}
