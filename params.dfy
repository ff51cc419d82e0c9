/** The Option type used for values that web APIs may leave out (`null`). */
module Wrappers {
  datatype Option<+T> = None | Some(value: T)
}

/**
 * Name/value lists as the route handlers read them: the query string of the
 * request URL (`URLSearchParams`) and the fields of a multipart form
 * (`FormData`). Both keep every pair in order, and both `get(name)` return the
 * value of the FIRST pair with that name, or `null` when there is none.
 */
module Params {
  import opened Wrappers

  /** `i` is the position of the first pair named `key`. */
  ghost predicate FirstAt<V>(pairs: seq<(string, V)>, key: string, i: int) {
    0 <= i < |pairs| && pairs[i].0 == key &&
    forall j :: 0 <= j < i ==> pairs[j].0 != key
  }

  /** `get(key)`: the value of the first pair named `key`, if any. */
  function First<V>(pairs: seq<(string, V)>, key: string): (r: Option<V>)
    ensures r.None? <==> forall i :: 0 <= i < |pairs| ==> pairs[i].0 != key
    ensures r.Some? ==> exists i :: FirstAt(pairs, key, i) && pairs[i].1 == r.value
  {
    if |pairs| == 0 then None
    else if pairs[0].0 == key then
      assert FirstAt(pairs, key, 0);
      Some(pairs[0].1)
    else
      var rest := First(pairs[1..], key);
      if rest.Some? then
        assert exists i :: FirstAt(pairs, key, i) && pairs[i].1 == rest.value by {
          var i :| FirstAt(pairs[1..], key, i) && pairs[1..][i].1 == rest.value;
          assert FirstAt(pairs, key, i + 1);
        }
        rest
      else
        rest
  }

  /** Pairs before the first one named `key` do not change what `get(key)` returns. */
  lemma {:induction false} FirstSkips<V>(before: seq<(string, V)>, key: string, value: V, after: seq<(string, V)>)
    requires forall j :: 0 <= j < |before| ==> before[j].0 != key
    ensures First(before + [(key, value)] + after, key) == Some(value)
  {
    if |before| > 0 {
      assert (before + [(key, value)] + after)[1..] == before[1..] + [(key, value)] + after;
      FirstSkips(before[1..], key, value, after);
    }
  }
}
