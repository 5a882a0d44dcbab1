/** Memoised JSON rendering: an object keeps the JSON string of its first successful
    serialization and returns it on every later request.

    `formatForJSON` (the subclass's hook) and `JSONSerializer.serialize` are outside this
    model; together they are a function from the object's current state to either a
    JSON string or a `JsonProcessingException`. */
module JsonFormatCached {
  import opened Wrappers

  datatype JsonProcessingException = JsonProcessingException(message: string)

  /** The outcome of serializing once: the JSON text or the exception thrown. */
  type Rendered = Result<string, JsonProcessingException>

  //-------------------------------------------------------------------------------
  // Specification on values
  //-------------------------------------------------------------------------------

  /** One `getCachedJSON` call on a cache holding `cache`, where serializing the object
      now would give `rendered`: the new cache and what the call returns or throws. */
  function GetCached(cache: Option<string>, rendered: Rendered): (r: (Option<string>, Rendered))
    // a filled cache answers from itself and stays as it is
    ensures cache.Some? ==> r == (cache, Success(cache.value))
    // an empty cache passes on the fresh serialization, success or exception
    ensures cache.None? ==> r.1 == rendered
    // the cache is filled exactly when the call returns a string, and holds that string
    ensures r.0.Some? <==> r.1.Success?
    ensures r.0.Some? ==> r.0.value == r.1.value
  {
    match cache
    case Some(json) => (cache, Success(json))
    case None =>
      match rendered
      case Success(json) => (Some(json), rendered)
      case Failure(_) => (None, rendered)
  }

  /** A run of calls: `renders[i]` is what serializing the object would give at call i
      (its state may change between calls). Returns the final cache and each outcome. */
  function Calls(cache: Option<string>, renders: seq<Rendered>): (r: (Option<string>, seq<Rendered>))
    ensures |r.1| == |renders|
    decreases |renders|
  {
    if renders == [] then
      (cache, [])
    else
      var (cache1, out) := GetCached(cache, renders[0]);
      var (cache2, outs) := Calls(cache1, renders[1..]);
      (cache2, [out] + outs)
  }

  /** Once filled, the cache never changes and every call returns its string,
      whatever the object's state has become. */
  lemma {:induction false} FilledCacheIsFinal(json: string, renders: seq<Rendered>)
    ensures Calls(Some(json), renders).0 == Some(json)
    ensures forall i :: 0 <= i < |renders| ==> Calls(Some(json), renders).1[i] == Success(json)
    decreases |renders|
  {
    if renders != [] {
      FilledCacheIsFinal(json, renders[1..]);
      var outs := Calls(Some(json), renders[1..]).1;
      assert Calls(Some(json), renders).1 == [Success(json)] + outs;
      forall i | 0 <= i < |renders|
        ensures ([Success(json)] + outs)[i] == Success(json)
      {
        if i > 0 {
          assert ([Success(json)] + outs)[i] == outs[i - 1];
        }
      }
    }
  }

  /** All successful calls of a run return the same string, and every call after the
      first successful one succeeds. */
  lemma {:induction false} CallsAgree(cache: Option<string>, renders: seq<Rendered>, i: int, j: int)
    requires 0 <= i < j < |renders|
    requires Calls(cache, renders).1[i].Success?
    ensures Calls(cache, renders).1[j] == Calls(cache, renders).1[i]
    decreases |renders|
  {
    var (cache1, out) := GetCached(cache, renders[0]);
    var outs := Calls(cache1, renders[1..]).1;
    assert Calls(cache, renders).1 == [out] + outs;
    if i == 0 {
      FilledCacheIsFinal(out.value, renders[1..]);
      assert outs[j - 1] == Success(out.value);
    } else {
      assert outs[i - 1].Success?;
      CallsAgree(cache1, renders[1..], i - 1, j - 1);
    }
  }

  //-------------------------------------------------------------------------------
  // Heap model
  //-------------------------------------------------------------------------------

  /** `JSONFormatCached`: `fields` is the subclass's own state, which it may change at
      any time; `cache` is the `_cache` field. */
  class JSONFormatCached<State, Formatted> {
    var fields: State
    var cache: Option<string>
    /** How many times `formatForJSON` has been called. */
    ghost var formatCalls: nat

    /** The subclass's `formatForJSON` hook. */
    const formatForJSON: State -> Formatted
    /** `JSONSerializer.serialize`, which may throw. */
    const serialize: Formatted -> Rendered

    constructor (fields: State, formatForJSON: State -> Formatted, serialize: Formatted -> Rendered)
      ensures cache == None && formatCalls == 0
      ensures this.fields == fields && this.formatForJSON == formatForJSON && this.serialize == serialize
    {
      this.fields := fields;
      this.formatForJSON := formatForJSON;
      this.serialize := serialize;
      cache := None;
      formatCalls := 0;
    }

    /** `getCachedJSON`: serialize on the first successful call, answer from the cache after. */
    method GetCachedJSON() returns (r: Rendered)
      modifies this`cache, this`formatCalls
      ensures (cache, r) == GetCached(old(cache), serialize(formatForJSON(fields)))
      // formatForJSON runs only while the cache is empty
      ensures formatCalls == old(formatCalls) + (if old(cache).None? then 1 else 0)
    {
      if cache.None? {
        formatCalls := formatCalls + 1;
        var rendered := serialize(formatForJSON(fields));
        // the assignment happens only when serialize returns
        if rendered.Failure? {
          return rendered;
        }
        cache := Some(rendered.value);
      }
      r := Success(cache.value);
    }
  }
}
