/**
 * Values shared by every reader of the system-information module: optional
 * values, the outcome of a host query that may raise, and the JSON-shaped
 * values that the readers put into their dictionaries.
 */
module Values {

  datatype Option<+T> = None | Some(value: T)

  /** The outcome of a host query: its value, or the text `str(e)` of the exception it raised. */
  datatype Result<+T> = Ok(value: T) | Failed(message: string)

  /**
   * A value as it appears in a reader's dictionary and, from there, in the
   * JSON body: a string, an integer, Python's `None`, or a nested dictionary.
   */
  datatype Value =
    | Str(s: string)
    | Int(n: int)
    | Null
    | Obj(fields: map<string, Value>)

  /** A dictionary whose values are all strings, as a nested `Value`. */
  function StringMapValue(m: map<string, string>): Value
  {
    Obj(map k | k in m :: Str(m[k]))
  }

  /** Reads a nested dictionary back as a string-to-string map, if it is one. */
  function AsStringMap(v: Value): (r: Option<map<string, string>>)
    ensures r.Some? <==> v.Obj? && forall k :: k in v.fields ==> v.fields[k].Str?
    ensures r.Some? ==> r.value.Keys == v.fields.Keys
  {
    if v.Obj? && forall k :: k in v.fields ==> v.fields[k].Str? then
      Some(map k | k in v.fields :: v.fields[k].s)
    else
      None
  }

  /** Nothing is lost when a string map is stored as a nested dictionary. */
  lemma StringMapRoundTrip(m: map<string, string>)
    ensures AsStringMap(StringMapValue(m)) == Some(m)
  {
    var back := AsStringMap(StringMapValue(m));
    assert back.Some?;
    assert back.value.Keys == m.Keys;
    forall k | k in m ensures back.value[k] == m[k] {
      assert StringMapValue(m).fields[k] == Str(m[k]);
    }
    assert back.value == m;
  }
}
