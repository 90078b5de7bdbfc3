/** `makeListByDictKey`: the values that a list of dictionaries holds under one key. */
module Utility {
  import opened Py

  /** `[d[key] for d in values]`: KeyError at the first dictionary that lacks the key,
      TypeError at the first value that is not a dictionary. */
  function Project(key: string, values: seq<Value>): (r: Result<seq<Value>>)
    ensures r.Ok? <==> forall i :: 0 <= i < |values| ==> HasKey(values[i], key)
    ensures r.Ok? ==> |r.value| == |values|
    ensures r.Ok? ==> forall i :: 0 <= i < |values| ==> Lookup(values[i].entries, key) == Some(r.value[i])
    ensures r.Err? ==> r.error == TypeError || r.error == KeyError
    // the error is that of the first value without the key
    ensures r.Err? ==>
      exists i :: 0 <= i < |values| && !HasKey(values[i], key) &&
        (forall j :: 0 <= j < i ==> HasKey(values[j], key)) &&
        r.error == (if values[i].Dict? then KeyError else TypeError)
  {
    if |values| == 0 then Ok([])
    else if !values[0].Dict? then Err(TypeError)
    else
      match Lookup(values[0].entries, key)
      case None => Err(KeyError)
      case Some(v) =>
        match Project(key, values[1..])
        case Ok(rest) => Ok([v] + rest)
        case Err(e) => Err(e)
  }

  /** `v` is a dictionary with an item for `key`. */
  predicate HasKey(v: Value, key: string): (b: bool)
    ensures b <==> v.Dict? && exists i :: 0 <= i < |v.entries| && v.entries[i].0 == key
  {
    v.Dict? && Lookup(v.entries, key).Some?
  }

  /** `makeListByDictKey(key, listOfDict)`. A missing key (`None`) is in no dictionary. */
  function MakeListByDictKey(key: Option<string>, listOfDict: seq<Value>): (r: Result<seq<Value>>)
    // an empty list gives an empty list
    ensures |listOfDict| == 0 ==> r == Ok([])
    // only the first element is checked: `has_key` on a non-dictionary fails ...
    ensures (|listOfDict| > 0 && !listOfDict[0].Dict?) ==> r == Err(AttributeError)
    // ... and a first dictionary without the key gives [], whatever the others hold
    ensures (|listOfDict| > 0 && listOfDict[0].Dict? && (key.None? || !HasKey(listOfDict[0], key.value)))
      ==> r == Ok([])
    // when every element is a dictionary with the key: the values, in order
    ensures (key.Some? && |listOfDict| > 0 && forall i :: 0 <= i < |listOfDict| ==> HasKey(listOfDict[i], key.value))
      ==> r.Ok? && |r.value| == |listOfDict| &&
          forall i :: 0 <= i < |listOfDict| ==> Lookup(listOfDict[i].entries, key.value) == Some(r.value[i])
    // a later element that is not a dictionary, or lacks the key, raises
    ensures (key.Some? && |listOfDict| > 0 && HasKey(listOfDict[0], key.value) &&
             exists i :: 0 <= i < |listOfDict| && !HasKey(listOfDict[i], key.value))
      ==> r.Err? && (r.error == TypeError || r.error == KeyError)
    // past a first dictionary with the key, the whole list is projected
    ensures (key.Some? && |listOfDict| > 0 && HasKey(listOfDict[0], key.value)) ==> r == Project(key.value, listOfDict)
  {
    if |listOfDict| == 0 then Ok([])
    else if !listOfDict[0].Dict? then Err(AttributeError)
    else if key.None? || Lookup(listOfDict[0].entries, key.value).None? then Ok([])
    else Project(key.value, listOfDict)
  }
}
