/**
 * The values snakeyaml hands to the dictionary loaders and to AppConfig, and the Java casts the
 * loaders apply to them. Parsing the YAML text itself is not part of this model.
 */
module Yaml {
  import opened Wrappers
  import opened JavaLang

  /**
   * A loaded YAML value. A mapping keeps its keys in document order (snakeyaml builds a
   * LinkedHashMap); an integer outside the int range is what snakeyaml loads as a Long.
   */
  datatype YamlValue =
    | YNull
    | YBool(b: bool)
    | YInt(i: int)
    | YStr(s: string)
    | YList(items: seq<YamlValue>)
    | YMap(entries: seq<(string, YamlValue)>)

  /** Map.get: the value under the key, None when absent. */
  function Get(entries: seq<(string, YamlValue)>, key: string): (r: Option<YamlValue>)
    ensures r.Some? <==> exists i :: 0 <= i < |entries| && entries[i].0 == key
    ensures r.Some? ==> exists i :: 0 <= i < |entries| && entries[i] == (key, r.value)
  {
    if |entries| == 0 then None
    else if entries[0].0 == key then Some(entries[0].1)
    else
      var r := Get(entries[1..], key);
      assert forall i :: 0 < i < |entries| ==> entries[i] == entries[1..][i - 1];
      r
  }

  /** (Map<String, Object>) v: null stays null, a mapping passes, anything else is a ClassCastException. */
  function AsMap(v: YamlValue): (r: Result<Option<seq<(string, YamlValue)>>, Error>)
    ensures r.Failure? <==> !(v.YNull? || v.YMap?)
    ensures r.Failure? ==> r.error == ClassCast
  {
    match v
    case YNull => Success(None)
    case YMap(es) => Success(Some(es))
    case _ => Failure(ClassCast)
  }

  /** (String) v. */
  function AsString(v: YamlValue): (r: Result<Option<string>, Error>)
    ensures r.Failure? <==> !(v.YNull? || v.YStr?)
    ensures v.YStr? ==> r == Success(Some(v.s))
  {
    match v
    case YNull => Success(None)
    case YStr(s) => Success(Some(s))
    case _ => Failure(ClassCast)
  }

  /** (Integer) v: snakeyaml loads integers beyond the int range as Long, which does not cast. */
  function AsInteger(v: YamlValue): (r: Result<Option<int>, Error>)
    ensures r.Success? && r.value.Some? ==> InInt32(r.value.value)
    ensures v.YInt? && InInt32(v.i) ==> r == Success(Some(v.i))
    ensures v.YInt? && !InInt32(v.i) ==> r == Failure(ClassCast)
  {
    match v
    case YNull => Success(None)
    case YInt(i) => if InInt32(i) then Success(Some(i)) else Failure(ClassCast)
    case _ => Failure(ClassCast)
  }

  /** A list of values used as Strings: a non-string element is a ClassCastException. */
  function Strings(items: seq<YamlValue>): (r: Result<seq<string>, Error>)
    ensures (forall i :: 0 <= i < |items| ==> items[i].YStr?) ==>
              r.Success? && |r.value| == |items| && forall i :: 0 <= i < |items| ==> r.value[i] == items[i].s
    ensures (exists i :: 0 <= i < |items| && !items[i].YStr?) ==> r == Failure(ClassCast)
  {
    if |items| == 0 then Success([])
    else if !items[0].YStr? then Failure(ClassCast)
    else
      var rest := Strings(items[1..]);
      if rest.Failure? then
        assert exists i :: 0 <= i < |items[1..]| && !items[1..][i].YStr?;
        rest
      else
        Success([items[0].s] + rest.value)
  }
}
