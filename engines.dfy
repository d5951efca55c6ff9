/** Engine maps: the expected ranges as an ordered list of own keys, the actual versions as a map. */
module Engines {
  import opened Wrappers

  /** No name occurs twice, as in the own keys of a JavaScript object. */
  predicate NamesDistinct<V>(m: seq<(string, V)>) {
    forall i, j :: 0 <= i < j < |m| ==> m[i].0 != m[j].0
  }

  /** Engine name -> range expression, in the key order `Object.keys` reports. */
  type EngineMap = m: seq<(string, string)> | NamesDistinct(m) witness []

  /** Engine name -> concrete version; a missing key reads as `undefined`. */
  type ActualMap = map<string, string>

  /** Names recognised for automatic resolution. */
  const Node := "node"
  const Npm := "npm"

  predicate HasName<V>(m: seq<(string, V)>, name: string) {
    exists i :: 0 <= i < |m| && m[i].0 == name
  }

  /** `m[name]` on the expected object. */
  function Lookup(m: seq<(string, string)>, name: string): (r: Option<string>)
    ensures r.Some? <==> HasName(m, name)
    ensures r.Some? ==> (name, r.value) in m
  {
    if m == [] then None
    else if m[0].0 == name then Some(m[0].1)
    else
      var r := Lookup(m[1..], name);
      assert HasName(m[1..], name) ==> HasName(m, name) by {
        if HasName(m[1..], name) {
          var i :| 0 <= i < |m[1..]| && m[1..][i].0 == name;
          assert m[i + 1].0 == name;
        }
      }
      r
  }

  /** `actual[name]` on the actual object. */
  function Get(actual: ActualMap, name: string): Option<string> {
    if name in actual then Some(actual[name]) else None
  }

  /** JavaScript truthiness of a version value: present and not the empty string. */
  predicate Truthy(v: Option<string>) {
    v.Some? && v.value != ""
  }
}
