/** Filling the gaps in the caller's actual versions (index.js:47-75). */
module Actual {
  import opened Wrappers
  import opened Engines

  /** The running interpreter's version is used: node is expected and not known. */
  predicate NodeNeeded(expected: seq<(string, string)>, known: ActualMap) {
    Truthy(Lookup(expected, Node)) && !Truthy(Get(known, Node))
  }

  /** The npm probe is consulted: npm is expected and not known. */
  predicate NpmProbeNeeded(expected: seq<(string, string)>, known: ActualMap) {
    Truthy(Lookup(expected, Npm)) && !Truthy(Get(known, Npm))
  }

  /**
   * The actual map after resolution, stated key by key: the caller's map with at most `node` and
   * `npm` overwritten, each only when it is needed; a failed probe fails the whole step.
   */
  function Filled(expected: seq<(string, string)>, known: ActualMap, nodeVersion: string,
                  npmProbe: Result<string>): (r: Result<ActualMap>)
    ensures r.Failure? <==> NpmProbeNeeded(expected, known) && npmProbe.Failure?
    ensures r.Failure? ==> r.error == npmProbe.error
    ensures r.Ok? ==> known.Keys <= r.value.Keys <= known.Keys + {Node, Npm}
    ensures r.Ok? ==> forall k :: Truthy(Get(known, k)) ==> Get(r.value, k) == Get(known, k)
    ensures r.Ok? ==> forall k :: k != Node && k != Npm ==> Get(r.value, k) == Get(known, k)
    ensures r.Ok? ==>
      Get(r.value, Node) == if NodeNeeded(expected, known) then Some(nodeVersion) else Get(known, Node)
    ensures r.Ok? ==>
      Get(r.value, Npm) ==
        if NpmProbeNeeded(expected, known) && npmProbe.Ok? then Some(npmProbe.value) else Get(known, Npm)
  {
    if NpmProbeNeeded(expected, known) && npmProbe.Failure? then Failure(npmProbe.error)
    else
      var withNode := if NodeNeeded(expected, known) then known[Node := nodeVersion] else known;
      Ok(if NpmProbeNeeded(expected, known) then withNode[Npm := npmProbe.value] else withNode)
  }

  /** When npm is not wanted or already known, the probe's result, even a failure, does not matter. */
  lemma ProbeIrrelevant(expected: seq<(string, string)>, known: ActualMap, nodeVersion: string,
                        probe1: Result<string>, probe2: Result<string>)
    requires !NpmProbeNeeded(expected, known)
    ensures Filled(expected, known, nodeVersion, probe1) == Filled(expected, known, nodeVersion, probe2)
    ensures Filled(expected, known, nodeVersion, probe1).Ok?
  {
  }

  /** Nothing expected: the caller's map comes back as it was. */
  lemma NothingExpected(known: ActualMap, nodeVersion: string, npmProbe: Result<string>)
    ensures Filled([], known, nodeVersion, npmProbe) == Ok(known)
  {
  }

  /**
   * `testEngine`'s resolution step as the source runs it: copy `known`, return early when nothing
   * is expected, set `node`, return early when npm is not wanted or already known, else probe.
   */
  method FillActual(expected: EngineMap, known: ActualMap, nodeVersion: string,
                    npmProbe: Result<string>) returns (r: Result<ActualMap>)
    ensures r == Filled(expected, known, nodeVersion, npmProbe)
  {
    var actual := known;
    if |expected| == 0 {
      return Ok(actual);
    }
    if Truthy(Lookup(expected, Node)) && !Truthy(Get(actual, Node)) {
      actual := actual[Node := nodeVersion];
    }
    if !Truthy(Lookup(expected, Npm)) || Truthy(Get(actual, Npm)) {
      return Ok(actual);
    }
    match npmProbe {
      case Failure(e) =>
        return Failure(e);
      case Ok(version) =>
        actual := actual[Npm := version];
        return Ok(actual);
    }
  }
}
