/** `testEngine` as a whole (index.js:12-142), with its I/O made into an environment value. */
module TestEngine {
  import opened Wrappers
  import opened Engines
  import opened Expectation
  import opened Actual
  import opened Comparator

  /**
   * What the engine reads from the outside world: the working directory, the running interpreter's
   * version, the manifest locator (the engines field of the nearest manifest upward from a
   * directory, or a failure), the result `npm --version` would give, and the range satisfier.
   */
  datatype Env = Env(
    cwd: string,
    nodeVersion: string,
    manifest: string -> Result<EngineMap>,
    npmProbe: Result<string>,
    satisfies: Satisfier)

  /** The recognised option; an absent `detail` is `false`. */
  datatype Options = Options(detail: bool)

  /** Boolean mode answers `Verdict`, detail mode `Detailed`. */
  datatype Answer = Verdict(ok: bool) | Detailed(report: Report)

  /** The expected map: read from the manifest when searching, else the given one. */
  function Expected(wanted: Wanted, env: Env): (r: Result<EngineMap>)
    ensures wanted.Path? ==> r == env.manifest(wanted.path)
    ensures wanted.Nothing? ==> r == env.manifest(env.cwd)
    ensures wanted.Obj? ==> r == Ok(if wanted.engines.Some? then wanted.engines.value else wanted.self)
  {
    match Select(wanted, env.cwd)
    case Search(root) => env.manifest(root)
    case Given(m) => Ok(m)
  }

  /**
   * The whole call. A failed manifest lookup or npm probe is passed back unchanged; otherwise the
   * answer compares the expected map with the filled actual map, in the mode `detail` selects.
   */
  function Run(wanted: Wanted, known: ActualMap, options: Options, env: Env): (r: Result<Answer>)
    ensures r.Failure? <==>
      Expected(wanted, env).Failure? ||
      (NpmProbeNeeded(Expected(wanted, env).value, known) && env.npmProbe.Failure?)
    ensures r.Failure? && Expected(wanted, env).Failure? ==> r.error == Expected(wanted, env).error
    ensures r.Failure? && Expected(wanted, env).Ok? ==> r.error == env.npmProbe.error
    ensures r.Ok? ==> (r.value.Detailed? <==> options.detail)
    ensures r.Ok? && r.value.Detailed? ==> (r.value.report.allSatisfied <==> r.value.report.notSatisfied.None?)
    ensures r.Ok? && r.value.Detailed? && r.value.report.notSatisfied.Some? ==> r.value.report.notSatisfied.value != []
  {
    match Expected(wanted, env)
    case Failure(e) => Failure(e)
    case Ok(expected) =>
      match Filled(expected, known, env.nodeVersion, env.npmProbe)
      case Failure(e) => Failure(e)
      case Ok(actual) =>
        Ok(if options.detail then Detailed(DetailReport(expected, actual, env.satisfies))
           else Verdict(AllSatisfy(expected, actual, env.satisfies)))
  }

  /** Boolean mode and detail mode agree: the boolean is the report's `allSatisfied`. */
  lemma ModesAgree(wanted: Wanted, known: ActualMap, env: Env)
    ensures var b := Run(wanted, known, Options(false), env);
            var d := Run(wanted, known, Options(true), env);
            (b.Failure? && d.Failure? && b.error == d.error) ||
            (b.Ok? && d.Ok? && b.value.ok == d.value.report.allSatisfied)
  {
  }

  /**
   * Nothing expected: no resolution takes place, so even a failing probe does not matter; boolean
   * mode says true and detail mode gives `{allSatisfied: true}` with no buckets.
   */
  lemma EmptyExpectation(wanted: Wanted, known: ActualMap, options: Options, env: Env)
    requires Expected(wanted, env) == Ok([])
    ensures Run(wanted, known, options, env) ==
      Ok(if options.detail then Detailed(Report(true, None, None)) else Verdict(true))
  {
  }

  /**
   * When the caller supplies both `node` and `npm`, neither the interpreter's version nor the probe
   * is used: the answer is the same in any environment that agrees on the rest.
   */
  lemma KnownSkipsResolution(wanted: Wanted, known: ActualMap, options: Options, env: Env,
                             nodeVersion: string, npmProbe: Result<string>)
    requires Truthy(Get(known, Node)) && Truthy(Get(known, Npm))
    ensures Run(wanted, known, options, env) ==
      Run(wanted, known, options, env.(nodeVersion := nodeVersion, npmProbe := npmProbe))
  {
  }

  /**
   * A manifest under the search root with no engines, and both versions known (test.js:40-57):
   * true in boolean mode, exactly `{allSatisfied: true}` in detail mode.
   */
  lemma CustomCwd(dir: string, env: Env, options: Options)
    requires env.manifest(dir) == Ok([])
    ensures var known := map[Node := "0.0.1", Npm := "0.0.1"];
            Run(Path(dir), known, options, env) ==
              Ok(if options.detail then Detailed(Report(true, None, None)) else Verdict(true))
  {
  }

  /**
   * `testEngine` as the source runs it: select the source, look the manifest up when searching,
   * fill in the actual versions, then answer in boolean or detail mode.
   */
  method Check(wanted: Wanted, known: ActualMap, options: Options, env: Env) returns (r: Result<Answer>)
    ensures r == Run(wanted, known, options, env)
  {
    var config := options;
    var expected: EngineMap;
    match Select(wanted, env.cwd) {
      case Search(root) =>
        var found := env.manifest(root);
        if found.Failure? {
          return Failure(found.error);
        }
        expected := found.value;
      case Given(m) =>
        expected := m;
    }
    var filled := FillActual(expected, known, env.nodeVersion, env.npmProbe);
    if filled.Failure? {
      return Failure(filled.error);
    }
    var actual := filled.value;
    if !config.detail {
      return Ok(Verdict(AllSatisfy(expected, actual, env.satisfies)));
    }
    var report := CompareDetail(expected, actual, env.satisfies);
    return Ok(Detailed(report));
  }
}
