/** `testEngine.assert` (index.js:148-170): detail mode, and an error when something is incompatible. */
module Assertion {
  import opened Wrappers
  import opened Engines
  import opened Expectation
  import opened Comparator
  import opened TestEngine

  /** The call succeeded, found an incompatibility, or could not resolve the versions. */
  datatype AssertOutcome =
    | Compatible(report: Report)
    | Incompatible(message: string, report: Report)
    | Unresolved(error: string)

  const Header := "Your engines are not compatible:\n"

  /** A template literal renders an undefined actual version as `undefined`. */
  function Show(v: Option<string>): string {
    if v.Some? then v.value else "undefined"
  }

  /** The message line for one unsatisfied engine. */
  function Line(name: string, e: Entry): string {
    "  " + name + " " + Show(e.actual) + " (expected " + e.expected + ")\n"
  }

  /** One rendered line per entry of the bucket, in its order, joined. */
  function Join(b: Bucket, line: (string, Entry) -> string): string {
    if b == [] then "" else Join(b[..|b| - 1], line) + line(b[|b| - 1].0, b[|b| - 1].1)
  }

  /** The error message for the given `notSatisfied` bucket. */
  function Message(b: Bucket): (r: string)
    ensures |Header| <= |r| && r[..|Header|] == Header
    ensures b == [] ==> r == Header
  {
    Header + Join(b, Line)
  }

  lemma {:induction false} JoinAppend(b1: Bucket, b2: Bucket, line: (string, Entry) -> string)
    ensures Join(b1 + b2, line) == Join(b1, line) + Join(b2, line)
  {
    if b2 == [] {
      assert b1 + b2 == b1;
    } else {
      var b := b1 + b2;
      var init := b2[..|b2| - 1];
      assert b[..|b| - 1] == b1 + init;
      assert b[|b| - 1] == b2[|b2| - 1];
      JoinAppend(b1, init, line);
    }
  }

  lemma JoinOne(name: string, e: Entry, line: (string, Entry) -> string)
    ensures Join([(name, e)], line) == line(name, e)
  {
    assert [(name, e)][..0] == [];
  }

  /**
   * The message is the header followed by one line per entry in bucket order: the i-th entry's line
   * comes right after the lines of the entries before it and before those of the entries after it.
   */
  lemma MessageLayout(b: Bucket, i: nat)
    requires i < |b|
    ensures Message(b) == Header + ((Join(b[..i], Line) + Line(b[i].0, b[i].1)) + Join(b[i + 1..], Line))
  {
    assert b == b[..i] + [b[i]] + b[i + 1..];
    JoinAppend(b[..i] + [b[i]], b[i + 1..], Line);
    JoinAppend(b[..i], [b[i]], Line);
    JoinOne(b[i].0, b[i].1, Line);
  }

  /** The message a bucket of one entry gives. */
  lemma SingleLine(name: string, e: Entry)
    ensures Message([(name, e)]) == Header + Line(name, e)
  {
    JoinOne(name, e, Line);
  }

  /**
   * What `assert` settles on: the detail-mode run's failure unchanged; its report when everything
   * is satisfied; else the message built from `notSatisfied` together with the full report.
   */
  function Asserted(wanted: Wanted, known: ActualMap, options: Options, env: Env): (out: AssertOutcome)
    ensures var run := Run(wanted, known, options.(detail := true), env);
            && (out.Unresolved? <==> run.Failure?)
            && (out.Unresolved? ==> out.error == run.error)
            && (!out.Unresolved? ==> run == Ok(Detailed(out.report)))
            && (out.Compatible? <==> run.Ok? && run.value.report.allSatisfied)
            && (out.Incompatible? ==> out.report.notSatisfied.Some? && out.report.notSatisfied.value != [] &&
                                      out.message == Message(out.report.notSatisfied.value))
  {
    match Run(wanted, known, options.(detail := true), env)
    case Failure(e) => Unresolved(e)
    case Ok(answer) =>
      var report := answer.report;
      if report.allSatisfied then Compatible(report)
      else Incompatible(Message(report.notSatisfied.value), report)
  }

  /** The caller's `detail` has no effect: the override is merged last. */
  lemma DetailForced(wanted: Wanted, known: ActualMap, env: Env)
    ensures Asserted(wanted, known, Options(false), env) == Asserted(wanted, known, Options(true), env)
  {
  }

  /** On success `assert` returns the same report detail mode gives. */
  lemma PassReturnsReport(wanted: Wanted, known: ActualMap, options: Options, env: Env)
    requires Run(wanted, known, Options(true), env).Ok?
    requires Run(wanted, known, Options(true), env).value.report.allSatisfied
    ensures Asserted(wanted, known, options, env) == Compatible(Run(wanted, known, Options(true), env).value.report)
  {
  }

  /**
   * An old interpreter against a manifest whose single `node` range it does not satisfy
   * (test.js:68-74): an incompatibility whose report is not all satisfied, has no `satisfied`
   * bucket, and whose message names the version and the range.
   */
  lemma OldNodeRejected(env: Env, range: string)
    requires env.manifest(env.cwd) == Ok([(Node, range)])
    requires !env.satisfies(Some("0.10.0"), range)
    ensures var out := Asserted(Nothing, map[Node := "0.10.0"], Options(false), env);
            && out.Incompatible?
            && !out.report.allSatisfied
            && out.report.satisfied == None
            && out.message == Header + ("  node 0.10.0 (expected " + range + ")\n")
  {
    var entry := Entry(range, Some("0.10.0"));
    OldNodeReport(env, range);
    SingleLine(Node, entry);
    OldNodeLine(range);
  }

  /** The detail-mode run of that scenario: one unsatisfied `node` entry and nothing else. */
  lemma OldNodeReport(env: Env, range: string)
    requires env.manifest(env.cwd) == Ok([(Node, range)])
    requires !env.satisfies(Some("0.10.0"), range)
    ensures Run(Nothing, map[Node := "0.10.0"], Options(true), env) ==
      Ok(Detailed(Report(false, None, Some([(Node, Entry(range, Some("0.10.0")))]))))
  {
    var known := map[Node := "0.10.0"];
    var expected: EngineMap := [(Node, range)];
    assert Expected(Nothing, env) == Ok(expected);
    assert Lookup(expected, Npm) == None;
    assert Actual.Filled(expected, known, env.nodeVersion, env.npmProbe) == Ok(known);
    SingleFailure(Node, range, known, env.satisfies);
  }

  /** The line for `node` at 0.10.0 against `range`. */
  lemma OldNodeLine(range: string)
    ensures Line(Node, Entry(range, Some("0.10.0"))) == "  node 0.10.0 (expected " + range + ")\n"
  {
  }

  /** The message as the source builds it: start from the header and append one line per entry. */
  method BuildMessage(notSatisfied: Bucket) returns (errMessage: string)
    ensures errMessage == Message(notSatisfied)
  {
    errMessage := Header;
    for i := 0 to |notSatisfied|
      invariant errMessage == Header + Join(notSatisfied[..i], Line)
    {
      var (name, data) := notSatisfied[i];
      assert notSatisfied[..i + 1][..i] == notSatisfied[..i];
      var done := Join(notSatisfied[..i], Line);
      assert Join(notSatisfied[..i + 1], Line) == done + Line(name, data);
      assert (Header + done) + Line(name, data) == Header + (done + Line(name, data));
      errMessage := errMessage + Line(name, data);
    }
    assert notSatisfied[..|notSatisfied|] == notSatisfied;
  }

  /** `testEngine.assert` as the source runs it. */
  method Assert(wanted: Wanted, known: ActualMap, options: Options, env: Env) returns (out: AssertOutcome)
    ensures out == Asserted(wanted, known, options, env)
  {
    var config := options.(detail := true);
    var r := Check(wanted, known, config, env);
    if r.Failure? {
      return Unresolved(r.error);
    }
    var engine := r.value.report;
    if engine.allSatisfied {
      return Compatible(engine);
    }
    var errMessage := BuildMessage(engine.notSatisfied.value);
    return Incompatible(errMessage, engine);
  }
}
