# test-engine, modelled in Dafny

A model of `testEngine`, the engine-compatibility checker of the `test-engine` package, and of its `testEngine.assert` variant. The checker decides whether the running environment satisfies the `engines` ranges a package declares. It works in four stages:

1. **Where the expectations come from.** The `wanted` argument is read by its shape. A string is a directory from which to search upward for `package.json`. A falsy value means the current working directory. An object whose `engines` field is a truthy object supplies that field. Any other object is itself the engines map, shallow-copied. (`Expectation.Select`)
2. **Filling in the actual versions.** The caller's `known` map is copied. `node` is set to the running interpreter's version when it is expected and not known. `npm` is set from an `npm --version` probe when it is expected and not known. Nothing else is added. When nothing is expected, neither is looked up. A failed probe fails the whole call. (`Actual`)
3. **Comparison.** Boolean mode is the conjunction over the expected keys of `semver.satisfies(actual[k], expected[k])`. Detail mode files each expected key as `{expected, actual}` into a `satisfied` or a `notSatisfied` bucket. A bucket is created only when something goes into it. The report also carries an `allSatisfied` flag. (`Comparator`)
4. **Assertion.** `testEngine.assert` forces detail mode. It returns the report when everything is satisfied. Otherwise it fails with the message `Your engines are not compatible:\n` followed by one line `  <name> <actual> (expected <range>)\n` per unsatisfied engine, together with the full report. (`Assertion`)

Representation:
- An expected engines object is a sequence of `(name, range)` pairs with distinct names (`Engines.EngineMap`). It keeps `Object.keys` order, which fixes the order of the message lines.
- The actual map is a Dafny `map<string, string>`. A missing key is JavaScript's `undefined`.
- A version value is truthy when present and non-empty (`Engines.Truthy`).
- Maps are values in Dafny, so the caller's `known` object can never be changed by the call. The copy made at index.js:47 is therefore implicit.

The outside world is one `TestEngine.Env` value:
- the working directory;
- `process.versions.node`;
- the manifest lookup, as a function from a search root to an engines map or a failure;
- the result `binVersion('npm')` would give;
- `semver.satisfies`, as a function from an optional actual version and a range to a boolean.

The imperative parts of the source remain methods:
- `Actual.FillActual`: the in-place filling of `actual`;
- `Comparator.CompareDetail`: the `forEach` that creates buckets on demand and clears a flag;
- `Assertion.BuildMessage`: the `+=` loop that builds the message;
- `TestEngine.Check` and `Assertion.Assert`: the promise chains, flattened.

Each method is proved equal to a specification function (`Actual.Filled`, `Comparator.DetailReport`, `Assertion.Message`, `TestEngine.Run`, `Assertion.Asserted`). The properties are proved about those functions.

Two details follow index.js exactly:
- The message line is `  <name> <actual> (expected <range>)`, with an undefined actual version rendered as `undefined` (index.js:163).
- An empty-string `wanted` is a search path, not a falsy value, because the `typeof` test comes first (index.js:21-30).

## Model

| member | source | states |
|---|---|---|
| `Expectation.Select` | index.js:17-44 | a string `wanted` searches from that path; a falsy one searches from the working directory; an object with a truthy-object `engines` field yields that field; any other object yields itself |
| `Expectation.CwdOnlyForNothing` | index.js:28-30 | the working directory matters only when `wanted` is falsy |
| `Engines.Lookup` | index.js:109-110 | `expected[name]` is defined exactly when the name is a key, and then is that key's range |
| `Engines.Truthy` | index.js:59 | a version value is truthy when it is present and not the empty string |
| `Actual.NodeNeeded` | index.js:59 | `node` is filled when `expected.node` is truthy and `actual.node` is not |
| `Actual.NpmProbeNeeded` | index.js:65 | the probe runs unless `expected.npm` is falsy or `actual.npm` is truthy |
| `Actual.Filled` | index.js:47-75 | the caller's truthy values are kept; keys other than `node`/`npm` are unchanged; `node` is the running version exactly when expected and not known; `npm` is the probe's version exactly when expected and not known; the call fails exactly when the needed probe fails, with the probe's error |
| `Actual.ProbeIrrelevant` | index.js:63-67 | when npm is not expected or already known, the probe's result, even a failure, does not affect the outcome |
| `Actual.NothingExpected` | index.js:53-57 | with no expectations, the actual map is the caller's map unchanged |
| `Actual.FillActual` | index.js:47-75 | the source's early-return mutation sequence computes `Filled` |
| `Comparator.AllSatisfy` | index.js:82-86 | boolean mode is true iff every expected key's actual version satisfies its range |
| `Comparator.Passing` | index.js:108-124 | the satisfied entries: at most one per expected key, each the filed entry of an expected key that satisfies, with distinct names when the keys are distinct |
| `Comparator.Failing` | index.js:108-135 | the unsatisfied entries: at most one per expected key, each the filed entry of an expected key that fails, with distinct names when the keys are distinct |
| `Comparator.PassingInOrder` | index.js:108-124 | the satisfied bucket is filed from expected keys at strictly increasing positions, entry `i` from position `pos[i]`, so it lists engines in the order the expectation lists them |
| `Comparator.FailingInOrder` | index.js:108-135 | the unsatisfied bucket is filed from expected keys at strictly increasing positions, entry `i` from position `pos[i]`, so it lists engines in the order the expectation lists them |
| `Comparator.PassingMembers` | index.js:108-124 | the satisfied bucket holds exactly `{expected, actual}` for each expected key that satisfies |
| `Comparator.FailingMembers` | index.js:108-135 | the unsatisfied bucket holds exactly `{expected, actual}` for each expected key that does not satisfy |
| `Comparator.BucketSizes` | index.js:108-136 | the two buckets together hold as many entries as there are expected keys |
| `Comparator.Disjoint` | index.js:119-135 | no engine name is in both buckets |
| `Comparator.FiledOnce` | index.js:119-135 | an expected engine's name appears only in the bucket its outcome selects |
| `Comparator.NoFailuresIffAll` | index.js:82-138 | there are no failures iff boolean mode says true |
| `Comparator.NonePassing` | index.js:119-124 | when no key satisfies, nothing is filed as satisfied |
| `Comparator.DetailReport` | index.js:106-140 | each expected key is in exactly one bucket, with its range and actual version; no other entries; buckets are present only when non-empty; `allSatisfied` iff `notSatisfied` is absent iff boolean mode says true |
| `Comparator.OnlyExpectedKeysMatter` | index.js:83-113 | keys present only in `actual` affect neither mode |
| `Comparator.NoneSatisfyNoSatisfiedBucket` | index.js:119-138 | when every key fails, the report has no `satisfied` bucket, and for a non-empty expectation `allSatisfied` is false |
| `Comparator.SingleFailure` | index.js:125-138 | a single failing key gives `{allSatisfied: false, notSatisfied: {name: ...}}` |
| `Comparator.CompareDetail` | index.js:106-140 | the `forEach` with on-demand buckets and the flag computes `DetailReport` |
| `TestEngine.Expected` | index.js:21-45 | a string `wanted` gives the manifest lookup from that path; a falsy one the lookup from the working directory; an object its truthy-object `engines` field, else itself |
| `TestEngine.Run` | index.js:12-142 | the call fails exactly when the manifest lookup fails or a needed npm probe fails, passing the error on unchanged; otherwise the answer's shape follows `detail`, and a detail report's buckets and flag are consistent |
| `TestEngine.ModesAgree` | index.js:82-138 | boolean mode and detail mode fail alike, or the boolean equals the report's `allSatisfied` |
| `TestEngine.EmptyExpectation` | index.js:55-57 | nothing expected: boolean mode is true and detail mode is exactly `{allSatisfied: true}`, whatever the probe would do |
| `TestEngine.KnownSkipsResolution` | index.js:59-67 | when the caller supplies `node` and `npm`, the running version and the probe do not matter |
| `TestEngine.CustomCwd` | test.js:40-57 | a search root whose manifest has no engines gives true, or `{allSatisfied: true}` |
| `TestEngine.Check` | index.js:12-142 | the source's sequence (select, look up, fill, compare) computes `Run` |
| `Assertion.Message` | index.js:159-164 | the message starts with the header `Your engines are not compatible:` and a newline, and is only the header when there are no entries |
| `Assertion.JoinAppend` | index.js:161-164 | the lines rendered for two buckets placed end to end are the first bucket's lines followed by the second's |
| `Assertion.JoinOne` | index.js:161-164 | one entry renders as its own line only |
| `Assertion.MessageLayout` | index.js:159-164 | the message is the header and then each entry's line, in bucket order |
| `Assertion.Show` | index.js:163 | a template literal shows a defined version as itself and an undefined one as `undefined` |
| `Assertion.Line` | index.js:163 | the line `  <name> <actual> (expected <range>)` and a newline |
| `Assertion.SingleLine` | index.js:159-164 | a one-entry message is the header followed by that entry's line |
| `Assertion.OldNodeLine` | index.js:163 | the line for node 0.10.0 reads `  node 0.10.0 (expected <range>)` |
| `Assertion.Asserted` | index.js:148-170 | `assert` runs in detail mode; it passes resolution failures through, returns the report unchanged when everything is satisfied, and otherwise gives the message built from a non-empty `notSatisfied`, with the full report |
| `Assertion.DetailForced` | index.js:149-151 | the caller's `detail` has no effect on `assert` |
| `Assertion.PassReturnsReport` | index.js:155-157 | on success `assert` returns the detail-mode report |
| `Assertion.OldNodeReport` | test.js:68-74 | detail mode for `node` known as 0.10.0 against an unmet manifest range gives exactly `{allSatisfied: false, notSatisfied: {node: {expected, actual: '0.10.0'}}}` |
| `Assertion.OldNodeRejected` | test.js:68-74 | `node` known as 0.10.0 against an unmet manifest range: an incompatibility whose report has `allSatisfied` false and no `satisfied` bucket, with the expected one-line message |
| `Assertion.BuildMessage` | index.js:159-164 | the `+=` loop builds `Message` |
| `Assertion.Assert` | index.js:148-170 | the source's sequence computes `Asserted` |

## Left out

- `pkgConf` (index.js:35), the upward file-system search for `package.json`: it is the `manifest` field of `Env`, a function from search root to engines map or failure.
- `binVersion('npm')` (index.js:71), a subprocess: it is the `npmProbe` field of `Env`, the version it would give or its failure.
- `process.cwd()` and `process.versions.node` (index.js:29, 60): they are fields of `Env`.
- `semver.satisfies` (index.js:84, 111): it is a parameter. The range grammar is not modelled, and neither is what the library does with an undefined version.
- Promises and asynchrony: the chain is modelled as straight-line calls.
- `RangeError` and the `err.engine` property (index.js:166-167): they become the `Incompatible(message, report)` outcome.
- Own-property order of the report object: not modelled. The order of bucket entries is modelled.
- `testEngine.detail`, called by test.js:14 and test.js:48: it is not defined in index.js. Detail mode is `testEngine` with `detail` set.
- Values that are not strings: engines objects, `known` and `wanted` can hold any JavaScript value. The model allows only strings as range and version values. A truthy non-object `wanted` such as a number is `Obj(None, [])`, the empty object that `Object.assign` yields for it.
- Options other than `detail`: `Options` has only the one field, since the source reads nothing else.
