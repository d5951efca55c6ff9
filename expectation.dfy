/** Choosing where the expected engine ranges come from (index.js:17-44). */
module Expectation {
  import opened Wrappers
  import opened Engines

  /**
   * The shapes `wanted` can take. `Path` is any string, the empty one included; `Nothing` is any
   * other falsy value; `Obj` is any other value, given by its own `engines` field when that field
   * is a truthy object (`engines`) and by its own key/value pairs (`self`).
   */
  datatype Wanted =
    | Path(path: string)
    | Nothing
    | Obj(engines: Option<EngineMap>, self: EngineMap)

  /** Either search upward from a directory for a manifest, or use a map already in hand. */
  datatype Source = Search(root: string) | Given(expected: EngineMap)

  /** The search root or the copied engines object that `testEngine` starts from. */
  function Select(wanted: Wanted, cwd: string): (s: Source)
    ensures s.Search? <==> !wanted.Obj?
    ensures wanted.Path? ==> s.root == wanted.path
    ensures wanted.Nothing? ==> s.root == cwd
    ensures wanted.Obj? && wanted.engines.Some? ==> s.expected == wanted.engines.value
    ensures wanted.Obj? && wanted.engines.None? ==> s.expected == wanted.self
  {
    match wanted
    case Path(p) => Search(p)
    case Nothing => Search(cwd)
    case Obj(engines, self) => Given(if engines.Some? then engines.value else self)
  }

  /** The working directory is consulted only when `wanted` is falsy. */
  lemma CwdOnlyForNothing(wanted: Wanted, cwd1: string, cwd2: string)
    ensures Select(wanted, cwd1) != Select(wanted, cwd2) ==> wanted.Nothing?
  {
  }
}
