/** Comparing actual versions with expected ranges (index.js:77-141). */
module Comparator {
  import opened Wrappers
  import opened Engines

  /** `semver.satisfies(actual, range)`; the library is a parameter, `None` is an undefined actual. */
  type Satisfier = (Option<string>, string) -> bool

  /** `{expected, actual}` recorded for one engine. */
  datatype Entry = Entry(expected: string, actual: Option<string>)

  /** `satisfied` or `notSatisfied`: engine name -> entry, in insertion order. */
  type Bucket = seq<(string, Entry)>

  /** The detailed report; a bucket that was never created is `None`. */
  datatype Report = Report(allSatisfied: bool, satisfied: Option<Bucket>, notSatisfied: Option<Bucket>)

  /** Whether the actual version of the engine named in `p` satisfies its range. */
  predicate Meets(sat: Satisfier, actual: ActualMap, p: (string, string)) {
    sat(Get(actual, p.0), p.1)
  }

  /** The named entry the report files for `p`. */
  function Filed(actual: ActualMap, p: (string, string)): (string, Entry) {
    (p.0, Entry(p.1, Get(actual, p.0)))
  }

  /** Boolean mode: `Object.keys(expected).every(...)`. */
  function AllSatisfy(expected: seq<(string, string)>, actual: ActualMap, sat: Satisfier): (b: bool)
    ensures b <==> forall i :: 0 <= i < |expected| ==> Meets(sat, actual, expected[i])
  {
    if expected == [] then true
    else
      var rest := AllSatisfy(expected[1..], actual, sat);
      assert forall i :: 1 <= i < |expected| ==> expected[1..][i - 1] == expected[i];
      Meets(sat, actual, expected[0]) && rest
  }

  /** The entries that satisfy, in expected-key order. */
  function Passing(expected: seq<(string, string)>, actual: ActualMap, sat: Satisfier): (b: Bucket)
    ensures |b| <= |expected|
    ensures forall x :: x in b ==> exists p :: p in expected && Meets(sat, actual, p) && x == Filed(actual, p)
    ensures NamesDistinct(expected) ==> NamesDistinct(b)
  {
    if expected == [] then []
    else
      var init := expected[..|expected| - 1];
      var last := expected[|expected| - 1];
      var prev := Passing(init, actual, sat);
      var b := prev + if Meets(sat, actual, last) then [Filed(actual, last)] else [];
      assert forall p :: p in init ==> p in expected;
      assert last in expected;
      assert NamesDistinct(expected) ==> NamesDistinct(b) by {
        if NamesDistinct(expected) {
          forall i, j | 0 <= i < j < |b| ensures b[i].0 != b[j].0 {
            if j >= |prev| {
              assert b[i] in prev;
              var p :| p in init && Meets(sat, actual, p) && b[i] == Filed(actual, p);
              var k :| 0 <= k < |init| && init[k] == p;
              assert expected[k] == p;
            }
          }
        }
      }
      b
  }

  /** The entries that do not satisfy, in expected-key order. */
  function Failing(expected: seq<(string, string)>, actual: ActualMap, sat: Satisfier): (b: Bucket)
    ensures |b| <= |expected|
    ensures forall x :: x in b ==> exists p :: p in expected && !Meets(sat, actual, p) && x == Filed(actual, p)
    ensures NamesDistinct(expected) ==> NamesDistinct(b)
  {
    if expected == [] then []
    else
      var init := expected[..|expected| - 1];
      var last := expected[|expected| - 1];
      var prev := Failing(init, actual, sat);
      var b := prev + if !Meets(sat, actual, last) then [Filed(actual, last)] else [];
      assert forall p :: p in init ==> p in expected;
      assert last in expected;
      assert NamesDistinct(expected) ==> NamesDistinct(b) by {
        if NamesDistinct(expected) {
          forall i, j | 0 <= i < j < |b| ensures b[i].0 != b[j].0 {
            if j >= |prev| {
              assert b[i] in prev;
              var p :| p in init && !Meets(sat, actual, p) && b[i] == Filed(actual, p);
              var k :| 0 <= k < |init| && init[k] == p;
              assert expected[k] == p;
            }
          }
        }
      }
      b
  }

  /** A bucket exists only once something has been put in it. */
  function AsBucket(b: Bucket): (o: Option<Bucket>)
    ensures o.Some? <==> b != []
    ensures o.Some? ==> o.value == b
  {
    if b == [] then None else Some(b)
  }

  /** The entries a bucket holds; an absent bucket holds none. */
  function Entries(o: Option<Bucket>): Bucket {
    if o.Some? then o.value else []
  }

  /** `satisfied` holds exactly the filed entries of the expected engines that satisfy. */
  lemma {:induction false} PassingMembers(expected: seq<(string, string)>, actual: ActualMap, sat: Satisfier)
    ensures forall x :: x in Passing(expected, actual, sat) <==>
      exists p :: p in expected && Meets(sat, actual, p) && x == Filed(actual, p)
  {
    if expected != [] {
      var init := expected[..|expected| - 1];
      PassingMembers(init, actual, sat);
      assert expected == init + [expected[|expected| - 1]];
    }
  }

  /** `notSatisfied` holds exactly the filed entries of the expected engines that do not satisfy. */
  lemma {:induction false} FailingMembers(expected: seq<(string, string)>, actual: ActualMap, sat: Satisfier)
    ensures forall x :: x in Failing(expected, actual, sat) <==>
      exists p :: p in expected && !Meets(sat, actual, p) && x == Filed(actual, p)
  {
    if expected != [] {
      var init := expected[..|expected| - 1];
      FailingMembers(init, actual, sat);
      assert expected == init + [expected[|expected| - 1]];
    }
  }

  /**
   * Bucket `b` was filed, entry by entry, from the expected keys at the strictly increasing
   * positions `pos`: the bucket lists its engines in the order the expectation lists them.
   */
  predicate FiledInOrder(b: Bucket, expected: seq<(string, string)>, actual: ActualMap, pos: seq<int>) {
    && |pos| == |b|
    && (forall i :: 0 <= i < |pos| ==> 0 <= pos[i] < |expected| && b[i] == Filed(actual, expected[pos[i]]))
    && (forall i, j :: 0 <= i < j < |pos| ==> pos[i] < pos[j])
  }

  /** An ordered filing of the earlier keys stays ordered whether or not the last key is filed after it. */
  lemma FiledInOrderStep(expected: seq<(string, string)>, actual: ActualMap, prev: Bucket, pos: seq<int>)
    requires expected != []
    requires FiledInOrder(prev, expected[..|expected| - 1], actual, pos)
    ensures FiledInOrder(prev, expected, actual, pos)
    ensures FiledInOrder(prev + [Filed(actual, expected[|expected| - 1])], expected, actual, pos + [|expected| - 1])
  {
    var init := expected[..|expected| - 1];
    forall i | 0 <= i < |pos| ensures pos[i] < |init| && init[pos[i]] == expected[pos[i]] { }
  }

  /** The satisfied entries keep the order of the expected keys they were filed for. */
  lemma {:induction false} PassingInOrder(expected: seq<(string, string)>, actual: ActualMap, sat: Satisfier)
    ensures exists pos :: FiledInOrder(Passing(expected, actual, sat), expected, actual, pos)
  {
    if expected == [] {
      assert FiledInOrder(Passing(expected, actual, sat), expected, actual, []);
    } else {
      var init := expected[..|expected| - 1];
      var last := expected[|expected| - 1];
      PassingInOrder(init, actual, sat);
      var prev := Passing(init, actual, sat);
      var pos :| FiledInOrder(prev, init, actual, pos);
      FiledInOrderStep(expected, actual, prev, pos);
      if Meets(sat, actual, last) {
        assert Passing(expected, actual, sat) == prev + [Filed(actual, last)];
        assert FiledInOrder(Passing(expected, actual, sat), expected, actual, pos + [|expected| - 1]);
      } else {
        assert Passing(expected, actual, sat) == prev;
        assert FiledInOrder(Passing(expected, actual, sat), expected, actual, pos);
      }
    }
  }

  /** The unsatisfied entries keep the order of the expected keys they were filed for. */
  lemma {:induction false} FailingInOrder(expected: seq<(string, string)>, actual: ActualMap, sat: Satisfier)
    ensures exists pos :: FiledInOrder(Failing(expected, actual, sat), expected, actual, pos)
  {
    if expected == [] {
      assert FiledInOrder(Failing(expected, actual, sat), expected, actual, []);
    } else {
      var init := expected[..|expected| - 1];
      var last := expected[|expected| - 1];
      FailingInOrder(init, actual, sat);
      var prev := Failing(init, actual, sat);
      var pos :| FiledInOrder(prev, init, actual, pos);
      FiledInOrderStep(expected, actual, prev, pos);
      if Meets(sat, actual, last) {
        assert Failing(expected, actual, sat) == prev;
        assert FiledInOrder(Failing(expected, actual, sat), expected, actual, pos);
      } else {
        assert Failing(expected, actual, sat) == prev + [Filed(actual, last)];
        assert FiledInOrder(Failing(expected, actual, sat), expected, actual, pos + [|expected| - 1]);
      }
    }
  }

  /** Every expected engine is filed exactly once: the two buckets' sizes add up to the key count. */
  lemma {:induction false} BucketSizes(expected: seq<(string, string)>, actual: ActualMap, sat: Satisfier)
    ensures |Passing(expected, actual, sat)| + |Failing(expected, actual, sat)| == |expected|
  {
    if expected != [] {
      BucketSizes(expected[..|expected| - 1], actual, sat);
    }
  }

  /** With distinct expected names, no name lands in both buckets. */
  lemma Disjoint(expected: seq<(string, string)>, actual: ActualMap, sat: Satisfier)
    requires NamesDistinct(expected)
    ensures forall x, y :: x in Passing(expected, actual, sat) && y in Failing(expected, actual, sat) ==> x.0 != y.0
  {
    PassingMembers(expected, actual, sat);
    FailingMembers(expected, actual, sat);
    forall x, y | x in Passing(expected, actual, sat) && y in Failing(expected, actual, sat)
      ensures x.0 != y.0
    {
      var p :| p in expected && Meets(sat, actual, p) && x == Filed(actual, p);
      var q :| q in expected && !Meets(sat, actual, q) && y == Filed(actual, q);
      var i :| 0 <= i < |expected| && expected[i] == p;
      var j :| 0 <= j < |expected| && expected[j] == q;
      assert i != j;
    }
  }

  /** An expected engine's name appears only in the bucket its outcome selects. */
  lemma FiledOnce(expected: seq<(string, string)>, actual: ActualMap, sat: Satisfier)
    requires NamesDistinct(expected)
    ensures forall p :: p in expected && Meets(sat, actual, p) ==> !HasName(Failing(expected, actual, sat), p.0)
    ensures forall p :: p in expected && !Meets(sat, actual, p) ==> !HasName(Passing(expected, actual, sat), p.0)
  {
    var passing := Passing(expected, actual, sat);
    var failing := Failing(expected, actual, sat);
    PassingMembers(expected, actual, sat);
    FailingMembers(expected, actual, sat);
    Disjoint(expected, actual, sat);
    forall p | p in expected && Meets(sat, actual, p) ensures !HasName(failing, p.0) {
      assert Filed(actual, p) in passing;
      forall i | 0 <= i < |failing| ensures failing[i].0 != p.0 {
        assert failing[i] in failing;
      }
    }
    forall p | p in expected && !Meets(sat, actual, p) ensures !HasName(passing, p.0) {
      assert Filed(actual, p) in failing;
      forall i | 0 <= i < |passing| ensures passing[i].0 != p.0 {
        assert passing[i] in passing;
      }
    }
  }

  /** No failures exactly when every expected engine satisfies. */
  lemma {:induction false} NoFailuresIffAll(expected: seq<(string, string)>, actual: ActualMap, sat: Satisfier)
    ensures Failing(expected, actual, sat) == [] <==> AllSatisfy(expected, actual, sat)
  {
    if expected != [] {
      var init := expected[..|expected| - 1];
      NoFailuresIffAll(init, actual, sat);
      assert forall i :: 0 <= i < |init| ==> init[i] == expected[i];
    }
  }

  /** When no expected engine satisfies, nothing is filed as satisfied. */
  lemma {:induction false} NonePassing(expected: seq<(string, string)>, actual: ActualMap, sat: Satisfier)
    requires forall p :: p in expected ==> !Meets(sat, actual, p)
    ensures Passing(expected, actual, sat) == []
  {
    if expected != [] {
      var init := expected[..|expected| - 1];
      assert forall p :: p in init ==> p in expected;
      assert expected[|expected| - 1] in expected;
      NonePassing(init, actual, sat);
    }
  }

  /**
   * Detail mode. Every expected engine is filed, with its range and actual version, in `satisfied`
   * when it satisfies and in `notSatisfied` otherwise, and nothing else is filed; a bucket is present
   * only when it holds an entry; `allSatisfied` holds iff `notSatisfied` is absent, iff boolean mode
   * says true.
   */
  function DetailReport(expected: EngineMap, actual: ActualMap, sat: Satisfier): (r: Report)
    ensures forall p :: p in expected && Meets(sat, actual, p) ==>
      Filed(actual, p) in Entries(r.satisfied) && !HasName(Entries(r.notSatisfied), p.0)
    ensures forall p :: p in expected && !Meets(sat, actual, p) ==>
      Filed(actual, p) in Entries(r.notSatisfied) && !HasName(Entries(r.satisfied), p.0)
    ensures forall x :: x in Entries(r.satisfied) ==>
      exists p :: p in expected && Meets(sat, actual, p) && x == Filed(actual, p)
    ensures forall x :: x in Entries(r.notSatisfied) ==>
      exists p :: p in expected && !Meets(sat, actual, p) && x == Filed(actual, p)
    ensures |Entries(r.satisfied)| + |Entries(r.notSatisfied)| == |expected|
    ensures r.satisfied.Some? ==> r.satisfied.value != []
    ensures r.notSatisfied.Some? ==> r.notSatisfied.value != []
    ensures r.allSatisfied <==> r.notSatisfied.None?
    ensures r.allSatisfied == AllSatisfy(expected, actual, sat)
  {
    var passing := Passing(expected, actual, sat);
    var failing := Failing(expected, actual, sat);
    PassingMembers(expected, actual, sat);
    FailingMembers(expected, actual, sat);
    BucketSizes(expected, actual, sat);
    NoFailuresIffAll(expected, actual, sat);
    FiledOnce(expected, actual, sat);
    Report(failing == [], AsBucket(passing), AsBucket(failing))
  }

  /** Keys present only in `actual` do not change either mode's answer. */
  lemma {:induction false} OnlyExpectedKeysMatter(expected: seq<(string, string)>, a1: ActualMap, a2: ActualMap,
                                                  sat: Satisfier)
    requires forall p :: p in expected ==> Get(a1, p.0) == Get(a2, p.0)
    ensures Passing(expected, a1, sat) == Passing(expected, a2, sat)
    ensures Failing(expected, a1, sat) == Failing(expected, a2, sat)
    ensures AllSatisfy(expected, a1, sat) == AllSatisfy(expected, a2, sat)
  {
    if expected != [] {
      var init := expected[..|expected| - 1];
      assert forall p :: p in init ==> p in expected;
      assert expected[|expected| - 1] in expected;
      OnlyExpectedKeysMatter(init, a1, a2, sat);
      assert forall i :: 0 <= i < |expected| ==> expected[i] in expected;
    }
  }

  /** When no expected engine satisfies, the report has no `satisfied` bucket (test.js:69-74). */
  lemma NoneSatisfyNoSatisfiedBucket(expected: EngineMap, actual: ActualMap, sat: Satisfier)
    requires forall p :: p in expected ==> !Meets(sat, actual, p)
    ensures DetailReport(expected, actual, sat).satisfied == None
    ensures expected != [] ==> !DetailReport(expected, actual, sat).allSatisfied
  {
    NonePassing(expected, actual, sat);
    BucketSizes(expected, actual, sat);
  }

  /** One expected engine that does not satisfy: the report holds just that entry, as a failure. */
  lemma SingleFailure(name: string, range: string, actual: ActualMap, sat: Satisfier)
    requires !sat(Get(actual, name), range)
    ensures DetailReport([(name, range)], actual, sat) ==
      Report(false, None, Some([(name, Entry(range, Get(actual, name)))]))
  {
    var m := [(name, range)];
    assert m[..0] == [];
    assert Passing(m, actual, sat) == [];
    assert Failing(m, actual, sat) == [(name, Entry(range, Get(actual, name)))];
  }

  /**
   * Detail mode as the source runs it: one pass over the expected keys that creates a bucket the
   * first time it needs one, appends to it, and clears `allSatisfied` on the first failure.
   */
  method CompareDetail(expected: EngineMap, actual: ActualMap, sat: Satisfier) returns (result: Report)
    ensures result == DetailReport(expected, actual, sat)
  {
    var satisfied: Option<Bucket> := None;
    var notSatisfied: Option<Bucket> := None;
    var allSatisfied := true;
    for i := 0 to |expected|
      invariant satisfied == AsBucket(Passing(expected[..i], actual, sat))
      invariant notSatisfied == AsBucket(Failing(expected[..i], actual, sat))
      invariant allSatisfied == (Failing(expected[..i], actual, sat) == [])
    {
      var (name, expectedVersion) := expected[i];
      var actualVersion := Get(actual, name);
      var ok := sat(actualVersion, expectedVersion);
      var data := Entry(expectedVersion, actualVersion);
      assert expected[..i + 1][..i] == expected[..i];
      assert expected[..i + 1][i] == expected[i];
      if ok {
        assert Passing(expected[..i + 1], actual, sat) == Passing(expected[..i], actual, sat) + [(name, data)];
        assert Failing(expected[..i + 1], actual, sat) == Failing(expected[..i], actual, sat);
      } else {
        assert Passing(expected[..i + 1], actual, sat) == Passing(expected[..i], actual, sat);
        assert Failing(expected[..i + 1], actual, sat) == Failing(expected[..i], actual, sat) + [(name, data)];
      }
      if ok {
        if satisfied.None? {
          satisfied := Some([]);
        }
        satisfied := Some(satisfied.value + [(name, data)]);
      } else {
        if notSatisfied.None? {
          notSatisfied := Some([]);
        }
        notSatisfied := Some(notSatisfied.value + [(name, data)]);
        allSatisfied := false;
      }
    }
    assert expected[..|expected|] == expected;
    result := Report(allSatisfied, satisfied, notSatisfied);
  }
}
