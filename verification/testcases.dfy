/** The list of test cases a room shares (`TestCases.jsx`): each case has
    an id, an input fed to the program and the output expected from it.
    The list is replaced as a whole on every edit. */
module TestCaseList {
  import opened Seqs

  datatype TestCase = TestCase(id: int, input: string, expectedOutput: string)

  /** The two fields the panel edits. */
  datatype Field = Input | ExpectedOutput

  /** `{ ...tc, [field]: value }` */
  function WithField(tc: TestCase, field: Field, value: string): (r: TestCase)
    ensures r.id == tc.id
    ensures field == Input ==> r.input == value && r.expectedOutput == tc.expectedOutput
    ensures field == ExpectedOutput ==> r.expectedOutput == value && r.input == tc.input
  {
    match field
    case Input => tc.(input := value)
    case ExpectedOutput => tc.(expectedOutput := value)
  }

  /** `addTestCase`: a blank case, its id the current time `now`, at the end. */
  function AddTestCase(cases: seq<TestCase>, now: int): (r: seq<TestCase>)
    ensures |r| == |cases| + 1
    ensures r[..|cases|] == cases
    ensures r[|cases|] == TestCase(now, "", "")
  {
    cases + [TestCase(now, "", "")]
  }

  /** `updateTestCase(id, field, value)`: the `map` over the list. */
  function UpdateTestCase(cases: seq<TestCase>, id: int, field: Field, value: string): (r: seq<TestCase>)
    ensures |r| == |cases|
    ensures forall i :: 0 <= i < |cases| && cases[i].id == id ==> r[i] == WithField(cases[i], field, value)
    ensures forall i :: 0 <= i < |cases| && cases[i].id != id ==> r[i] == cases[i]
  {
    if |cases| == 0 then []
    else
      var rest := UpdateTestCase(cases[1..], id, field, value);
      [if cases[0].id == id then WithField(cases[0], field, value) else cases[0]] + rest
  }

  /** An edit of an id no case has changes nothing. */
  lemma {:induction false} UpdateAbsentId(cases: seq<TestCase>, id: int, field: Field, value: string)
    requires forall tc :: tc in cases ==> tc.id != id
    ensures UpdateTestCase(cases, id, field, value) == cases
  {
    var r := UpdateTestCase(cases, id, field, value);
    forall i | 0 <= i < |cases| ensures r[i] == cases[i] {
      assert cases[i] in cases;
    }
  }

  predicate HasOtherId(id: int, tc: TestCase) {
    tc.id != id
  }

  /** `deleteTestCase(id)`: the `filter` over the list. */
  function DeleteTestCase(cases: seq<TestCase>, id: int): (r: seq<TestCase>)
    ensures forall tc :: tc in r <==> tc in cases && tc.id != id
  {
    Filter(cases, tc => HasOtherId(id, tc))
  }

  /** Deleting keeps the other cases in their order, drops every case with
      that id, and leaves a list without that id untouched. */
  lemma DeleteSpec(cases: seq<TestCase>, id: int)
    ensures SubsequenceOf(DeleteTestCase(cases, id), cases)
    ensures |DeleteTestCase(cases, id)| == |cases| - Count(cases, tc => !HasOtherId(id, tc))
    ensures (forall tc :: tc in cases ==> tc.id != id) ==> DeleteTestCase(cases, id) == cases
  {
    FilterSubsequence(cases, tc => HasOtherId(id, tc));
    FilterCount(cases, tc => HasOtherId(id, tc), tc => !HasOtherId(id, tc));
    if forall tc :: tc in cases ==> tc.id != id {
      FilterAll(cases, tc => HasOtherId(id, tc));
    }
  }
}
