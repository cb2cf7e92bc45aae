/**
 * The two batch loops of DFABatch.py's main: each test line is simulated
 * (the marker "ε" standing for the empty input) and the line and its verdict
 * are appended, in input order, to the columns of a result table.
 */
module Batch {
  import opened Automaton
  import opened Simulation

  /** The test-list marker for the empty input. */
  const Epsilon: string := "ε"

  /** The string that is simulated for a test line. */
  function Simulated(test: string): (r: string)
    ensures r == [] <==> (test == Epsilon || test == [])
    ensures r != [] ==> r == test
  {
    if test == Epsilon then "" else test
  }

  /** The "Is Accepted" column for the positive list, one entry per test. */
  function AcceptanceColumn(tests: seq<string>, nodes: seq<Node>, finalStates: set<int>, alphabet: set<char>)
    : (r: seq<bool>)
    ensures |r| == |tests|
    decreases |tests|
  {
    if |tests| == 0 then []
    else AcceptanceColumn(tests[..|tests| - 1], nodes, finalStates, alphabet)
         + [Accepts(Simulated(tests[|tests| - 1]), nodes, finalStates, alphabet)]
  }

  /** The "Is Rejected" column for the negative list, one entry per test. */
  function RejectionColumn(tests: seq<string>, nodes: seq<Node>, finalStates: set<int>, alphabet: set<char>)
    : (r: seq<bool>)
    ensures |r| == |tests|
    decreases |tests|
  {
    if |tests| == 0 then []
    else RejectionColumn(tests[..|tests| - 1], nodes, finalStates, alphabet)
         + [!Accepts(Simulated(tests[|tests| - 1]), nodes, finalStates, alphabet)]
  }

  /** The positive loop: records every test line and whether it is accepted. */
  method ProcessPositiveTests(tests: seq<string>, nodes: seq<Node>, finalStates: set<int>, alphabet: set<char>)
    returns (strings: seq<string>, isAccepted: seq<bool>)
    ensures strings == tests
    ensures isAccepted == AcceptanceColumn(tests, nodes, finalStates, alphabet)
    ensures forall k :: 0 <= k < |tests| ==>
              isAccepted[k] == Accepts(Simulated(tests[k]), nodes, finalStates, alphabet)
  {
    strings, isAccepted := [], [];
    for i := 0 to |tests|
      invariant strings == tests[..i]
      invariant isAccepted == AcceptanceColumn(tests[..i], nodes, finalStates, alphabet)
    {
      assert tests[..i + 1][..i] == tests[..i];
      var test := tests[i];
      var testString := Simulated(test);
      var accepted := TestStringOnDfa(testString, nodes, finalStates, alphabet);
      strings := strings + [test];
      isAccepted := isAccepted + [accepted];
    }
    assert tests[..|tests|] == tests;
    forall k | 0 <= k < |tests|
      ensures isAccepted[k] == Accepts(Simulated(tests[k]), nodes, finalStates, alphabet)
    {
      AcceptanceColumnAt(tests, k, nodes, finalStates, alphabet);
    }
  }

  /** The negative loop: records every test line and whether it is rejected. */
  method ProcessNegativeTests(tests: seq<string>, nodes: seq<Node>, finalStates: set<int>, alphabet: set<char>)
    returns (strings: seq<string>, isRejected: seq<bool>)
    ensures strings == tests
    ensures isRejected == RejectionColumn(tests, nodes, finalStates, alphabet)
    ensures forall k :: 0 <= k < |tests| ==>
              isRejected[k] == !Accepts(Simulated(tests[k]), nodes, finalStates, alphabet)
  {
    strings, isRejected := [], [];
    for i := 0 to |tests|
      invariant strings == tests[..i]
      invariant isRejected == RejectionColumn(tests[..i], nodes, finalStates, alphabet)
    {
      assert tests[..i + 1][..i] == tests[..i];
      var test := tests[i];
      var testString := Simulated(test);
      var accepted := TestStringOnDfa(testString, nodes, finalStates, alphabet);
      strings := strings + [test];
      isRejected := isRejected + [!accepted];
    }
    assert tests[..|tests|] == tests;
    forall k | 0 <= k < |tests|
      ensures isRejected[k] == !Accepts(Simulated(tests[k]), nodes, finalStates, alphabet)
    {
      RejectionIsNegation(tests, k, nodes, finalStates, alphabet);
      AcceptanceColumnAt(tests, k, nodes, finalStates, alphabet);
    }
  }

  /** Entry `k` of the acceptance column is the verdict on test `k` alone. */
  lemma {:induction false} AcceptanceColumnAt(tests: seq<string>, k: nat, nodes: seq<Node>, finalStates: set<int>, alphabet: set<char>)
    requires k < |tests|
    ensures AcceptanceColumn(tests, nodes, finalStates, alphabet)[k] ==
            Accepts(Simulated(tests[k]), nodes, finalStates, alphabet)
    decreases |tests|
  {
    if k < |tests| - 1 {
      AcceptanceColumnAt(tests[..|tests| - 1], k, nodes, finalStates, alphabet);
    }
  }

  /** Entry `k` of the rejection column is the negation of entry `k` of the acceptance column. */
  lemma {:induction false} RejectionIsNegation(tests: seq<string>, k: nat, nodes: seq<Node>, finalStates: set<int>, alphabet: set<char>)
    requires k < |tests|
    ensures RejectionColumn(tests, nodes, finalStates, alphabet)[k] ==
            !AcceptanceColumn(tests, nodes, finalStates, alphabet)[k]
    decreases |tests|
  {
    if k < |tests| - 1 {
      RejectionIsNegation(tests[..|tests| - 1], k, nodes, finalStates, alphabet);
    }
  }

  /** Results follow input order: the column of two lists is the two columns in turn. */
  lemma {:induction false} AcceptanceColumnAppend(a: seq<string>, b: seq<string>, nodes: seq<Node>, finalStates: set<int>, alphabet: set<char>)
    ensures AcceptanceColumn(a + b, nodes, finalStates, alphabet) ==
            AcceptanceColumn(a, nodes, finalStates, alphabet) + AcceptanceColumn(b, nodes, finalStates, alphabet)
    decreases |b|
  {
    if |b| == 0 {
      assert a + b == a;
    } else {
      var b' := b[..|b| - 1];
      assert (a + b)[..|a + b| - 1] == a + b';
      assert (a + b)[|a + b| - 1] == b[|b| - 1];
      AcceptanceColumnAppend(a, b', nodes, finalStates, alphabet);
    }
  }

  /** An "ε" line is simulated as the empty input: accepted exactly when state 0 is final. */
  lemma EpsilonVerdict(tests: seq<string>, k: nat, nodes: seq<Node>, finalStates: set<int>, alphabet: set<char>)
    requires k < |tests| && tests[k] == Epsilon
    ensures AcceptanceColumn(tests, nodes, finalStates, alphabet)[k] <==> Start in finalStates
    ensures RejectionColumn(tests, nodes, finalStates, alphabet)[k] <==> Start !in finalStates
  {
  }

  /** Any other line is simulated as itself. */
  lemma OtherLineVerdict(tests: seq<string>, k: nat, nodes: seq<Node>, finalStates: set<int>, alphabet: set<char>)
    requires k < |tests| && tests[k] != Epsilon
    ensures AcceptanceColumn(tests, nodes, finalStates, alphabet)[k] == Accepts(tests[k], nodes, finalStates, alphabet)
  {
  }
}
