/**
 * The simulator of DFABatch.py: a loop over the letters of the input with an
 * inner scan of the node list that stops at the first matching node.
 */
module Simulation {
  import opened Automaton

  /**
   * Decides one input. The nodes, final states and alphabet are values, so
   * they are left unchanged; the verdict is the one the specification gives.
   */
  method TestStringOnDfa(testString: string, nodes: seq<Node>, finalStates: set<int>, alphabet: set<char>)
    returns (accepted: bool)
    ensures accepted == Accepts(testString, nodes, finalStates, alphabet)
  {
    var currentNode := Start;
    for i := 0 to |testString|
      invariant Run(nodes, alphabet, Start, testString) == Run(nodes, alphabet, currentNode, testString[i..])
    {
      var letter := testString[i];
      assert testString[i..][0] == letter && testString[i..][1..] == testString[i + 1..];
      if letter !in alphabet {
        return false;
      }

      ghost var from := currentNode;
      var transitionFound := false;
      for j := 0 to |nodes|
        invariant currentNode == from && !transitionFound
        invariant forall k :: 0 <= k < j ==> !Matches(nodes[k], from, letter)
      {
        var node := nodes[j];
        if node.mValue == currentNode && node.mLetter == letter {
          StepIsFirstMatch(nodes, from, letter, j);
          currentNode := node.mGoto;
          transitionFound := true;
          break;
        }
      }

      if !transitionFound {
        return false;
      }
    }
    return currentNode in finalStates;
  }
}
