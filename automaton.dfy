/**
 * The automaton as DFABatch.py sees it: a list of transitions scanned in
 * list order, a set of final states and an alphabet. This module holds the
 * specification of the simulation (first-match step, run from state 0,
 * acceptance) and the properties proved about it.
 */
module Automaton {

  datatype Option<T> = None | Some(value: T)

  /** One transition: from state `mValue`, on letter `mLetter`, go to state `mGoto`. */
  datatype Node = Node(mValue: int, mLetter: char, mGoto: int)

  /** The start state of every simulation. */
  const Start: int := 0

  /** The test the simulator applies to each node while scanning. */
  predicate Matches(n: Node, state: int, letter: char)
  {
    n.mValue == state && n.mLetter == letter
  }

  /** Index of the first node, in list order, leaving `state` on `letter`. */
  function FirstMatch(nodes: seq<Node>, state: int, letter: char): (r: Option<nat>)
    ensures r.Some? ==>
              r.value < |nodes| && Matches(nodes[r.value], state, letter) &&
              forall j :: 0 <= j < r.value ==> !Matches(nodes[j], state, letter)
    ensures r.None? ==> forall j :: 0 <= j < |nodes| ==> !Matches(nodes[j], state, letter)
    decreases |nodes|
  {
    if |nodes| == 0 then None
    else if Matches(nodes[0], state, letter) then Some(0)
    else match FirstMatch(nodes[1..], state, letter)
      case None => None
      case Some(i) => Some(i + 1)
  }

  /** One step of the simulation: the destination of the first matching node, if any. */
  function Step(nodes: seq<Node>, state: int, letter: char): (r: Option<int>)
    ensures r.Some? <==> exists j :: 0 <= j < |nodes| && Matches(nodes[j], state, letter)
  {
    match FirstMatch(nodes, state, letter)
    case None => None
    case Some(i) => Some(nodes[i].mGoto)
  }

  /**
   * The state reached from `state` after reading `input`, or None when the
   * run is rejected on the way (a letter outside the alphabet, or a step for
   * which no node matches).
   */
  function Run(nodes: seq<Node>, alphabet: set<char>, state: int, input: string): (r: Option<int>)
    ensures r.Some? ==> forall k :: 0 <= k < |input| ==> input[k] in alphabet
    decreases |input|
  {
    if |input| == 0 then Some(state)
    else if input[0] !in alphabet then None
    else match Step(nodes, state, input[0])
      case None => None
      case Some(q) => Run(nodes, alphabet, q, input[1..])
  }

  /** The verdict for `input`: the run from the start state ends in a final state. */
  function Accepts(input: string, nodes: seq<Node>, finalStates: set<int>, alphabet: set<char>): (r: bool)
    ensures r ==> forall k :: 0 <= k < |input| ==> input[k] in alphabet
    ensures input == [] ==> (r <==> Start in finalStates)
  {
    match Run(nodes, alphabet, Start, input)
    case None => false
    case Some(q) => q in finalStates
  }

  // ---------------------------------------------------------------------
  // Properties of the step

  /** A node that matches, with no matching node before it, decides the step. */
  lemma StepIsFirstMatch(nodes: seq<Node>, state: int, letter: char, i: nat)
    requires i < |nodes| && Matches(nodes[i], state, letter)
    requires forall k :: 0 <= k < i ==> !Matches(nodes[k], state, letter)
    ensures Step(nodes, state, letter) == Some(nodes[i].mGoto)
  {
  }

  /**
   * Nodes appended after the list never override a step that the list
   * already decides: in particular a later, conflicting transition is ignored.
   */
  lemma StepExtend(nodes: seq<Node>, extra: seq<Node>, state: int, letter: char)
    requires Step(nodes, state, letter).Some?
    ensures Step(nodes + extra, state, letter) == Step(nodes, state, letter)
  {
    var i := FirstMatch(nodes, state, letter).value;
    forall k | 0 <= k < i ensures !Matches((nodes + extra)[k], state, letter) {
      assert (nodes + extra)[k] == nodes[k];
    }
    assert (nodes + extra)[i] == nodes[i];
    StepIsFirstMatch(nodes + extra, state, letter, i);
  }

  // ---------------------------------------------------------------------
  // Properties of the run and of acceptance

  /** Reading `u + v` is reading `u`, then reading `v` from where `u` ended. */
  lemma {:induction false} RunAppend(nodes: seq<Node>, alphabet: set<char>, state: int, u: string, v: string)
    ensures Run(nodes, alphabet, state, u + v) ==
            match Run(nodes, alphabet, state, u)
            case None => None
            case Some(p) => Run(nodes, alphabet, p, v)
    decreases |u|
  {
    if |u| == 0 {
      assert u + v == v;
    } else {
      assert (u + v)[0] == u[0];
      assert (u + v)[1..] == u[1..] + v;
      if u[0] in alphabet {
        match Step(nodes, state, u[0])
        case None =>
        case Some(q) => RunAppend(nodes, alphabet, q, u[1..], v);
      }
    }
  }

  /** The empty input is accepted exactly when the start state is final. */
  lemma AcceptsEmpty(nodes: seq<Node>, finalStates: set<int>, alphabet: set<char>)
    ensures Accepts("", nodes, finalStates, alphabet) <==> Start in finalStates
  {
  }

  /** A letter outside the alphabet anywhere in the input rejects it. */
  lemma OutOfAlphabetRejects(input: string, k: nat, nodes: seq<Node>, finalStates: set<int>, alphabet: set<char>)
    requires k < |input| && input[k] !in alphabet
    ensures !Accepts(input, nodes, finalStates, alphabet)
  {
  }

  /** Once a prefix is rejected, every extension of it is rejected too. */
  lemma RejectionIsSticky(u: string, v: string, nodes: seq<Node>, finalStates: set<int>, alphabet: set<char>)
    requires Run(nodes, alphabet, Start, u).None?
    ensures !Accepts(u + v, nodes, finalStates, alphabet)
  {
    RunAppend(nodes, alphabet, Start, u, v);
  }

  /**
   * If the prefix `input[..k]` leads to `q` and no node leaves `q` on the next
   * letter, the whole input is rejected, whatever follows.
   */
  lemma DeadStepRejects(input: string, k: nat, q: int, nodes: seq<Node>, finalStates: set<int>, alphabet: set<char>)
    requires k < |input|
    requires Run(nodes, alphabet, Start, input[..k]) == Some(q)
    requires Step(nodes, q, input[k]).None?
    ensures !Accepts(input, nodes, finalStates, alphabet)
  {
    assert input == input[..k] + input[k..];
    RunAppend(nodes, alphabet, Start, input[..k], input[k..]);
    assert input[k..][0] == input[k];
  }

  /**
   * Reading `input` from `state` never reaches a letter in the alphabet for
   * which no node matches. The run may still stop early on a letter outside
   * the alphabet, which is rejected before the nodes are scanned.
   */
  predicate NoDeadStep(nodes: seq<Node>, alphabet: set<char>, state: int, input: string)
    decreases |input|
  {
    |input| == 0 || input[0] !in alphabet ||
    match Step(nodes, state, input[0])
    case None => false
    case Some(q) => NoDeadStep(nodes, alphabet, q, input[1..])
  }

  /** A run that is not rejected never hit a dead step. */
  lemma {:induction false} RunNotRejectedHasNoDeadStep(nodes: seq<Node>, alphabet: set<char>, state: int, input: string)
    requires Run(nodes, alphabet, state, input).Some?
    ensures NoDeadStep(nodes, alphabet, state, input)
    decreases |input|
  {
    if |input| > 0 {
      RunNotRejectedHasNoDeadStep(nodes, alphabet, Step(nodes, state, input[0]).value, input[1..]);
    }
  }

  /** Appending nodes never changes a run that never hits a dead step. */
  lemma {:induction false} RunExtend(nodes: seq<Node>, extra: seq<Node>, alphabet: set<char>, state: int, input: string)
    requires NoDeadStep(nodes, alphabet, state, input)
    ensures Run(nodes + extra, alphabet, state, input) == Run(nodes, alphabet, state, input)
    decreases |input|
  {
    if |input| > 0 && input[0] in alphabet {
      StepExtend(nodes, extra, state, input[0]);
      RunExtend(nodes, extra, alphabet, Step(nodes, state, input[0]).value, input[1..]);
    }
  }

  /** Appending nodes never changes the verdict on an input that never hits a dead step. */
  lemma AcceptsExtend(input: string, nodes: seq<Node>, extra: seq<Node>, finalStates: set<int>, alphabet: set<char>)
    requires NoDeadStep(nodes, alphabet, Start, input)
    ensures Accepts(input, nodes + extra, finalStates, alphabet) == Accepts(input, nodes, finalStates, alphabet)
  {
    RunExtend(nodes, extra, alphabet, Start, input);
  }

  // ---------------------------------------------------------------------
  // A worked automaton: binary strings containing "01"

  const ContainsZeroOne: seq<Node> :=
    [Node(0, '0', 1), Node(0, '1', 0), Node(1, '0', 1), Node(1, '1', 2), Node(2, '0', 2), Node(2, '1', 2)]

  lemma ContainsZeroOneVerdicts()
    ensures Accepts("01", ContainsZeroOne, {2}, {'0', '1'})
    ensures !Accepts("10", ContainsZeroOne, {2}, {'0', '1'})
    ensures !Accepts("", ContainsZeroOne, {2}, {'0', '1'})
    ensures Accepts("0011", ContainsZeroOne, {2}, {'0', '1'})
  {
    var a := {'0', '1'};
    StepIsFirstMatch(ContainsZeroOne, 0, '0', 0);
    StepIsFirstMatch(ContainsZeroOne, 0, '1', 1);
    StepIsFirstMatch(ContainsZeroOne, 1, '0', 2);
    StepIsFirstMatch(ContainsZeroOne, 1, '1', 3);
    StepIsFirstMatch(ContainsZeroOne, 2, '1', 5);
    assert Run(ContainsZeroOne, a, 1, "") == Some(1);
    assert Run(ContainsZeroOne, a, 1, "0") == Some(1);
    assert Run(ContainsZeroOne, a, 0, "10") == Some(1);
    assert Run(ContainsZeroOne, a, 2, "") == Some(2);
    assert Run(ContainsZeroOne, a, 2, "1") == Some(2);
    assert Run(ContainsZeroOne, a, 1, "1") == Some(2);
    assert Run(ContainsZeroOne, a, 0, "01") == Some(2);
    assert Run(ContainsZeroOne, a, 1, "11") == Some(2);
    assert Run(ContainsZeroOne, a, 1, "011") == Some(2);
    assert Run(ContainsZeroOne, a, 0, "0011") == Some(2);
  }
}
