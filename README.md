# DFA batch tester, modelled in Dafny

`DFABatch.py` loads a deterministic finite automaton (a list of transitions,
a set of final states, an alphabet), prints the number of states it uses, and
runs two lists of test strings through it: strings expected to be accepted
and strings expected to be rejected. This project models the acceptance engine
and the pieces around it, and proves what they promise:

- `automaton.dfy` (module `Automaton`): the transition `Node`. It specifies
  the simulation as pure functions: `FirstMatch` gives the index of the first
  node, in list order, that leaves a state on a letter, and `Step` gives that
  node's destination; `Run` reads an input
  starting from a state and rejects on a letter outside the alphabet or on a
  missing transition; `Accepts` runs from state 0 and checks that it ends in
  a final state. The lemmas cover the empty input, letters outside the
  alphabet, dead steps, sticky rejection, first-match and appended nodes, and
  a worked automaton for binary strings that contain "01".
- `simulation.dfy` (module `Simulation`): `TestStringOnDfa`, the simulator as
  the source writes it. An outer loop runs over the letters and an inner scan
  over the nodes sets a `transitionFound` flag and stops at the first match.
  There are early exits on the two rejection cases. It is proved equal to
  `Accepts`.
- `state_count.dfy` (module `StateCount`): `CountStates`, which adds both
  ends of every node to a set. It is proved to return the size of `StatesOf`,
  with the bound, the empty case, and invariance under reordering and
  duplication.
- `batch.dfy` (module `Batch`): the two loops of `main`. Each maps the marker
  `"ε"` to the empty input, runs the simulator and appends the line and its
  verdict to the result columns in input order. The negative loop records the
  negation. They are proved equal to the column functions `AcceptanceColumn`
  and `RejectionColumn`, whose entry-wise and ordering properties are lemmas.

The automaton's nodes, final states and alphabet are Dafny values (`seq` and
`set`). No operation can modify them, so "the automaton is left unchanged"
holds by construction.

`test_string_on_dfa` scans the node list linearly and takes the first
match. It neither indexes transitions nor rejects two transitions that share
a source and a letter. The model keeps that first-match rule, does not
assume the node list is deterministic, and proves that later conflicting
nodes are ignored (`StepExtend`).

## Model

| member | source | states |
|---|---|---|
| Automaton.FirstMatch | DFABatch.py:24-28 | the index found is in range and its node matches the state and letter; no earlier node matches; when there is no index, no node matches at all |
| Automaton.Step | DFABatch.py:22-32 | a step finds a destination exactly when some node matches the current state and letter |
| Automaton.Run | DFABatch.py:13-32 | a run that is not rejected has every letter of its input in the alphabet |
| Automaton.Accepts | DFABatch.py:13-35 | an accepted input uses only alphabet letters, and the empty input is accepted exactly when state 0 is final; AcceptsEmpty, OutOfAlphabetRejects, DeadStepRejects, RejectionIsSticky and AcceptsExtend are proved about it, and TestStringOnDfa is proved equal to it |
| Automaton.StepIsFirstMatch | DFABatch.py:24-28 | a matching node with no matching node before it decides the step, whatever matching nodes follow it |
| Automaton.StepExtend | DFABatch.py:24-28 | appending nodes to the list does not change a step the list already decides, so a later conflicting transition is ignored |
| Automaton.RunAppend | DFABatch.py:17-32 | reading u + v is reading u, then reading v from the state u reached; rejection of u rejects u + v |
| Automaton.AcceptsEmpty | DFABatch.py:13-35 | the empty input is accepted exactly when state 0 is final |
| Automaton.OutOfAlphabetRejects | DFABatch.py:17-20 | an input with a letter outside the alphabet at any position is rejected, whatever the nodes and final states |
| Automaton.RejectionIsSticky | DFABatch.py:22-32 | once a prefix is rejected, every extension of it is rejected |
| Automaton.DeadStepRejects | DFABatch.py:30-32 | if a prefix reaches a state that no node leaves on the next letter, the whole input is rejected |
| Automaton.RunNotRejectedHasNoDeadStep | DFABatch.py:17-32 | a run that is not rejected never reached a letter in the alphabet for which no node matches |
| Automaton.RunExtend | DFABatch.py:24-28 | appending nodes does not change a run that never hits a dead step, including a run that stops on a letter outside the alphabet |
| Automaton.AcceptsExtend | DFABatch.py:24-35 | appending nodes does not change the verdict on an input that never hits a dead step, whether it ends normally or stops on a letter outside the alphabet |
| Automaton.ContainsZeroOneVerdicts | DFABatch.py:8-35 | on the automaton for binary strings containing "01", the inputs "01" and "0011" are accepted and "10" and the empty input are rejected |
| Simulation.TestStringOnDfa | DFABatch.py:8-35 | the nested scanning loops with early returns compute exactly the verdict of the recursive specification Accepts |
| StateCount.StatesOf | DFABatch.py:61-64 | an identifier is in the set exactly when it is the source or the destination of some node |
| StateCount.CountStates | DFABatch.py:57-65 | the count is the size of the set of all sources and destinations; it is at most twice the number of nodes, and 0 for no nodes |
| StateCount.StatesBound | DFABatch.py:61-65 | there are at most twice as many states as nodes |
| StateCount.StatesOfSameNodes | DFABatch.py:61-65 | two node lists with the same members have the same states, so order and repetition do not matter |
| StateCount.CountUnderPermutation | DFABatch.py:61-65 | reordering the node list leaves the count unchanged |
| StateCount.CountUnderDuplication | DFABatch.py:61-65 | repeating a node already in the list leaves the states unchanged |
| Batch.Simulated | DFABatch.py:96 | the simulated string is empty exactly when the line is "ε" or empty, and otherwise it is the line itself; EpsilonVerdict and OtherLineVerdict give the verdicts that follow |
| Batch.AcceptanceColumn | DFABatch.py:93-99 | the acceptance column has exactly one entry per test |
| Batch.RejectionColumn | DFABatch.py:112-118 | the rejection column has exactly one entry per test |
| Batch.ProcessPositiveTests | DFABatch.py:93-99 | the recorded strings are the test lines unchanged, including "ε"; entry k of "Is Accepted" is the verdict on test k, with "ε" simulated as the empty input |
| Batch.ProcessNegativeTests | DFABatch.py:112-118 | the recorded strings are the test lines unchanged; entry k of "Is Rejected" is the negation of the verdict on test k |
| Batch.AcceptanceColumnAt | DFABatch.py:94-99 | entry k of the acceptance column depends on test k alone and is its verdict |
| Batch.RejectionIsNegation | DFABatch.py:116-118 | entry k of the rejection column is the negation of entry k of the acceptance column |
| Batch.AcceptanceColumnAppend | DFABatch.py:94-99 | results follow input order: the column for a + b is the column for a followed by the column for b |
| Batch.EpsilonVerdict | DFABatch.py:94-99 | an "ε" line is accepted exactly when state 0 is final, and in the negative list it is rejected exactly when state 0 is not final |
| Batch.OtherLineVerdict | DFABatch.py:94-97 | every line other than "ε" is simulated as itself |

## Left out

- `Parser` and `Node` (imported at DFABatch.py:5-6) are not part of this model. Their grammar and validation are unknown, so the nodes, final states and alphabet are inputs. The model assumes integer state identifiers and single-character letters. A letter stored as a longer string would never match an input character.
- `parse_dfa_file` (DFABatch.py:37-55): it only opens a file and calls the Parser, so it is I/O.
- Reading the test files (DFABatch.py:86-91, 105-110): the right-strip of line endings and the dropping of blank lines are I/O. The batch methods receive the already-filtered list of lines. The early return when a file cannot be opened is also left out.
- The pandas `DataFrame` and `tabulate` output, the `print` calls and the `sys.argv`/`sys.exit` handling (DFABatch.py:72-83, 101-102, 120-128) are presentation and command-line plumbing. `main` keeps its two columns in a dictionary; the model returns them as two sequences.
