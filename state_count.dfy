/**
 * The state count that DFABatch.py reports after loading: the number of
 * distinct identifiers that occur as the source or the destination of a node.
 */
module StateCount {
  import opened Automaton

  /** Every identifier that occurs as a source or a destination in `nodes`. */
  function StatesOf(nodes: seq<Node>): (r: set<int>)
    ensures forall x :: x in r <==>
              exists i :: 0 <= i < |nodes| && (nodes[i].mValue == x || nodes[i].mGoto == x)
    decreases |nodes|
  {
    if |nodes| == 0 then {}
    else
      var front := nodes[..|nodes| - 1];
      assert forall i :: 0 <= i < |front| ==> front[i] == nodes[i];
      StatesOf(front) + {nodes[|nodes| - 1].mValue, nodes[|nodes| - 1].mGoto}
  }

  /** Counts the states by adding both ends of every node to a set. */
  method CountStates(nodes: seq<Node>) returns (count: nat)
    ensures count == |StatesOf(nodes)|
    ensures count <= 2 * |nodes|
  {
    var states: set<int> := {};
    for i := 0 to |nodes|
      invariant states == StatesOf(nodes[..i])
    {
      assert nodes[..i + 1][..i] == nodes[..i];
      states := states + {nodes[i].mValue};
      states := states + {nodes[i].mGoto};
    }
    assert nodes[..|nodes|] == nodes;
    StatesBound(nodes);
    count := |states|;
  }

  /** Each node contributes at most two states. */
  lemma {:induction false} StatesBound(nodes: seq<Node>)
    ensures |StatesOf(nodes)| <= 2 * |nodes|
    decreases |nodes|
  {
    if |nodes| > 0 {
      var last := nodes[|nodes| - 1];
      var front := StatesOf(nodes[..|nodes| - 1]);
      StatesBound(nodes[..|nodes| - 1]);
      assert front + {last.mValue, last.mGoto} == (front + {last.mValue}) + {last.mGoto};
      assert |front + {last.mValue}| <= |front| + 1;
    }
  }

  /**
   * The states depend only on which nodes occur, so reordering the list or
   * repeating a node leaves them, and hence the count, unchanged.
   */
  lemma StatesOfSameNodes(a: seq<Node>, b: seq<Node>)
    requires forall n :: n in a <==> n in b
    ensures StatesOf(a) == StatesOf(b)
  {
    forall x | x in StatesOf(a) ensures x in StatesOf(b) {
      var i :| 0 <= i < |a| && (a[i].mValue == x || a[i].mGoto == x);
      assert a[i] in b;
      var j :| 0 <= j < |b| && b[j] == a[i];
    }
    forall x | x in StatesOf(b) ensures x in StatesOf(a) {
      var j :| 0 <= j < |b| && (b[j].mValue == x || b[j].mGoto == x);
      assert b[j] in a;
      var i :| 0 <= i < |a| && a[i] == b[j];
    }
  }

  /** A permutation of the node list has the same number of states. */
  lemma CountUnderPermutation(a: seq<Node>, b: seq<Node>)
    requires multiset(a) == multiset(b)
    ensures |StatesOf(a)| == |StatesOf(b)|
  {
    forall n ensures n in a <==> n in b {
      assert n in a <==> n in multiset(a);
      assert n in b <==> n in multiset(b);
    }
    StatesOfSameNodes(a, b);
  }

  /** Repeating a node already in the list does not change the states. */
  lemma CountUnderDuplication(nodes: seq<Node>, k: nat)
    requires k < |nodes|
    ensures StatesOf(nodes + [nodes[k]]) == StatesOf(nodes)
  {
  }
}
