/** State::PrefixIterator, the explicit-stack walk over a hierarchy (src/lib/osStateMachine/src/State.cpp:240-385),
    against the recursive pre-order. */
module StateWalk {
  import opened Options
  import opened Sequences
  import opened StateTree

  // ----- the recursive walk

  ghost function PreOrder(t: Tree, i: StateId): seq<StateId>
    requires WellFormed(t) && i < |t|
    decreases |t| - i, 0
  {
    assert ChildrenOk(t, i);
    [i] + Forest(t, i, 0)
  }

  /** The pre-orders of the children of `i` from the `k`-th on. */
  ghost function Forest(t: Tree, i: StateId, k: nat): seq<StateId>
    requires WellFormed(t) && i < |t| && k <= |t[i].children|
    decreases |t| - i - 1, |t[i].children| - k
  {
    assert ChildrenOk(t, i);
    if k == |t[i].children| then []
    else
      assert t[i].children[k] in t[i].children;
      PreOrder(t, t[i].children[k]) + Forest(t, i, k + 1)
  }

  // ----- the iterator

  /** State::Iterator: a position in the child list of a state. */
  datatype Iterator = Iterator(state: StateId, index: nat)

  ghost predicate InRange(t: Tree, it: Iterator) {
    it.state < |t| && it.index < |t[it.state].children|
  }

  ghost predicate StackOk(t: Tree, stack: seq<Iterator>) {
    forall k :: 0 <= k < |stack| ==> InRange(t, stack[k])
  }

  /** What an iterator still owes once the child it stands on has been visited with everything below it. */
  ghost function Later(t: Tree, stack: seq<Iterator>): seq<StateId>
    requires WellFormed(t) && StackOk(t, stack)
    decreases |stack|
  {
    if stack == [] then []
    else
      var top := stack[|stack| - 1];
      assert InRange(t, top);
      Forest(t, top.state, top.index + 1) + Later(t, stack[..|stack| - 1])
  }

  class PrefixIterator {
    const tree: Tree
    var state: Option<StateId>
    var stack: seq<Iterator>

    /** Between increments no iterator on the stack is exhausted. */
    ghost predicate Valid()
      reads this
    {
      && WellFormed(tree)
      && (state.Some? ==> state.value < |tree| && stack == [])
      && StackOk(tree, stack)
    }

    /** What is still to be visited, the current state first. */
    ghost function Remaining(): seq<StateId>
      reads this
      requires Valid()
    {
      if state.Some? then PreOrder(tree, state.value)
      else if stack == [] then []
      else
        var top := stack[|stack| - 1];
        assert InRange(tree, top);
        Forest(tree, top.state, top.index) + Later(tree, stack[..|stack| - 1])
    }

    constructor (tree: Tree, state: Option<StateId>)
      requires WellFormed(tree) && (state.Some? ==> state.value < |tree|)
      ensures Valid() && this.tree == tree
      ensures Remaining() == if state.None? then [] else PreOrder(tree, state.value)
    {
      this.tree, this.state, stack := tree, state, [];
    }

    /** operator!= against the end iterator */
    predicate NotAtEnd()
      reads this
    {
      state.Some? || |stack| != 0
    }

    /** operator* */
    method Current() returns (r: Option<StateId>)
      requires Valid()
      ensures r == if Remaining() == [] then None else Some(Remaining()[0])
      ensures NotAtEnd() <==> Remaining() != []
    {
      if state.Some? {
        return state;
      }
      if stack == [] {
        return None;
      }
      var top := stack[|stack| - 1];
      assert InRange(tree, top);
      ForestHead(tree, top);
      r := Some(tree[top.state].children[top.index]);
    }

    /** operator++: one increment moves past exactly the current state. */
    method Increment()
      requires Valid()
      modifies this
      ensures Valid()
      ensures Remaining() == if old(Remaining()) == [] then [] else old(Remaining())[1..]
    {
      if state.Some? {
        var s := state.value;
        RootStep(tree, s);
        state := None;
        if tree[s].children != [] {
          stack := stack + [Iterator(s, 0)];
          assert stack[..0] == [];
        }
        return;
      }
      if stack == [] {
        return;
      }
      var top := stack[|stack| - 1];
      assert InRange(tree, top);
      StepDown(tree, top, stack[..|stack| - 1]);
      var child := tree[top.state].children[top.index];
      if tree[child].kind.Composite? && tree[child].children != [] {
        ghost var before := stack;
        stack := stack + [Iterator(child, 0)];
        assert stack[..|before|] == before;
        return;
      }
      assert ChildrenOk(tree, child);
      AdvanceTop();
      if Exhausted(stack[|stack| - 1]) {
        PopExhausted();
      }
    }

    predicate Exhausted(it: Iterator) {
      it.state < |tree| && it.index == |tree[it.state].children|
    }

    /** ++ on the top iterator, which may leave it exhausted. */
    method AdvanceTop()
      requires Valid() && state.None? && stack != []
      modifies this`stack
      ensures stack == old(stack)[|old(stack)| - 1 := Iterator(old(stack)[|old(stack)| - 1].state, old(stack)[|old(stack)| - 1].index + 1)]
    {
      var last := |stack| - 1;
      stack := stack[last := stack[last].(index := stack[last].index + 1)];
    }

    /** The closing do-while: pop, then advance the iterator below, until one stands on a child. */
    method PopExhausted()
      requires WellFormed(tree) && state.None? && stack != [] && Exhausted(stack[|stack| - 1])
      requires StackOk(tree, stack[..|stack| - 1])
      modifies this`stack
      ensures Valid() && Remaining() == Later(tree, old(stack)[..|old(stack)| - 1])
    {
      ghost var owed := Later(tree, stack[..|stack| - 1]);
      while true
        invariant stack != [] && Exhausted(stack[|stack| - 1])
        invariant StackOk(tree, stack[..|stack| - 1])
        invariant Later(tree, stack[..|stack| - 1]) == owed
        decreases |stack|
      {
        stack := stack[..|stack| - 1];
        if stack == [] {
          return;
        }
        var last := |stack| - 1;
        assert InRange(tree, stack[last]);
        ghost var below := stack[..last];
        stack := stack[last := stack[last].(index := stack[last].index + 1)];
        assert stack[..last] == below;
        if !Exhausted(stack[last]) {
          return;
        }
      }
    }
  }

  lemma ForestHead(t: Tree, it: Iterator)
    requires WellFormed(t) && InRange(t, it)
    ensures t[it.state].children[it.index] < |t|
    ensures Forest(t, it.state, it.index) != [] && Forest(t, it.state, it.index)[0] == t[it.state].children[it.index]
  {
    assert ChildrenOk(t, it.state) && t[it.state].children[it.index] in t[it.state].children;
  }

  lemma RootStep(t: Tree, s: StateId)
    requires WellFormed(t) && s < |t|
    ensures PreOrder(t, s) != [] && PreOrder(t, s)[1..] == Forest(t, s, 0) + Later(t, [])
    ensures t[s].children == [] ==> Forest(t, s, 0) + Later(t, []) == []
  {
  }

  /** What remains below a child, and after it. */
  lemma StepDown(t: Tree, top: Iterator, below: seq<Iterator>)
    requires WellFormed(t) && InRange(t, top) && StackOk(t, below)
    ensures t[top.state].children[top.index] < |t|
    ensures Forest(t, top.state, top.index) + Later(t, below) != []
    ensures (Forest(t, top.state, top.index) + Later(t, below))[1..]
            == Forest(t, t[top.state].children[top.index], 0) + (Forest(t, top.state, top.index + 1) + Later(t, below))
  {
    assert ChildrenOk(t, top.state) && t[top.state].children[top.index] in t[top.state].children;
  }

  /** One round of the loop: dereference, then increment. */
  method Visit(it: PrefixIterator) returns (r: StateId, ghost rest: seq<StateId>)
    requires it.Valid() && it.NotAtEnd()
    modifies it
    ensures it.Valid() && [r] + rest == old(it.Remaining()) && rest == it.Remaining()
    ensures it.NotAtEnd() <==> rest != []
  {
    var current := it.Current();
    r := current.value;
    it.Increment();
    rest := it.Remaining();
    var next := it.Current();
  }

  /** The range-for over StateWalker<recursive>: begin, increments, end. */
  method Walk(t: Tree, root: StateId) returns (visited: seq<StateId>, increments: nat)
    requires WellFormed(t) && root < |t|
    ensures visited == PreOrder(t, root) && increments == |PreOrder(t, root)|
  {
    var it := new PrefixIterator(t, Some(root));
    ghost var all, rest := PreOrder(t, root), PreOrder(t, root);
    visited, increments := [], 0;
    while it.NotAtEnd()
      invariant it.Valid() && fresh(it) && it.Remaining() == rest
      invariant visited + rest == all && increments == |visited|
      invariant it.NotAtEnd() <==> rest != []
      decreases |rest|
    {
      var current;
      current, rest := Visit(it);
      Associate(visited, [current], rest);
      visited, increments := visited + [current], increments + 1;
    }
  }
}
