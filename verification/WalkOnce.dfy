/** The recursive pre-order, and so the walk of the iterator, meets each attached state exactly once. */
module WalkOnce {
  import opened Options
  import opened StateTree
  import opened StateWalk

  /** `j` is reached from `i` through child lists. A start or history state that was replaced keeps its parent
      pointer but is in no child list any more. */
  ghost predicate Attached(t: Tree, i: StateId, j: StateId)
    requires WellFormed(t) && i < |t| && j < |t|
    decreases j
  {
    || i == j
    || (t[j].parent.Some? && (assert ParentOk(t, j); j in t[t[j].parent.value].children && Attached(t, i, t[j].parent.value)))
  }

  lemma {:induction false} AttachedTransitive(t: Tree, i: StateId, j: StateId, k: StateId)
    requires WellFormed(t) && i < |t| && j < |t| && k < |t| && Attached(t, i, j) && Attached(t, j, k)
    ensures Attached(t, i, k)
    decreases k
  {
    if j != k {
      assert ParentOk(t, k);
      AttachedTransitive(t, i, j, t[k].parent.value);
    }
  }

  lemma {:induction false} AttachedIsAncestor(t: Tree, i: StateId, j: StateId)
    requires WellFormed(t) && i < |t| && j < |t| && Attached(t, i, j)
    ensures Ancestor(t, i, j)
    decreases j
  {
    assert ParentOk(t, j);
    if i == j {
      assert Path(t, j)[|Path(t, j)| - 1] == j;
    } else {
      AttachedIsAncestor(t, i, t[j].parent.value);
    }
  }

  lemma ChildAttached(t: Tree, i: StateId, k: nat)
    requires WellFormed(t) && i < |t| && k < |t[i].children|
    ensures i < t[i].children[k] < |t| && t[t[i].children[k]].parent == Some(i) && Attached(t, i, t[i].children[k])
  {
    assert ChildrenOk(t, i) && t[i].children[k] in t[i].children;
  }

  lemma {:induction false} VisitedAreAttached(t: Tree, i: StateId)
    requires WellFormed(t) && i < |t|
    ensures forall j <- PreOrder(t, i) :: j < |t| && Attached(t, i, j)
    decreases |t| - i, 0
  {
    forall j <- PreOrder(t, i)
      ensures j < |t| && Attached(t, i, j)
    {
      if j != i { var k := InForest(t, i, 0, j); }
    }
  }

  /** A state of a forest belongs to the pre-order of one of its trees. */
  lemma {:induction false} InForest(t: Tree, i: StateId, k: nat, j: StateId) returns (m: nat)
    requires WellFormed(t) && i < |t| && k <= |t[i].children| && j in Forest(t, i, k)
    ensures k <= m < |t[i].children| && t[i].children[m] < |t| && j < |t|
    ensures Attached(t, t[i].children[m], j) && Attached(t, i, j)
    decreases |t| - i - 1, |t[i].children| - k
  {
    ChildAttached(t, i, k);
    var c := t[i].children[k];
    if j in PreOrder(t, c) {
      VisitedAreAttached(t, c);
      AttachedTransitive(t, i, c, j);
      m := k;
    } else {
      m := InForest(t, i, k + 1, j);
    }
  }

  lemma {:induction false} ChildrenInForest(t: Tree, i: StateId, k: nat, m: nat, j: StateId)
    requires WellFormed(t) && i < |t| && k <= m < |t[i].children|
    requires t[i].children[m] < |t| && j in PreOrder(t, t[i].children[m])
    ensures j in Forest(t, i, k)
    decreases m - k
  {
    ChildAttached(t, i, k);
    if k < m { ChildrenInForest(t, i, k + 1, m, j); }
  }

  lemma {:induction false} PreOrderStep(t: Tree, i: StateId, j: StateId, k: StateId)
    requires WellFormed(t) && i < |t| && j in PreOrder(t, i) && j < |t| && k in t[j].children
    ensures k in PreOrder(t, i)
    decreases |t| - i
  {
    if i == j {
      var m :| 0 <= m < |t[i].children| && t[i].children[m] == k;
      ChildAttached(t, i, m);
      ChildrenInForest(t, i, 0, m, k);
    } else {
      var m := InForestTree(t, i, 0, j);
      ChildAttached(t, i, m);
      PreOrderStep(t, t[i].children[m], j, k);
      ChildrenInForest(t, i, 0, m, k);
    }
  }

  lemma {:induction false} InForestTree(t: Tree, i: StateId, k: nat, j: StateId) returns (m: nat)
    requires WellFormed(t) && i < |t| && k <= |t[i].children| && j in Forest(t, i, k)
    ensures k <= m < |t[i].children| && t[i].children[m] < |t| && j in PreOrder(t, t[i].children[m])
    decreases |t[i].children| - k
  {
    ChildAttached(t, i, k);
    m := k;
    if j !in PreOrder(t, t[i].children[k]) { m := InForestTree(t, i, k + 1, j); }
  }

  lemma {:induction false} AttachedAreVisited(t: Tree, i: StateId, j: StateId)
    requires WellFormed(t) && i < |t| && j < |t| && Attached(t, i, j)
    ensures j in PreOrder(t, i)
    decreases j
  {
    if i != j {
      assert ParentOk(t, j);
      var p := t[j].parent.value;
      AttachedAreVisited(t, i, p);
      PreOrderStep(t, i, p, j);
    }
  }

  ghost predicate Distinct(s: seq<StateId>) {
    forall j, k :: 0 <= j < k < |s| ==> s[j] != s[k]
  }

  lemma DistinctJoin(xs: seq<StateId>, ys: seq<StateId>)
    requires Distinct(xs) && Distinct(ys) && forall x <- xs :: x !in ys
    ensures Distinct(xs + ys)
  {
    forall j, k | 0 <= j < k < |xs + ys|
      ensures (xs + ys)[j] != (xs + ys)[k]
    {
      if j < |xs| && k >= |xs| { assert xs[j] in xs && ys[k - |xs|] in ys; }
    }
  }

  /** Two children of one state have no state below both. */
  lemma SiblingsApart(t: Tree, i: StateId, k: nat, m: nat, j: StateId)
    requires WellFormed(t) && i < |t| && k < m < |t[i].children| && j < |t|
    requires t[i].children[k] < |t| && t[i].children[m] < |t|
    ensures !(Attached(t, t[i].children[k], j) && Attached(t, t[i].children[m], j))
  {
    var c, d := t[i].children[k], t[i].children[m];
    assert ChildrenOk(t, i);
    ChildAttached(t, i, k);
    ChildAttached(t, i, m);
    if Attached(t, c, j) && Attached(t, d, j) {
      AttachedIsAncestor(t, c, j);
      AttachedIsAncestor(t, d, j);
      var a := PathOfAncestor(t, c, j);
      var b := PathOfAncestor(t, d, j);
    }
  }

  lemma {:induction false} PreOrderDistinct(t: Tree, i: StateId)
    requires WellFormed(t) && i < |t|
    ensures Distinct(PreOrder(t, i))
    decreases |t| - i, 0, 0
  {
    ForestDistinct(t, i, 0);
    forall x <- [i]
      ensures x !in Forest(t, i, 0)
    {
      if x in Forest(t, i, 0) {
        var m := InForest(t, i, 0, x);
        ChildAttached(t, i, m);
        AttachedNotBelow(t, t[i].children[m], i);
      }
    }
    DistinctJoin([i], Forest(t, i, 0));
  }

  lemma {:induction false} AttachedNotBelow(t: Tree, c: StateId, i: StateId)
    requires WellFormed(t) && i < c < |t|
    ensures !Attached(t, c, i)
    decreases i
  {
    if t[i].parent.Some? {
      assert ParentOk(t, i);
      AttachedNotBelow(t, c, t[i].parent.value);
    }
  }

  lemma {:induction false} ForestDistinct(t: Tree, i: StateId, k: nat)
    requires WellFormed(t) && i < |t| && k <= |t[i].children|
    ensures Distinct(Forest(t, i, k))
    decreases |t| - i - 1, 1, |t[i].children| - k
  {
    if k < |t[i].children| {
      ChildAttached(t, i, k);
      var c := t[i].children[k];
      PreOrderDistinct(t, c);
      ForestDistinct(t, i, k + 1);
      VisitedAreAttached(t, c);
      forall x <- PreOrder(t, c)
        ensures x !in Forest(t, i, k + 1)
      {
        if x in Forest(t, i, k + 1) {
          var m := InForest(t, i, k + 1, x);
          SiblingsApart(t, i, k, m, x);
        }
      }
      DistinctJoin(PreOrder(t, c), Forest(t, i, k + 1));
    }
  }

  /** The walk visits the attached states, all of them, each once. */
  lemma VisitsEachOnce(t: Tree, i: StateId)
    requires WellFormed(t) && i < |t|
    ensures Distinct(PreOrder(t, i))
    ensures forall j: StateId :: j in PreOrder(t, i) <==> j < |t| && Attached(t, i, j)
  {
    PreOrderDistinct(t, i);
    VisitedAreAttached(t, i);
    forall j: StateId | j < |t| && Attached(t, i, j)
      ensures j in PreOrder(t, i)
    {
      AttachedAreVisited(t, i, j);
    }
  }

  // ----- in which order

  /** Below one state, `x` lies in the subtree of an earlier child than `y`. */
  ghost predicate InEarlierSubtree(t: Tree, i: StateId, a: nat, b: nat, x: StateId, y: StateId)
    requires WellFormed(t) && x < |t| && y < |t|
  {
    && i < |t| && a < b < |t[i].children| && t[i].children[a] < |t| && t[i].children[b] < |t|
    && Attached(t, t[i].children[a], x) && Attached(t, t[i].children[b], y)
  }

  /** `x` comes before `y`: it is above `y`, or in the subtree of an earlier child where their ways part. */
  ghost predicate Precedes(t: Tree, x: StateId, y: StateId)
    requires WellFormed(t) && x < |t| && y < |t|
  {
    (x != y && Attached(t, x, y)) || exists i: StateId, a: nat, b: nat :: InEarlierSubtree(t, i, a, b, x, y)
  }

  /** The walk is in that order: parents before their descendants, and the subtrees of the children from first to last. */
  lemma {:induction false} VisitsInOrder(t: Tree, i: StateId, p: nat, q: nat)
    requires WellFormed(t) && i < |t| && p < q < |PreOrder(t, i)|
    ensures PreOrder(t, i)[p] < |t| && PreOrder(t, i)[q] < |t| && Precedes(t, PreOrder(t, i)[p], PreOrder(t, i)[q])
    decreases |t| - i, 0, 0
  {
    var rest := Forest(t, i, 0);
    assert PreOrder(t, i) == [i] + rest && PreOrder(t, i)[q] == rest[q - 1];
    if p == 0 {
      var m := InForest(t, i, 0, rest[q - 1]);
      PreOrderDistinct(t, i);
    } else {
      ForestInOrder(t, i, 0, p - 1, q - 1);
    }
  }

  lemma {:induction false} ForestInOrder(t: Tree, i: StateId, k: nat, p: nat, q: nat)
    requires WellFormed(t) && i < |t| && k <= |t[i].children| && p < q < |Forest(t, i, k)|
    ensures Forest(t, i, k)[p] < |t| && Forest(t, i, k)[q] < |t| && Precedes(t, Forest(t, i, k)[p], Forest(t, i, k)[q])
    decreases |t| - i - 1, 1, |t[i].children| - k
  {
    ChildAttached(t, i, k);
    var c := t[i].children[k];
    var first, rest := PreOrder(t, c), Forest(t, i, k + 1);
    assert Forest(t, i, k) == first + rest;
    if q < |first| {
      VisitsInOrder(t, c, p, q);
    } else if p >= |first| {
      ForestInOrder(t, i, k + 1, p - |first|, q - |first|);
    } else {
      VisitedAreAttached(t, c);
      assert first[p] in first;
      var m := InForest(t, i, k + 1, rest[q - |first|]);
      assert InEarlierSubtree(t, i, k, m, first[p], rest[q - |first|]);
    }
  }
}
