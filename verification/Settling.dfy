/** When following implicit transitions comes to rest. AbstractState::doTransition and doImplicitTransition
    call each other after every fired transition (src/lib/osStateMachine/src/AbstractState.cpp:117-122,
    src/lib/osStateMachine/src/State.cpp:54-86); nothing in the program bounds that recursion. A history state that
    holds a saved state ends it, so whether it ends depends on the histories too, and these change on the way. */
module Settling {
  import opened Options
  import opened Sequences
  import opened StateTree
  import opened Reconfiguration
  import opened Lookup
  import opened Engine

  /** Where the recursion is after `k` hops, None when it ended earlier. */
  ghost function Walk(t: Tree, c: Config, i: StateId, v: Value, k: nat): (r: Option<Point>)
    requires WellFormed(t) && i < |t|
    ensures r.Some? ==> r.value.state < |t|
    decreases k
  {
    if k == 0 then Some(Point(i, c))
    else
      var p := Hop(t, c, i, v);
      if p.None? then None else Walk(t, p.value.config, p.value.state, v, k - 1)
  }

  ghost predicate EventuallySettles(t: Tree, c: Config, i: StateId, v: Value)
    requires WellFormed(t) && i < |t|
  {
    exists n: nat :: Settles(t, c, i, v, n)
  }

  /** If every implicit edge lowers a rank, settling ends within the rank of the state it starts from. */
  lemma {:induction false} RankedEdgesSettle(t: Tree, c: Config, i: StateId, v: Value, rank: seq<nat>)
    requires WellFormed(t) && i < |t| && |rank| == |t|
    requires forall j: StateId :: j < |t| && ImplicitEdge(t, j, v).Some? ==> rank[ImplicitEdge(t, j, v).value] < rank[j]
    ensures Settles(t, c, i, v, rank[i])
    decreases rank[i]
  {
    hide Hop;
    var p := Hop(t, c, i, v);
    if p.Some? {
      RankedEdgesSettle(t, p.value.config, p.value.state, v, rank);
      SettlesMonotone(t, p.value.config, p.value.state, v, rank[p.value.state], rank[i] - 1);
    }
  }

  /** A larger bound changes neither that settling ends nor its outcome nor where it ends. */
  lemma {:induction false} SettlesMonotone(t: Tree, c: Config, i: StateId, v: Value, m: nat, n: nat)
    requires WellFormed(t) && i < |t| && Settles(t, c, i, v, m) && m <= n
    ensures Settles(t, c, i, v, n) && Settle(t, c, i, v, n) == Settle(t, c, i, v, m) && Rest(t, c, i, v, n) == Rest(t, c, i, v, m)
    decreases m
  {
    hide Hop;
    var p := Hop(t, c, i, v);
    if p.Some? { SettlesMonotone(t, p.value.config, p.value.state, v, m - 1, n - 1); }
  }

  lemma {:induction false} WalkPlus(t: Tree, c: Config, i: StateId, v: Value, a: nat, b: nat)
    requires WellFormed(t) && i < |t| && Walk(t, c, i, v, a).Some?
    ensures var p := Walk(t, c, i, v, a).value;
            Walk(t, c, i, v, a + b) == Walk(t, p.config, p.state, v, b)
    decreases a
  {
    hide Hop;
    if a > 0 {
      var p := Hop(t, c, i, v).value;
      WalkPlus(t, p.config, p.state, v, a - 1, b);
    }
  }

  lemma WalkNext(t: Tree, c: Config, i: StateId, v: Value, k: nat)
    requires WellFormed(t) && i < |t| && Walk(t, c, i, v, k).Some?
    ensures var p := Walk(t, c, i, v, k).value;
            Walk(t, c, i, v, k + 1) == Hop(t, p.config, p.state, v)
  {
    hide Hop;
    WalkPlus(t, c, i, v, k, 1);
    var p := Walk(t, c, i, v, k).value;
    if Hop(t, p.config, p.state, v).Some? {
      var q := Hop(t, p.config, p.state, v).value;
      assert Walk(t, q.config, q.state, v, 0) == Some(q);
    }
  }

  /** Settling within `n` hops is the walk being over after `n + 1`. */
  lemma {:induction false} SettlesIffWalkEnds(t: Tree, c: Config, i: StateId, v: Value, n: nat)
    requires WellFormed(t) && i < |t|
    ensures Settles(t, c, i, v, n) <==> Walk(t, c, i, v, n + 1).None?
    decreases n
  {
    hide Hop;
    var p := Hop(t, c, i, v);
    if p.Some? {
      if n > 0 {
        SettlesIffWalkEnds(t, p.value.config, p.value.state, v, n - 1);
      } else {
        assert Walk(t, c, i, v, 1) == Walk(t, p.value.config, p.value.state, v, 0);
      }
    }
  }

  lemma {:induction false} WalkStaysOver(t: Tree, c: Config, i: StateId, v: Value, k: nat, m: nat)
    requires WellFormed(t) && i < |t| && Walk(t, c, i, v, k).None? && k <= m
    ensures Walk(t, c, i, v, m).None?
    decreases k
  {
    hide Hop;
    var p := Hop(t, c, i, v);
    if p.Some? { WalkStaysOver(t, p.value.config, p.value.state, v, k - 1, m - 1); }
  }

  // ----- what a hop does to the histories

  /** What a list of exits leaves in a history. */
  lemma {:induction false} ExitsForget(t: Tree, c: Config, ss: seq<StateId>, h: StateId)
    requires WellFormed(t) && Known(t, ss)
    ensures h in ExitAll(t, c, ss).saved ==> h in c.saved && ExitAll(t, c, ss).saved[h] == c.saved[h]
    ensures h in ExitAll(t, c, ss).saved ==> forall k :: 0 <= k < |ss| ==> ParentHistory(t, ss[k]) != Some(h)
    decreases |ss|
  {
    if ss != [] {
      ExitsForget(t, ExitState(t, c, ss[0]), ss[1..], h);
      if h in ExitAll(t, c, ss).saved {
        forall k | 0 <= k < |ss|
          ensures ParentHistory(t, ss[k]) != Some(h)
        {
          if k > 0 { assert ss[k] == ss[1..][k - 1]; }
        }
      }
    }
  }

  /** What a list of entries leaves in a history: an entered child, or what was there. */
  lemma {:induction false} EntriesSave(t: Tree, c: Config, ss: seq<StateId>, h: StateId)
    requires WellFormed(t) && Known(t, ss)
    ensures var c' := EnterAll(t, c, ss);
            h in c'.saved ==>
              || (h in c.saved && c'.saved[h] == c.saved[h])
              || (c'.saved[h] in ss && c'.saved[h] < |t| && ParentHistory(t, c'.saved[h]) == Some(h))
    decreases |ss|
  {
    if ss != [] { EntriesSave(t, c, ss[..|ss| - 1], h); }
  }

  /** Every saved state is one that `base` had already, or the child of its parent on the chain of `i`. */
  ghost predicate SavedOnChain(t: Tree, base: map<StateId, StateId>, saved: map<StateId, StateId>, i: StateId)
    requires WellFormed(t) && i < |t|
  {
    forall h :: h in saved && h !in base ==>
      saved[h] < |t| && ParentHistory(t, saved[h]) == Some(h) && saved[h] in StateChain(t, i)
  }

  lemma ReverseHas(s: seq<StateId>, x: StateId) returns (k: nat)
    requires x in Reverse(s)
    ensures k < |s| && s[k] == x
  {
    var j: nat :| j < |s| && Reverse(s)[j] == x;
    ReverseAt(s, j);
    k := |s| - 1 - j;
  }

  lemma FireSaves(t: Tree, base: map<StateId, StateId>, c: Config, i: StateId, event: string, id: nat, to: StateId, h: StateId)
    requires WellFormed(t) && i < |t| && to < |t| && Root(t, i) == Root(t, to) && SavedOnChain(t, base, c.saved, i)
    ensures var c' := Fire(t, c, i, event, id, to);
            h in c'.saved && h !in base ==>
              c'.saved[h] < |t| && ParentHistory(t, c'.saved[h]) == Some(h) && c'.saved[h] in StateChain(t, to)
  {
    hide ExitAll, EnterAll, StateChain, Kept;
    var c0 := Begin(t, c, i, event, Some(i));
    var c1 := ExitAll(t, c0, Exits(t, i, to));
    var c2 := c1.(journal := c1.journal + [Acted(id)]);
    var c' := Fire(t, c, i, event, id, to);
    ReconfiguresIff(t, i, to);
    ExitsForget(t, c0, Exits(t, i, to), h);
    EntriesSave(t, c2, Entries(t, i, to), h);
    if h in c'.saved && h !in base && c'.saved[h] !in Entries(t, i, to) {
      var x := c'.saved[h];
      assert x == c.saved[h] && x in StateChain(t, i);
      if x !in Kept(t, i, to) { var k := ReverseHas(Exits(t, i, to), x); }
    }
  }

  /** Inside one hierarchy a hop saves only states on the chain of where it leads. */
  lemma HopSaves(t: Tree, base: map<StateId, StateId>, c: Config, i: StateId, v: Value)
    requires WellFormed(t) && OneTree(t) && i < |t| && SavedOnChain(t, base, c.saved, i) && Hop(t, c, i, v).Some?
    ensures SavedOnChain(t, base, Hop(t, c, i, v).value.config.saved, Hop(t, c, i, v).value.state)
  {
    hide Fire;
    var p := Hop(t, c, i, v).value;
    if StartOf(t, i).Some? {
      assert ParentOk(t, i) && StateChain(t, p.state) == StateChain(t, i);
    } else {
      forall h
        ensures h in p.config.saved && h !in base ==>
                  p.config.saved[h] < |t| && ParentHistory(t, p.config.saved[h]) == Some(h) && p.config.saved[h] in StateChain(t, p.state)
      {
        FireSaves(t, base, c, i, "", FirstEnabled(t[i].transitions, "", v).value.id, p.state, h);
      }
    }
  }

  lemma {:induction false} WalkSaves(t: Tree, c: Config, i: StateId, v: Value, k: nat)
    requires WellFormed(t) && OneTree(t) && i < |t| && Walk(t, c, i, v, k).Some?
    ensures SavedOnChain(t, c.saved, Walk(t, c, i, v, k).value.config.saved, Walk(t, c, i, v, k).value.state)
    decreases k
  {
    hide Hop;
    if k > 0 {
      if Walk(t, c, i, v, k - 1).None? { WalkStaysOver(t, c, i, v, k - 1, k); }
      WalkSaves(t, c, i, v, k - 1);
      WalkNext(t, c, i, v, k - 1);
      var p := Walk(t, c, i, v, k - 1).value;
      HopSaves(t, c.saved, p.config, p.state, v);
    }
  }

  /** A state the walk went on from it goes on from again: no history it resumes can have been saved in between. */
  lemma HopsAgain(t: Tree, c: Config, i: StateId, v: Value, k: nat)
    requires WellFormed(t) && OneTree(t) && i < |t| && Hop(t, c, i, v).Some?
    requires Walk(t, c, i, v, k).Some? && Walk(t, c, i, v, k).value.state == i
    ensures var q := Walk(t, c, i, v, k).value;
            Hop(t, q.config, i, v).Some? && Hop(t, q.config, i, v).value.state == Hop(t, c, i, v).value.state
  {
    hide Hop, Walk;
    var q := Walk(t, c, i, v, k).value;
    WalkSaves(t, c, i, v, k);
    if Resumes(t, q.config, i) {
      var h := HistoryOf(t, i).value;
      var x := q.config.saved[h];
      assert ParentHistory(t, x) == Some(h) && x in Path(t, i) && ParentOk(t, x);
      var j := PathOfAncestor(t, x, i);
      PathIncreasing(t, i);
    }
  }

  // ----- counting

  lemma {:induction false} Pigeonhole<T>(s: seq<T>, all: set<T>)
    requires forall x <- s :: x in all
    requires forall j, k :: 0 <= j < k < |s| ==> s[j] != s[k]
    ensures |s| <= |all|
    decreases |s|
  {
    if s != [] {
      var init, x := s[..|s| - 1], s[|s| - 1];
      assert s[|s| - 1] in s;
      forall y <- init
        ensures y in all - {x}
      {
        var k :| 0 <= k < |init| && init[k] == y;
        assert s[k] == y && s[k] in s;
      }
      Pigeonhole(init, all - {x});
    }
  }

  /** The states of a table of `n`. */
  ghost function States(n: nat): (r: set<StateId>)
    ensures |r| == n && forall i: StateId :: i in r <==> i < n
  {
    if n == 0 then {} else States(n - 1) + {n - 1}
  }

  // ----- inside one hierarchy

  /** Some state is met twice within the first |t| hops. */
  ghost predicate Revisits(t: Tree, c: Config, i: StateId, v: Value)
    requires WellFormed(t) && i < |t|
  {
    exists a: nat, b: nat :: a < b <= |t| && SameState(t, c, i, v, a, b)
  }

  /** The walk is in the same state after `a` and after `b` hops. */
  ghost predicate SameState(t: Tree, c: Config, i: StateId, v: Value, a: nat, b: nat)
    requires WellFormed(t) && i < |t|
  {
    && Walk(t, c, i, v, a).Some? && Walk(t, c, i, v, b).Some?
    && Walk(t, c, i, v, a).value.state == Walk(t, c, i, v, b).value.state
  }

  lemma SameStateNext(t: Tree, c: Config, i: StateId, v: Value, a: nat, b: nat)
    requires WellFormed(t) && OneTree(t) && i < |t| && a < b && SameState(t, c, i, v, a, b) && Walk(t, c, i, v, a + 1).Some?
    ensures SameState(t, c, i, v, a + 1, b + 1)
  {
    hide Hop, Walk;
    var p := Walk(t, c, i, v, a).value;
    WalkNext(t, c, i, v, a);
    WalkNext(t, c, i, v, b);
    WalkPlus(t, c, i, v, a, b - a);
    HopsAgain(t, p.config, p.state, v, b - a);
  }

  lemma {:induction false} RevisitRepeats(t: Tree, c: Config, i: StateId, v: Value, a: nat, b: nat, k: nat)
    requires WellFormed(t) && OneTree(t) && i < |t| && a < b && SameState(t, c, i, v, a, b)
    ensures SameState(t, c, i, v, a + k, b + k)
    decreases k
  {
    hide Hop, Walk;
    if k > 0 {
      RevisitRepeats(t, c, i, v, a, b, k - 1);
      if Walk(t, c, i, v, a + k).None? { WalkStaysOver(t, c, i, v, a + k, b + k - 1); }
      SameStateNext(t, c, i, v, a + k - 1, b + k - 1);
    }
  }

  /** A walk that ends within no bound is never over. */
  lemma NeverOver(t: Tree, c: Config, i: StateId, v: Value, n: nat)
    requires WellFormed(t) && i < |t| && Walk(t, c, i, v, n).Some?
    ensures forall k: nat :: k <= n ==> Walk(t, c, i, v, k).Some?
  {
    forall k: nat | k <= n
      ensures Walk(t, c, i, v, k).Some?
    {
      if Walk(t, c, i, v, k).None? { WalkStaysOver(t, c, i, v, k, n); }
    }
  }

  lemma NoRevisitSettles(t: Tree, c: Config, i: StateId, v: Value)
    requires WellFormed(t) && i < |t| && !Revisits(t, c, i, v)
    ensures Settles(t, c, i, v, |t| - 1)
  {
    hide Hop, Walk, Settles;
    SettlesIffWalkEnds(t, c, i, v, |t| - 1);
    if Walk(t, c, i, v, |t|).Some? {
      NeverOver(t, c, i, v, |t|);
      var s := seq(|t| + 1, k requires 0 <= k <= |t| => Walk(t, c, i, v, k).value.state);
      forall j, k | 0 <= j < k < |s|
        ensures s[j] != s[k]
      {
        assert !SameState(t, c, i, v, j, k);
      }
      Pigeonhole(s, States(|t|));
    }
  }

  /** Settling, exactly: from any state of a hierarchy, with any saved histories, it comes to rest if and only if the
      recursion meets no state twice, and then it does so in fewer hops than there are states. */
  lemma SettlesIffNoRevisit(t: Tree, c: Config, i: StateId, v: Value)
    requires WellFormed(t) && OneTree(t) && i < |t|
    ensures EventuallySettles(t, c, i, v) <==> !Revisits(t, c, i, v)
    ensures EventuallySettles(t, c, i, v) <==> Settles(t, c, i, v, |t| - 1)
  {
    hide Hop, Walk, Settles;
    if Revisits(t, c, i, v) {
      var a: nat, b: nat :| a < b <= |t| && SameState(t, c, i, v, a, b);
      forall n: nat
        ensures !Settles(t, c, i, v, n)
      {
        SettlesIffWalkEnds(t, c, i, v, n);
        RevisitRepeats(t, c, i, v, a, b, n + 1);
        NeverOver(t, c, i, v, a + n + 1);
      }
    } else {
      NoRevisitSettles(t, c, i, v);
    }
  }

  // ----- across hierarchies

  /** The walk is in the same state with the same saved histories after `a` and after `b` hops. */
  ghost predicate SamePlace(t: Tree, c: Config, i: StateId, v: Value, a: nat, b: nat)
    requires WellFormed(t) && i < |t|
  {
    SameState(t, c, i, v, a, b) && Walk(t, c, i, v, a).value.config.saved == Walk(t, c, i, v, b).value.config.saved
  }

  lemma {:induction false} ExitsBySaved(t: Tree, c: Config, d: Config, ss: seq<StateId>)
    requires WellFormed(t) && Known(t, ss) && c.saved == d.saved
    ensures ExitAll(t, c, ss).saved == ExitAll(t, d, ss).saved
    decreases |ss|
  {
    if ss != [] { ExitsBySaved(t, ExitState(t, c, ss[0]), ExitState(t, d, ss[0]), ss[1..]); }
  }

  lemma {:induction false} EntriesBySaved(t: Tree, c: Config, d: Config, ss: seq<StateId>)
    requires WellFormed(t) && Known(t, ss) && c.saved == d.saved
    ensures EnterAll(t, c, ss).saved == EnterAll(t, d, ss).saved
    decreases |ss|
  {
    if ss != [] { EntriesBySaved(t, c, d, ss[..|ss| - 1]); }
  }

  /** Where a hop leads, and what it saves, depends on nothing but the state and the saved histories. */
  lemma HopBySaved(t: Tree, c: Config, d: Config, i: StateId, v: Value)
    requires WellFormed(t) && i < |t| && c.saved == d.saved && Hop(t, c, i, v).Some?
    ensures Hop(t, d, i, v).Some? && Hop(t, d, i, v).value.state == Hop(t, c, i, v).value.state
    ensures Hop(t, d, i, v).value.config.saved == Hop(t, c, i, v).value.config.saved
  {
    hide ExitAll, EnterAll;
    var x := Hop(t, c, i, v).value.state;
    if StartOf(t, i).None? {
      var id := FirstEnabled(t[i].transitions, "", v).value.id;
      var c0, d0 := Begin(t, c, i, "", Some(i)), Begin(t, d, i, "", Some(i));
      ExitsBySaved(t, c0, d0, Exits(t, i, x));
      var c1, d1 := ExitAll(t, c0, Exits(t, i, x)), ExitAll(t, d0, Exits(t, i, x));
      EntriesBySaved(t, c1.(journal := c1.journal + [Acted(id)]), d1.(journal := d1.journal + [Acted(id)]), Entries(t, i, x));
    }
  }

  lemma {:induction false} PlaceRepeats(t: Tree, c: Config, i: StateId, v: Value, a: nat, b: nat, k: nat)
    requires WellFormed(t) && i < |t| && a < b && SamePlace(t, c, i, v, a, b)
    ensures SamePlace(t, c, i, v, a + k, b + k)
    decreases k
  {
    hide Hop, Walk;
    if k > 0 {
      PlaceRepeats(t, c, i, v, a, b, k - 1);
      if Walk(t, c, i, v, a + k).None? { WalkStaysOver(t, c, i, v, a + k, b + k - 1); }
      var p, q := Walk(t, c, i, v, a + k - 1).value, Walk(t, c, i, v, b + k - 1).value;
      WalkNext(t, c, i, v, a + k - 1);
      WalkNext(t, c, i, v, b + k - 1);
      HopBySaved(t, p.config, q.config, p.state, v);
    }
  }

  /** The maps from some of `keys` to `values`. */
  ghost function Maps(keys: set<StateId>, values: set<StateId>): set<map<StateId, StateId>>
    decreases |keys|
  {
    if keys == {} then {map[]}
    else
      var k :| k in keys;
      var rest := Maps(keys - {k}, values);
      rest + set f, x | f in rest && x in values :: f[k := x]
  }

  lemma {:induction false} InMaps(f: map<StateId, StateId>, keys: set<StateId>, values: set<StateId>)
    requires f.Keys <= keys && f.Values <= values
    ensures f in Maps(keys, values)
    decreases |keys|
  {
    if keys == {} {
      assert f == map[];
    } else {
      var k :| k in keys && Maps(keys, values) == Maps(keys - {k}, values) + set f, x | f in Maps(keys - {k}, values) && x in values :: f[k := x];
      InMaps(f - {k}, keys - {k}, values);
      if k in f {
        assert f == (f - {k})[k := f[k]] && f[k] in f.Values;
      } else {
        assert f - {k} == f;
      }
    }
  }

  /** The saved histories of a walk are maps over the states and what was saved at the start. */
  lemma {:induction false} WalkInMaps(t: Tree, c: Config, i: StateId, v: Value, k: nat, keys: set<StateId>, values: set<StateId>)
    requires WellFormed(t) && i < |t| && Walk(t, c, i, v, k).Some?
    requires c.saved.Keys <= keys && c.saved.Values <= values && forall j: StateId :: j < |t| ==> j in keys && j in values
    ensures Walk(t, c, i, v, k).value.config.saved in Maps(keys, values)
    decreases k
  {
    hide Maps;
    if k == 0 {
      InMaps(c.saved, keys, values);
    } else {
      var p := Hop(t, c, i, v).value;
      HopInMaps(t, c, i, v, keys, values);
      WalkInMaps(t, p.config, p.state, v, k - 1, keys, values);
    }
  }

  lemma HopInMaps(t: Tree, c: Config, i: StateId, v: Value, keys: set<StateId>, values: set<StateId>)
    requires WellFormed(t) && i < |t| && Hop(t, c, i, v).Some?
    requires c.saved.Keys <= keys && c.saved.Values <= values && forall j: StateId :: j < |t| ==> j in keys && j in values
    ensures Hop(t, c, i, v).value.config.saved.Keys <= keys && Hop(t, c, i, v).value.config.saved.Values <= values
  {
    hide ExitAll, EnterAll;
    var p := Hop(t, c, i, v).value;
    if StartOf(t, i).None? {
      var c0 := Begin(t, c, i, "", Some(i));
      var c1 := ExitAll(t, c0, Exits(t, i, p.state));
      var id := FirstEnabled(t[i].transitions, "", v).value.id;
      forall h <- p.config.saved
        ensures h in keys && p.config.saved[h] in values
      {
        ExitsForget(t, c0, Exits(t, i, p.state), h);
        EntriesSave(t, c1.(journal := c1.journal + [Acted(id)]), Entries(t, i, p.state), h);
        if h in c.saved { assert c.saved[h] in c.saved.Values; }
      }
    }
  }

  lemma NoSamePlaceSettles(t: Tree, c: Config, i: StateId, v: Value)
    requires WellFormed(t) && i < |t| && forall a: nat, b: nat :: a < b ==> !SamePlace(t, c, i, v, a, b)
    ensures EventuallySettles(t, c, i, v)
  {
    hide Hop, Walk, Settles, Maps;
    var states := States(|t|);
    var keys, values := c.saved.Keys + states, c.saved.Values + states;
    var all := set j: StateId, f | j in states && f in Maps(keys, values) :: (j, f);
    var n := |all|;
    SettlesIffWalkEnds(t, c, i, v, n);
    if Walk(t, c, i, v, n + 1).Some? {
      NeverOver(t, c, i, v, n + 1);
      var s := seq(n + 1, k requires 0 <= k <= n =>
        (Walk(t, c, i, v, k).value.state, Walk(t, c, i, v, k).value.config.saved));
      forall x <- s
        ensures x in all
      {
        var k :| 0 <= k < |s| && s[k] == x;
        WalkInMaps(t, c, i, v, k, keys, values);
      }
      forall j, k | 0 <= j < k < |s|
        ensures s[j] != s[k]
      {
        assert !SamePlace(t, c, i, v, j, k);
      }
      Pigeonhole(s, all);
    }
  }

  /** In any table, with transitions between hierarchies too, settling comes to rest if and only if the recursion
      never meets a state twice with the same saved histories. */
  lemma SettlesIffNoPlaceTwice(t: Tree, c: Config, i: StateId, v: Value)
    requires WellFormed(t) && i < |t|
    ensures EventuallySettles(t, c, i, v) <==> forall a: nat, b: nat :: a < b ==> !SamePlace(t, c, i, v, a, b)
  {
    hide Hop, Walk, Settles;
    if a: nat, b: nat :| a < b && SamePlace(t, c, i, v, a, b) {
      forall n: nat
        ensures !Settles(t, c, i, v, n)
      {
        SettlesIffWalkEnds(t, c, i, v, n);
        PlaceRepeats(t, c, i, v, a, b, n + 1);
        NeverOver(t, c, i, v, a + n + 1);
      }
    } else {
      NoSamePlaceSettles(t, c, i, v);
    }
  }
}
