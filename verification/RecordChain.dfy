/** The records of one event (src/lib/osStateMachine/src/StateMachine.cpp:35-74 and 236-247): when every state
    carries the delegate they form a chain of transitions that ends in the new current state. */
module RecordChain {
  import opened Options
  import opened StateTree
  import opened Reconfiguration
  import opened Lookup
  import opened Engine
  import opened History
  import opened Balance
  import opened Quiescence

  ghost predicate AllObserved(t: Tree) {
    forall i: StateId :: i < |t| ==> t[i].observed
  }

  /** No implicit transition is internal. */
  ghost predicate ImplicitsMove(t: Tree) {
    forall i: StateId, tr :: i < |t| && tr in t[i].transitions && tr.event == "" ==> tr.target.Some?
  }

  /** A chain of complete records that starts in `from` and ends in `to`. */
  ghost predicate Links(rs: seq<Record>, from: string, to: string) {
    if rs == [] then from == to
    else rs[0].from == Some(from) && rs[0].to.Some? && Links(rs[1..], rs[0].to.value, to)
  }

  lemma {:induction false} LinksJoin(xs: seq<Record>, ys: seq<Record>, a: string, b: string, c: string)
    requires Links(xs, a, b) && Links(ys, b, c)
    ensures Links(xs + ys, a, c)
    decreases |xs|
  {
    if xs == [] {
      assert xs + ys == ys;
    } else {
      assert (xs + ys)[1..] == xs[1..] + ys;
      LinksJoin(xs[1..], ys, xs[0].to.value, b, c);
    }
  }

  /** `c'` has the records of `c` and then a chain from state `i` to state `j`. */
  ghost predicate Extends(t: Tree, c: Config, c': Config, i: StateId, j: StateId)
    requires WellFormed(t) && i < |t| && j < |t|
  {
    c.records <= c'.records && Links(c'.records[|c.records|..], FullName(t, i), FullName(t, j))
  }

  lemma ExtendsJoin(t: Tree, c: Config, c': Config, c'': Config, i: StateId, j: StateId, k: StateId)
    requires WellFormed(t) && i < |t| && j < |t| && k < |t| && Extends(t, c, c', i, j) && Extends(t, c', c'', j, k)
    ensures Extends(t, c, c'', i, k)
  {
    var n, m := |c.records|, |c'.records|;
    LinksJoin(c'.records[n..], c''.records[m..], FullName(t, i), FullName(t, j), FullName(t, k));
    assert c''.records[n..] == c'.records[n..] + c''.records[m..];
  }

  /** Exits, entries and actions add no record. */
  lemma {:induction false} EffectsKeepRecords(t: Tree, c: Config, ss: seq<StateId>)
    requires WellFormed(t) && Known(t, ss)
    ensures ExitAll(t, c, ss).records == c.records && EnterAll(t, c, ss).records == c.records
    decreases |ss|
  {
    if ss != [] {
      EffectsKeepRecords(t, ExitState(t, c, ss[0]), ss[1..]);
      EffectsKeepRecords(t, c, ss[..|ss| - 1]);
    }
  }

  /** onBeginTransition and onEndTransition around a move from `i` to `j` add one link. */
  lemma BracketAddsLink(t: Tree, c: Config, c': Config, i: StateId, j: StateId, event: string)
    requires WellFormed(t) && AllObserved(t) && i < |t| && j < |t|
    requires c'.records == Begin(t, c, i, event, Some(i)).records
    ensures Extends(t, c, Finish(t, c', i, Some(j)), i, j)
    ensures Finish(t, c', i, Some(j)).records[|c.records|..]
            == [Record(if event == "" then None else Some(event), Some(FullName(t, i)), Some(FullName(t, j)))]
  {
  }

  lemma FireAddsLink(t: Tree, c: Config, i: StateId, event: string, id: nat, to: StateId)
    requires WellFormed(t) && AllObserved(t) && i < |t| && to < |t|
    ensures Extends(t, c, Fire(t, c, i, event, id, to), i, to)
    ensures |Fire(t, c, i, event, id, to).records| == |c.records| + 1
    ensures Fire(t, c, i, event, id, to).records[|c.records|].event == if event == "" then None else Some(event)
  {
    var c0 := Begin(t, c, i, event, Some(i));
    var c1 := ExitAll(t, c0, Exits(t, i, to));
    EffectsKeepRecords(t, c0, Exits(t, i, to));
    var c2 := c1.(journal := c1.journal + [Acted(id)]);
    EffectsKeepRecords(t, c2, Entries(t, i, to));
    var c3 := EnterAll(t, c2, Entries(t, i, to));
    BracketAddsLink(t, c, c3, i, to, event);
    assert Fire(t, c, i, event, id, to).records[|c.records|..][0] == Fire(t, c, i, event, id, to).records[|c.records|];
  }

  /** A hop adds the link it goes along. */
  lemma HopAddsLink(t: Tree, c: Config, i: StateId, v: Value)
    requires WellFormed(t) && AllObserved(t) && i < |t| && Hop(t, c, i, v).Some?
    ensures Extends(t, c, Hop(t, c, i, v).value.config, i, Hop(t, c, i, v).value.state)
  {
    hide Fire, Extends, Begin, Finish;
    var x := Hop(t, c, i, v).value.state;
    if StartOf(t, i).Some? {
      BracketAddsLink(t, c, Begin(t, c, i, "", Some(i)), i, x, "");
    } else {
      FireAddsLink(t, c, i, "", FirstEnabled(t[i].transitions, "", v).value.id, x);
    }
  }

  /** A chain continues from where its first part ends. */
  lemma {:induction false} LinksSplit(xs: seq<Record>, ys: seq<Record>, a: string, b: string, c: string)
    requires Links(xs, a, b) && Links(xs + ys, a, c)
    ensures Links(ys, b, c)
    decreases |xs|
  {
    if xs == [] {
      assert xs + ys == ys;
    } else {
      assert (xs + ys)[1..] == xs[1..] + ys;
      LinksSplit(xs[1..], ys, xs[0].to.value, b, c);
    }
  }

  lemma ExtendsIff(t: Tree, c: Config, c': Config, c'': Config, i: StateId, j: StateId, k: StateId)
    requires WellFormed(t) && i < |t| && j < |t| && k < |t| && Extends(t, c, c', i, j) && c'.records <= c''.records
    ensures Extends(t, c, c'', i, k) <==> Extends(t, c', c'', j, k)
  {
    var n, m := |c.records|, |c'.records|;
    assert c''.records[n..] == c'.records[n..] + c''.records[m..];
    if Extends(t, c, c'', i, k) {
      LinksSplit(c'.records[n..], c''.records[m..], FullName(t, i), FullName(t, j), FullName(t, k));
    } else if Extends(t, c', c'', j, k) {
      ExtendsJoin(t, c, c', c'', i, j, k);
    }
  }

  /** The end of the recursion at `p` keeps the records linked. It does not where a composite state resumes its history,
      whose record starts in the history state; where a history state that was itself the target hands over to a state of
      another name, for which there is no record; and where an internal implicit transition leaves its record open. */
  predicate Closes(t: Tree, p: Point, v: Value)
    requires WellFormed(t) && p.state < |t|
  {
    match t[p.state].kind
    case End => true
    case History =>
      Resumption(t, p).Some? && Resumption(t, p).value < |t| ==> FullName(t, p.state) == FullName(t, Resumption(t, p).value)
    case _ => !Resumes(t, p.config, p.state) && FirstEnabled(t[p.state].transitions, "", v).None?
  }

  lemma HistoryNameDiffers(t: Tree, i: StateId)
    requires WellFormed(t) && i < |t| && HistoryOf(t, i).Some?
    ensures |FullName(t, HistoryOf(t, i).value)| > |FullName(t, i)|
  {
  }

  lemma HaltAnyLinksIff(t: Tree, c: Config, i: StateId, v: Value)
    requires WellFormed(t) && AllObserved(t) && i < |t| && Hop(t, c, i, v).None?
    requires Landing(Halt(t, c, i, v), i) < |t|
    ensures c.records <= Halt(t, c, i, v).config.records
    ensures Extends(t, c, Halt(t, c, i, v).config, i, Landing(Halt(t, c, i, v), i)) <==> Closes(t, Point(i, c), v)
  {
    hide FullName, Hop;
    assert ParentOk(t, i);
    var c' := Halt(t, c, i, v).config;
    if t[i].kind.End? {
      BracketAddsLink(t, c, Begin(t, c, i, "", Some(i)), i, t[i].parent.value, "");
    } else if t[i].kind.History? {
      assert c'.records[|c.records|..] == [];
    } else if Resumes(t, c, i) {
      HistoryNameDiffers(t, i);
      var h := HistoryOf(t, i).value;
      assert c'.records[|c.records|..][0].from == Some(FullName(t, h));
    } else if FirstEnabled(t[i].transitions, "", v).Some? {
      assert c'.records[|c.records|..][0].to == None;
    } else {
      assert c'.records[|c.records|..] == [];
    }
  }

  /** The records settling adds lead, end to end, from the state it starts in to the state it lands on, if and only if the
      recursion ends where the records stay linked. */
  lemma {:induction false} SettleLinksIff(t: Tree, c: Config, i: StateId, v: Value, n: nat)
    requires WellFormed(t) && AllObserved(t) && i < |t| && Settles(t, c, i, v, n) && Remembers(t, c)
    ensures Landing(Settle(t, c, i, v, n), i) < |t|
    ensures c.records <= Settle(t, c, i, v, n).config.records
    ensures Extends(t, c, Settle(t, c, i, v, n).config, i, Landing(Settle(t, c, i, v, n), i)) <==> Closes(t, Rest(t, c, i, v, n), v)
    decreases n
  {
    hide Hop, Halt, Extends, Remembers, Closes;
    RestIsQuiescentIff(t, c, i, v, n);
    var p := Hop(t, c, i, v);
    if p.Some? {
      SettlesNext(t, c, i, v, n);
      var c', x := p.value.config, p.value.state;
      HopRemembers(t, c, i, v);
      HopAddsLink(t, c, i, v);
      ExtendsIsLonger(t, c, c', i, x);
      SettleLinksIff(t, c', x, v, n - 1);
      ExtendsIff(t, c, c', Settle(t, c', x, v, n - 1).config, i, x, Landing(Settle(t, c', x, v, n - 1), x));
    } else {
      HaltAnyLinksIff(t, c, i, v);
    }
  }

  lemma ExtendsIsLonger(t: Tree, c: Config, c': Config, i: StateId, j: StateId)
    requires WellFormed(t) && i < |t| && j < |t| && Extends(t, c, c', i, j)
    ensures c.records <= c'.records
  {
  }

  /** The records of an externally handled event: the first names the event and starts in the owner, and they lead, end to
      end, to the machine's new current state if and only if the recursion ends where the records stay linked. */
  lemma EventRecordsLinkIff(t: Tree, m: Machine, e: Event, n: nat)
    requires WellFormed(t) && AllObserved(t) && m.current < |t| && Remembers(t, m.config)
    requires e.name != "" && Reacts(t, m.config, m.current, e.name, e.value, n) && m.config.records == []
    requires Owner(t, m.current, e.name, e.value).Some?
    requires FirstEnabled(t[Owner(t, m.current, e.name, e.value).value].transitions, e.name, e.value).value.target.Some?
    ensures var r := React(t, m.config, m.current, e.name, e.value, n);
            var o := Owner(t, m.current, e.name, e.value).value;
            var tr := FirstEnabled(t[o].transitions, e.name, e.value).value;
            && r.next.Some? && r.next.value < |t|
            && r.config.records != [] && r.config.records[0].event == Some(e.name)
            && r.config.records[0].from == Some(FullName(t, o))
            && (Links(r.config.records, FullName(t, o), FullName(t, r.next.value))
                <==> Closes(t, Rest(t, Fire(t, m.config, o, e.name, tr.id, tr.target.value), tr.target.value, e.value, n), e.value))
  {
    hide Fire, Settle, Settles, Closes, Rest, Remembers, Owner, FirstEnabled;
    var o := Owner(t, m.current, e.name, e.value).value;
    var tr := FirstEnabled(t[o].transitions, e.name, e.value).value;
    var x := tr.target.value;
    var c' := Fire(t, m.config, o, e.name, tr.id, x);
    FireAddsLink(t, m.config, o, e.name, tr.id, x);
    FireRemembers(t, m.config, o, e.name, tr.id, x);
    SettleLinksIff(t, c', x, e.value, n);
    var r := Settle(t, c', x, e.value, n);
    ExtendsIff(t, m.config, c', r.config, o, x, Landing(r, x));
    assert r.config.records[0..] == r.config.records && c'.records[0..] == c'.records;
    assert r.config.records[0] == c'.records[0];
  }

  /** Without history states and internal implicit transitions they always do. */
  lemma AlwaysCloses(t: Tree, p: Point, v: Value)
    requires WellFormed(t) && HistoryFree(t) && ImplicitsMove(t) && p.state < |t| && Hop(t, p.config, p.state, v).None?
    ensures Closes(t, p, v)
  {
    assert TargetsOk(t, p.state);
  }
}
