/** Whole sequential runs of the task queue: conservation, order and the due times of repeated tasks
    (src/lib/osApplication/src/TaskQueue.cpp:35-51 and 67-106). */
module SchedulerRuns {
  import opened Options
  import opened TaskQueue

  datatype Op = PushOp(ref: TimePoint, delay: int, task: TaskId, repeated: bool) | PullOp(now: TimePoint)

  /** The queue with every entry ever pushed, repetitions included, and every entry pulled, both in order. */
  datatype Run = Run(state: State, pushed: seq<Scheduled>, pulled: seq<Scheduled>)

  const EMPTY := Run(State([], 0), [], [])

  ghost predicate Repeats(s: State, enabled: TaskId -> bool) {
    s.tasks != [] && enabled(s.tasks[0].task) && s.tasks[0].delayRepetition >= 0
  }

  /** The entry pullTask pushes again, at the due time of the pulled one. */
  ghost function Repetition(s: State): Scheduled
    requires s.tasks != []
  {
    var front := s.tasks[0];
    Pushed(State(s.tasks[1..], s.pushes), front.timestamp, front.delayRepetition, front.task, true)
  }

  ghost function Do(r: Run, op: Op, enabled: TaskId -> bool): Run {
    match op
    case PushOp(ref, delay, task, repeated) =>
      Run(Push(r.state, ref, delay, task, repeated), r.pushed + [Pushed(r.state, ref, delay, task, repeated)], r.pulled)
    case PullOp(now) =>
      var (next, task) := Pull(r.state, now, enabled);
      if task.None? then r
      else Run(next,
               r.pushed + (if Repeats(r.state, enabled) then [Repetition(r.state)] else []),
               r.pulled + [r.state.tasks[0]])
  }

  ghost function RunAll(ops: seq<Op>, enabled: TaskId -> bool): Run
    decreases |ops|
  {
    if ops == [] then EMPTY else Do(RunAll(ops[..|ops| - 1], enabled), ops[|ops| - 1], enabled)
  }

  // ----- conservation

  /** The k-th push has serial k, and what was pushed is what was pulled and what is pending. */
  ghost predicate Conserved(r: Run) {
    && Ordered(r.state)
    && |r.pushed| == r.state.pushes
    && (forall k :: 0 <= k < |r.pushed| ==> r.pushed[k].serial == k)
    && multiset(r.pushed) == multiset(r.pulled) + multiset(r.state.tasks)
  }

  lemma PullElements(r: Run, now: TimePoint, enabled: TaskId -> bool)
    requires Conserved(r)
    ensures var r' := Do(r, PullOp(now), enabled);
            multiset(r'.pushed) == multiset(r'.pulled) + multiset(r'.state.tasks)
  {
    var s := r.state;
    if s.tasks != [] && s.tasks[0].timestamp <= now {
      PopTakesLeast(s, s.tasks[0].timestamp, enabled);
      var r' := Do(r, PullOp(now), enabled);
      var again := if Repeats(s, enabled) then [Repetition(s)] else [];
      assert multiset(r'.pushed) == multiset(r.pushed) + multiset(again);
      assert multiset(r'.pulled) == multiset(r.pulled) + multiset{s.tasks[0]};
      Balance(multiset(r.pushed), multiset(r.pulled), multiset(s.tasks), multiset(r'.state.tasks), multiset{s.tasks[0]}, multiset(again));
    }
  }

  lemma Balance(pushed: multiset<Scheduled>, pulled: multiset<Scheduled>, pending: multiset<Scheduled>, left: multiset<Scheduled>,
                front: multiset<Scheduled>, again: multiset<Scheduled>)
    requires pushed == pulled + pending && left + front == pending + again
    ensures pushed + again == (pulled + front) + left
  {
    forall e: Scheduled
      ensures (pushed + again)[e] == ((pulled + front) + left)[e]
    {
      assert (left + front)[e] == (pending + again)[e];
    }
  }

  lemma PullConserves(r: Run, now: TimePoint, enabled: TaskId -> bool)
    requires Conserved(r)
    ensures Conserved(Do(r, PullOp(now), enabled))
  {
    PullElements(r, now, enabled);
    if r.state.tasks != [] { PopTakesLeast(r.state, r.state.tasks[0].timestamp, enabled); }
  }

  lemma DoConserves(r: Run, op: Op, enabled: TaskId -> bool)
    requires Conserved(r)
    ensures Conserved(Do(r, op, enabled))
  {
    match op
    case PushOp(ref, delay, task, repeated) => PushKeepsOrder(r.state, ref, delay, task, repeated);
    case PullOp(now) => PullConserves(r, now, enabled);
  }

  /** Over any run no task is lost and none is pulled twice: the serials of the pulled and the pending entries
      are those of the pushes, each once; and the list stays in the order of due time and then of push. */
  lemma {:induction false} RunsConserve(ops: seq<Op>, enabled: TaskId -> bool)
    ensures Conserved(RunAll(ops, enabled))
    decreases |ops|
  {
    if ops != [] {
      RunsConserve(ops[..|ops| - 1], enabled);
      DoConserves(RunAll(ops[..|ops| - 1], enabled), ops[|ops| - 1], enabled);
    }
  }

  // ----- repeated tasks

  ghost function Of(s: seq<Scheduled>, task: TaskId): seq<Scheduled> {
    if s == [] then [] else Of(s[..|s| - 1], task) + if s[|s| - 1].task == task then [s[|s| - 1]] else []
  }

  lemma OfAppend(s: seq<Scheduled>, x: Scheduled, task: TaskId)
    ensures Of(s + [x], task) == Of(s, task) + if x.task == task then [x] else []
  {
  }

  lemma {:induction false} OfHead(s: seq<Scheduled>, task: TaskId)
    requires s != []
    ensures Of(s, task) == (if s[0].task == task then [s[0]] else []) + Of(s[1..], task)
    decreases |s|
  {
    if |s| == 1 {
      assert s[1..] == [] && s[..0] == [];
    } else {
      OfHead(s[..|s| - 1], task);
      assert s[..|s| - 1][1..] == s[1..][..|s| - 2];
    }
  }

  lemma {:induction false} OfInsert(s: seq<Scheduled>, x: Scheduled, task: TaskId)
    ensures x.task != task ==> Of(Insert(s, x), task) == Of(s, task)
    ensures x.task == task && Of(s, task) == [] ==> Of(Insert(s, x), task) == [x]
    decreases |s|
  {
    if s == [] || s[|s| - 1].timestamp <= x.timestamp {
      OfAppend(s, x, task);
    } else {
      OfInsert(s[..|s| - 1], x, task);
      OfAppend(Insert(s[..|s| - 1], x), s[|s| - 1], task);
    }
  }

  /** No push of the user is for this task. */
  ghost predicate NotPushed(ops: seq<Op>, task: TaskId) {
    forall k :: 0 <= k < |ops| && ops[k].PushOp? ==> ops[k].task != task
  }

  /** The due time of the `n`-th repetition. */
  ghost function Beat(first: TimePoint, delay: int, n: nat): TimePoint {
    first + n * (delay * MILLISECOND)
  }

  lemma BeatStep(first: TimePoint, delay: int, n: nat)
    ensures Beat(first, delay, n + 1) == Beat(first, delay, n) + delay * MILLISECOND
  {
  }

  /** The task was pulled at every beat so far, and its one pending entry is due at the next. */
  ghost predicate InRhythm(r: Run, task: TaskId, first: TimePoint, delay: int) {
    var pulls, pending := Of(r.pulled, task), Of(r.state.tasks, task);
    && (forall k :: 0 <= k < |pulls| ==> pulls[k].timestamp == Beat(first, delay, k))
    && |pending| == 1
    && pending[0].task == task
    && pending[0].timestamp == Beat(first, delay, |pulls|)
    && pending[0].delayRepetition == delay
  }

  lemma PullKeepsRhythm(r: Run, now: TimePoint, enabled: TaskId -> bool, task: TaskId, first: TimePoint, delay: int)
    requires Conserved(r) && InRhythm(r, task, first, delay) && enabled(task) && delay >= 0
    ensures InRhythm(Do(r, PullOp(now), enabled), task, first, delay)
  {
    hide Ordered, Of, Insert, StableSort, Beat;
    var s := r.state;
    if s.tasks != [] && s.tasks[0].timestamp <= now {
      var front := s.tasks[0];
      var rest := State(s.tasks[1..], s.pushes);
      TailOrdered(s);
      OfHead(s.tasks, task);
      OfAppend(r.pulled, front, task);
      if Repeats(s, enabled) {
        PushInserts(rest, front.timestamp, front.delayRepetition, front.task, true);
        OfInsert(rest.tasks, Repetition(s), task);
      }
      BeatStep(first, delay, |Of(r.pulled, task)|);
    }
  }

  lemma DoKeepsRhythm(r: Run, op: Op, enabled: TaskId -> bool, task: TaskId, first: TimePoint, delay: int)
    requires Conserved(r) && InRhythm(r, task, first, delay) && enabled(task) && delay >= 0
    requires op.PushOp? ==> op.task != task
    ensures InRhythm(Do(r, op, enabled), task, first, delay)
  {
    match op
    case PullOp(now) => PullKeepsRhythm(r, now, enabled, task, first, delay);
    case PushOp(ref, d, other, repeated) =>
      PushInserts(r.state, ref, d, other, repeated);
      OfInsert(r.state.tasks, Pushed(r.state, ref, d, other, repeated), task);
  }

  lemma {:induction false} UnpushedIsAbsent(ops: seq<Op>, enabled: TaskId -> bool, task: TaskId)
    requires NotPushed(ops, task)
    ensures Of(RunAll(ops, enabled).pulled, task) == [] && Of(RunAll(ops, enabled).state.tasks, task) == []
    decreases |ops|
  {
    if ops != [] {
      var init, op := ops[..|ops| - 1], ops[|ops| - 1];
      UnpushedIsAbsent(init, enabled, task);
      RunsConserve(init, enabled);
      AbsentStep(RunAll(init, enabled), op, enabled, task);
    }
  }

  lemma AbsentStep(r: Run, op: Op, enabled: TaskId -> bool, task: TaskId)
    requires Conserved(r) && Of(r.pulled, task) == [] && Of(r.state.tasks, task) == []
    requires op.PushOp? ==> op.task != task
    ensures Of(Do(r, op, enabled).pulled, task) == [] && Of(Do(r, op, enabled).state.tasks, task) == []
  {
    hide Ordered, Of, Insert, StableSort;
    var s := r.state;
    if op.PushOp? {
      PushInserts(s, op.ref, op.delay, op.task, op.repeated);
      OfInsert(s.tasks, Pushed(s, op.ref, op.delay, op.task, op.repeated), task);
    } else if s.tasks != [] && s.tasks[0].timestamp <= op.now {
      var front := s.tasks[0];
      TailOrdered(s);
      OfHead(s.tasks, task);
      OfAppend(r.pulled, front, task);
      if Repeats(s, enabled) {
        PushInserts(State(s.tasks[1..], s.pushes), front.timestamp, front.delayRepetition, front.task, true);
        OfInsert(s.tasks[1..], Repetition(s), task);
      }
    }
  }

  lemma {:induction false} RhythmContinues(start: seq<Op>, after: seq<Op>, enabled: TaskId -> bool, task: TaskId, first: TimePoint, delay: int)
    requires InRhythm(RunAll(start, enabled), task, first, delay)
    requires NotPushed(after, task) && enabled(task) && delay >= 0
    ensures InRhythm(RunAll(start + after, enabled), task, first, delay)
    decreases |after|
  {
    hide InRhythm, RunAll, Do, Conserved;
    if after == [] {
      assert start + after == start;
    } else {
      var init, op := after[..|after| - 1], after[|after| - 1];
      RhythmContinues(start, init, enabled, task, first, delay);
      RunsConserve(start + init, enabled);
      DoKeepsRhythm(RunAll(start + init, enabled), op, enabled, task, first, delay);
      RunLast(start + init, op, enabled);
      assert start + after == (start + init) + [op];
    }
  }

  /** An enabled task pushed once, to be repeated, is pulled the k-th time (from 0) with the due time `first` plus
      k delays, where `first` is its first due time; how late each pull was plays no part. */
  lemma RepeatsKeepTime(before: seq<Op>, ref: TimePoint, delay: int, task: TaskId, after: seq<Op>, enabled: TaskId -> bool)
    requires NotPushed(before, task) && NotPushed(after, task) && enabled(task) && delay >= 0
    ensures InRhythm(RunAll((before + [PushOp(ref, delay, task, true)]) + after, enabled), task, ref + delay * MILLISECOND, delay)
  {
    hide InRhythm, RunAll, Do, Conserved;
    var push := PushOp(ref, delay, task, true);
    RunsConserve(before, enabled);
    UnpushedIsAbsent(before, enabled, task);
    FirstPush(RunAll(before, enabled), ref, delay, task, enabled);
    RunLast(before, push, enabled);
    RhythmContinues(before + [push], after, enabled, task, ref + delay * MILLISECOND, delay);
  }

  lemma RunLast(ops: seq<Op>, op: Op, enabled: TaskId -> bool)
    ensures RunAll(ops + [op], enabled) == Do(RunAll(ops, enabled), op, enabled)
  {
  }

  lemma FirstPush(r: Run, ref: TimePoint, delay: int, task: TaskId, enabled: TaskId -> bool)
    requires Conserved(r) && Of(r.pulled, task) == [] && Of(r.state.tasks, task) == [] && delay >= 0
    ensures InRhythm(Do(r, PushOp(ref, delay, task, true), enabled), task, ref + delay * MILLISECOND, delay)
  {
    PushInserts(r.state, ref, delay, task, true);
    OfInsert(r.state.tasks, Pushed(r.state, ref, delay, task, true), task);
  }
}
