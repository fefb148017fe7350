/** The task queue in sequential use: src/lib/osApplication/src/TaskQueue.cpp. */
module TaskQueue {
  import opened Options

  type TaskId = nat

  /** Clock ticks, and the number of them in a millisecond; delays are in milliseconds. */
  type TimePoint = int
  const MILLISECOND: int := 10_000

  /** std::chrono::milliseconds::min(), which asks for an immediate task. */
  const IMMEDIATE: int := -0x8000_0000_0000_0000

  /** `serial` counts the pushes; the program does not store it and nothing below decides on it. */
  datatype Scheduled = Scheduled(timestamp: TimePoint, task: TaskId, delayRepetition: int, serial: nat)

  // ----- std::list::sort with a comparison of timestamps

  /** Insertion after everything that is not later. */
  function Insert(s: seq<Scheduled>, x: Scheduled): (r: seq<Scheduled>)
    ensures |r| == |s| + 1
    decreases |s|
  {
    if s == [] || s[|s| - 1].timestamp <= x.timestamp then s + [x]
    else Insert(s[..|s| - 1], x) + [s[|s| - 1]]
  }

  function StableSort(s: seq<Scheduled>): (r: seq<Scheduled>)
    ensures |r| == |s|
    decreases |s|
  {
    if s == [] then [] else Insert(StableSort(s[..|s| - 1]), s[|s| - 1])
  }

  ghost predicate SortedByTime(s: seq<Scheduled>) {
    forall i, j :: 0 <= i < j < |s| ==> s[i].timestamp <= s[j].timestamp
  }

  /** The elements of one timestamp, in order. */
  ghost function At(s: seq<Scheduled>, t: TimePoint): seq<Scheduled> {
    if s == [] then [] else At(s[..|s| - 1], t) + if s[|s| - 1].timestamp == t then [s[|s| - 1]] else []
  }

  lemma {:induction false} InsertSorted(s: seq<Scheduled>, x: Scheduled)
    requires SortedByTime(s)
    ensures SortedByTime(Insert(s, x))
    ensures forall e <- Insert(s, x) :: e in s || e == x
    decreases |s|
  {
    if s != [] && s[|s| - 1].timestamp > x.timestamp {
      var init := s[..|s| - 1];
      InsertSorted(init, x);
      forall e <- Insert(init, x)
        ensures e.timestamp <= s[|s| - 1].timestamp
      {
        if e in init { assert e in s; }
      }
    }
  }

  lemma {:induction false} InsertKeepsTies(s: seq<Scheduled>, x: Scheduled, t: TimePoint)
    ensures At(Insert(s, x), t) == At(s, t) + if x.timestamp == t then [x] else []
    decreases |s|
  {
    if s == [] || s[|s| - 1].timestamp <= x.timestamp {
      assert (s + [x])[..|s|] == s;
    } else {
      var init, last := s[..|s| - 1], s[|s| - 1];
      InsertKeepsTies(init, x, t);
      assert (Insert(init, x) + [last])[..|s|] == Insert(init, x);
    }
  }

  /** The sort is sorted and stable: the elements of each timestamp keep their order. */
  lemma {:induction false} StableSortIsStable(s: seq<Scheduled>, t: TimePoint)
    ensures SortedByTime(StableSort(s)) && At(StableSort(s), t) == At(s, t)
    decreases |s|
  {
    if s != [] {
      StableSortIsStable(s[..|s| - 1], t);
      InsertSorted(StableSort(s[..|s| - 1]), s[|s| - 1]);
      InsertKeepsTies(StableSort(s[..|s| - 1]), s[|s| - 1], t);
    }
  }

  lemma InsertLast(s: seq<Scheduled>, x: Scheduled)
    requires s == [] || s[|s| - 1].timestamp <= x.timestamp
    ensures Insert(s, x) == s + [x]
  {
  }

  lemma {:induction false} SortedIsFixed(s: seq<Scheduled>)
    requires SortedByTime(s)
    ensures StableSort(s) == s
    decreases |s|
  {
    hide Insert;
    if s != [] {
      var init := s[..|s| - 1];
      SortedIsFixed(init);
      InsertLast(init, s[|s| - 1]);
      assert s == init + [s[|s| - 1]];
    }
  }

  // ----- operations

  /** The pending tasks, and how many pushes there were. */
  datatype State = State(tasks: seq<Scheduled>, pushes: nat)

  ghost predicate Sorted(s: State) {
    SortedByTime(s.tasks)
  }

  /** The due time of a pushed task. */
  function DueTime(s: State, ref: TimePoint, delay: int): TimePoint {
    if delay == IMMEDIATE then
      if s.tasks == [] then ref
      else (if ref < s.tasks[0].timestamp then ref else s.tasks[0].timestamp) - MILLISECOND
    else ref + delay * MILLISECOND
  }

  function Pushed(s: State, ref: TimePoint, delay: int, task: TaskId, repeated: bool): Scheduled {
    Scheduled(DueTime(s, ref, delay), task, if repeated then delay else IMMEDIATE, s.pushes)
  }

  function Push(s: State, ref: TimePoint, delay: int, task: TaskId, repeated: bool): State {
    State(StableSort(s.tasks + [Pushed(s, ref, delay, task, repeated)]), s.pushes + 1)
  }

  /** popTask: the front task, and the queue with its next repetition if it has one. */
  function Pop(s: State, timeStamp: TimePoint, enabled: TaskId -> bool): State
    requires s.tasks != []
  {
    var front := s.tasks[0];
    var rest := State(s.tasks[1..], s.pushes);
    if enabled(front.task) && front.delayRepetition >= 0 then
      Push(rest, timeStamp, front.delayRepetition, front.task, true)
    else rest
  }

  /** pullTask: what it returns, and the queue afterwards. */
  function Pull(s: State, now: TimePoint, enabled: TaskId -> bool): (State, Option<TaskId>) {
    if s.tasks == [] || s.tasks[0].timestamp > now then (s, None)
    else (Pop(s, s.tasks[0].timestamp, enabled), Some(s.tasks[0].task))
  }

  class TaskQueue {
    var scheduledTasks: seq<Scheduled>
    var pushes: nat
    var lastTimeStamp: TimePoint

    ghost function Snapshot(): State
      reads this
    {
      State(scheduledTasks, pushes)
    }

    constructor ()
      ensures Snapshot() == State([], 0)
    {
      scheduledTasks, pushes, lastTimeStamp := [], 0, -0x8000_0000_0000_0000;
    }

    method PushScheduledTask(timeStampRef: TimePoint, delay: int, task: Option<TaskId>, repeated: bool) returns (r: Option<TaskId>)
      modifies this`scheduledTasks, this`pushes
      ensures r == task
      ensures Snapshot() == if task.None? then old(Snapshot()) else Push(old(Snapshot()), timeStampRef, delay, task.value, repeated)
    {
      if task.None? {
        return None;
      }
      var timeStamp: TimePoint;
      if delay == IMMEDIATE {
        if scheduledTasks == [] {
          timeStamp := timeStampRef;
        } else {
          var front := scheduledTasks[0].timestamp;
          timeStamp := (if timeStampRef < front then timeStampRef else front) - MILLISECOND;
        }
      } else {
        timeStamp := timeStampRef + delay * MILLISECOND;
      }
      scheduledTasks := scheduledTasks + [Scheduled(timeStamp, task.value, if repeated then delay else IMMEDIATE, pushes)];
      scheduledTasks := StableSort(scheduledTasks);
      pushes := pushes + 1;
      r := task;
    }

    method PopTask(timeStamp: TimePoint, enabled: TaskId -> bool) returns (task: TaskId)
      requires scheduledTasks != []
      modifies this`scheduledTasks, this`pushes
      ensures task == old(scheduledTasks)[0].task
      ensures Snapshot() == Pop(old(Snapshot()), timeStamp, enabled)
    {
      var scheduled := scheduledTasks[0];
      scheduledTasks := scheduledTasks[1..];
      task := scheduled.task;
      if enabled(task) && scheduled.delayRepetition >= 0 {
        var pushed := PushScheduledTask(timeStamp, scheduled.delayRepetition, Some(task), true);
      }
    }

    /** pullTask at clock time `now` */
    method PullTask(now: TimePoint, enabled: TaskId -> bool) returns (task: Option<TaskId>)
      modifies this
      ensures (Snapshot(), task) == Pull(old(Snapshot()), now, enabled)
    {
      if scheduledTasks == [] {
        return None;
      }
      var taskTimestamp := scheduledTasks[0].timestamp;
      if taskTimestamp > now {
        return None;
      }
      lastTimeStamp := taskTimestamp;
      var pulled := PopTask(taskTimestamp, enabled);
      task := Some(pulled);
    }

    method ClearTasks()
      modifies this`scheduledTasks
      ensures scheduledTasks == []
    {
      scheduledTasks := [];
    }
  }

  // ----- order

  /** Earlier, or equally early and pushed before. */
  ghost predicate Before(a: Scheduled, b: Scheduled) {
    a.timestamp < b.timestamp || (a.timestamp == b.timestamp && a.serial < b.serial)
  }

  /** The list is in the order of due time and then of push. */
  ghost predicate Ordered(s: State) {
    InOrder(s.tasks) && forall e <- s.tasks :: e.serial < s.pushes
  }

  lemma {:induction false} InsertElements(s: seq<Scheduled>, x: Scheduled)
    ensures multiset(Insert(s, x)) == multiset(s) + multiset{x}
    ensures forall e <- Insert(s, x) :: e in s || e == x
    decreases |s|
  {
    if s != [] && s[|s| - 1].timestamp > x.timestamp {
      var init := s[..|s| - 1];
      assert s == init + [s[|s| - 1]];
      InsertElements(init, x);
    }
  }

  ghost predicate InOrder(s: seq<Scheduled>) {
    forall i, j :: 0 <= i < j < |s| ==> Before(s[i], s[j])
  }

  lemma InOrderAppend(s: seq<Scheduled>, x: Scheduled)
    requires InOrder(s) && forall e <- s :: Before(e, x)
    ensures InOrder(s + [x])
  {
  }

  lemma LastIsLatest(init: seq<Scheduled>, last: Scheduled)
    requires InOrder(init + [last])
    ensures InOrder(init) && forall e <- init :: Before(e, last)
  {
    forall i, j | 0 <= i < j < |init + [last]|
      ensures Before((init + [last])[i], (init + [last])[j])
    {
    }
    forall e <- init
      ensures Before(e, last)
    {
      var i :| 0 <= i < |init| && init[i] == e;
      assert Before((init + [last])[i], (init + [last])[|init|]);
    }
    forall i, j | 0 <= i < j < |init|
      ensures Before(init[i], init[j])
    {
      assert Before((init + [last])[i], (init + [last])[j]);
    }
  }

  lemma {:induction false} InsertOrdered(s: seq<Scheduled>, x: Scheduled)
    requires InOrder(s) && forall e <- s :: e.serial < x.serial
    ensures InOrder(Insert(s, x))
    decreases |s|
  {
    if s != [] {
      var init, last := s[..|s| - 1], s[|s| - 1];
      assert s == init + [last];
      LastIsLatest(init, last);
      if last.timestamp > x.timestamp {
        InsertOrdered(init, x);
        InsertElements(init, x);
        InOrderAppend(Insert(init, x), last);
      } else {
        InOrderAppend(s, x);
      }
    }
  }

  /** What is due before everything else goes in front of it. */
  lemma {:induction false} InsertInFront(s: seq<Scheduled>, x: Scheduled)
    requires forall e <- s :: x.timestamp < e.timestamp
    ensures Insert(s, x) == [x] + s
    decreases |s|
  {
    if s != [] {
      var init, last := s[..|s| - 1], s[|s| - 1];
      assert last in s && forall e <- init :: e in s;
      InsertInFront(init, x);
      assert s == init + [last];
    }
  }

  lemma OrderedIsSorted(s: State)
    requires Ordered(s)
    ensures Sorted(s)
  {
  }

  lemma ImmediateInFront(s: State, ref: TimePoint, task: TaskId, repeated: bool)
    requires Ordered(s)
    ensures Insert(s.tasks, Pushed(s, ref, IMMEDIATE, task, repeated)) == [Pushed(s, ref, IMMEDIATE, task, repeated)] + s.tasks
  {
    var x := Pushed(s, ref, IMMEDIATE, task, repeated);
    forall e <- s.tasks
      ensures x.timestamp < e.timestamp
    {
      var i :| 0 <= i < |s.tasks| && s.tasks[i] == e;
      assert i > 0 ==> Before(s.tasks[0], s.tasks[i]);
    }
    InsertInFront(s.tasks, x);
  }

  lemma PushInserts(s: State, ref: TimePoint, delay: int, task: TaskId, repeated: bool)
    requires Ordered(s)
    ensures Push(s, ref, delay, task, repeated).tasks == Insert(s.tasks, Pushed(s, ref, delay, task, repeated))
  {
    OrderedIsSorted(s);
    SortedIsFixed(s.tasks);
    var x := Pushed(s, ref, delay, task, repeated);
    assert (s.tasks + [x])[..|s.tasks|] == s.tasks;
  }

  lemma TailOrdered(q: State)
    requires Ordered(q) && q.tasks != []
    ensures Ordered(State(q.tasks[1..], q.pushes))
  {
  }

  /** A push keeps the order, adds exactly the pushed task, and an immediate push goes in front of everything pending. */
  lemma PushKeepsOrder(s: State, ref: TimePoint, delay: int, task: TaskId, repeated: bool)
    requires Ordered(s)
    ensures var s', x := Push(s, ref, delay, task, repeated), Pushed(s, ref, delay, task, repeated);
            && Ordered(s')
            && multiset(s'.tasks) == multiset(s.tasks) + multiset{x}
            && (delay == IMMEDIATE ==> s'.tasks == [x] + s.tasks)
  {
    var x := Pushed(s, ref, delay, task, repeated);
    PushInserts(s, ref, delay, task, repeated);
    InsertElements(s.tasks, x);
    InsertOrdered(s.tasks, x);
    if delay == IMMEDIATE { ImmediateInFront(s, ref, task, repeated); }
  }

  lemma FrontIsLeast(s: State, e: Scheduled)
    requires Ordered(s) && e in s.tasks
    ensures e == s.tasks[0] || Before(s.tasks[0], e)
  {
    var i :| 0 <= i < |s.tasks| && s.tasks[i] == e;
    assert i > 0 ==> Before(s.tasks[0], s.tasks[i]);
  }

  /** The front is the least pending task in the order of due time and then of push, and a pop removes just it. */
  lemma PopTakesLeast(s: State, timeStamp: TimePoint, enabled: TaskId -> bool)
    requires Ordered(s) && s.tasks != []
    ensures Ordered(Pop(s, timeStamp, enabled))
    ensures forall e <- s.tasks :: e == s.tasks[0] || Before(s.tasks[0], e)
    ensures var front := s.tasks[0];
            var rest := State(s.tasks[1..], s.pushes);
            multiset(Pop(s, timeStamp, enabled).tasks) + multiset{front} == multiset(s.tasks)
            + (if enabled(front.task) && front.delayRepetition >= 0
               then multiset{Pushed(rest, timeStamp, front.delayRepetition, front.task, true)} else multiset{})
  {
    hide Ordered, Push;
    TailOrdered(s);
    forall e <- s.tasks
      ensures e == s.tasks[0] || Before(s.tasks[0], e)
    {
      FrontIsLeast(s, e);
    }
    var front := s.tasks[0];
    var rest := State(s.tasks[1..], s.pushes);
    assert s.tasks == [front] + rest.tasks;
    if enabled(front.task) && front.delayRepetition >= 0 {
      PushKeepsOrder(rest, timeStamp, front.delayRepetition, front.task, true);
    }
  }

  // ----- when a pushed task is due

  /** A delayed task is due its delay after the reference time, ten thousand ticks a millisecond. An immediate one is due at
      the reference time if nothing is pending, and otherwise one millisecond before the earlier of that and the front. */
  lemma DueTimeIs(s: State, ref: TimePoint, delay: int, task: TaskId, repeated: bool)
    ensures var due := Pushed(s, ref, delay, task, repeated).timestamp;
            && (delay != IMMEDIATE ==> due - ref == delay * 10_000)
            && (delay == IMMEDIATE && s.tasks == [] ==> due == ref)
            && (delay == IMMEDIATE && s.tasks != [] ==>
                  due + 10_000 <= ref && due + 10_000 <= s.tasks[0].timestamp
                  && (due + 10_000 == ref || due + 10_000 == s.tasks[0].timestamp))
    ensures Pushed(s, ref, delay, task, repeated).task == task
    ensures Pushed(s, ref, delay, task, repeated).delayRepetition >= 0 <==> repeated && delay >= 0
    ensures repeated ==> Pushed(s, ref, delay, task, repeated).delayRepetition == delay
  {
  }

  /** A pull takes a task exactly when some pending one is due, and then the first of them in the order of due time and of
      push. */
  lemma PullIff(s: State, now: TimePoint, enabled: TaskId -> bool)
    requires Ordered(s)
    ensures Pull(s, now, enabled).1.Some? <==> exists e :: e in s.tasks && e.timestamp <= now
    ensures Pull(s, now, enabled).1.Some? ==>
              s.tasks != [] && Pull(s, now, enabled).1 == Some(s.tasks[0].task) && s.tasks[0].timestamp <= now
              && forall e <- s.tasks :: e == s.tasks[0] || Before(s.tasks[0], e)
    ensures Pull(s, now, enabled).1.None? ==> Pull(s, now, enabled).0 == s
  {
    forall e <- s.tasks
      ensures e == s.tasks[0] || Before(s.tasks[0], e)
    {
      FrontIsLeast(s, e);
    }
    if s.tasks != [] { assert s.tasks[0] in s.tasks; }
  }

  /** An immediate task is the very next to be pulled, by any pull at its reference time or later. */
  lemma ImmediateIsNext(s: State, ref: TimePoint, task: TaskId, repeated: bool, now: TimePoint, enabled: TaskId -> bool)
    requires Ordered(s) && now >= ref
    ensures Pull(Push(s, ref, IMMEDIATE, task, repeated), now, enabled).1 == Some(task)
  {
    PushKeepsOrder(s, ref, IMMEDIATE, task, repeated);
    DueTimeIs(s, ref, IMMEDIATE, task, repeated);
  }

  /** A delayed task that waits alone is pulled from its due time on and not before; afterwards nothing waits, unless it is
      enabled and to be repeated, and then it waits again for one more delay. */
  lemma DelayedIsPulledWhenDue(n: nat, ref: TimePoint, delay: int, task: TaskId, repeated: bool, now: TimePoint, enabled: TaskId -> bool)
    requires delay != IMMEDIATE
    ensures var r := Pull(Push(State([], n), ref, delay, task, repeated), now, enabled);
            && (r.1 == if now >= ref + 10_000 * delay then Some(task) else None)
            && (r.1.Some? ==>
                  if repeated && delay >= 0 && enabled(task) then
                    |r.0.tasks| == 1 && r.0.tasks[0].task == task && r.0.tasks[0].timestamp == ref + 20_000 * delay
                  else r.0.tasks == [])
  {
    hide StableSort;
    var s := State([], n);
    DueTimeIs(s, ref, delay, task, repeated);
    PushInserts(s, ref, delay, task, repeated);
    var q := Push(s, ref, delay, task, repeated);
    assert q.tasks == [Pushed(s, ref, delay, task, repeated)] && q.tasks[1..] == [];
    if repeated && delay >= 0 {
      PushInserts(State([], n + 1), ref + 10_000 * delay, delay, task, true);
      DueTimeIs(State([], n + 1), ref + 10_000 * delay, delay, task, true);
    }
  }
}
