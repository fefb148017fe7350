/** The task queue under concurrent use, as a machine over the stretches of code that run with the mutex held
    (src/lib/osApplication/src/TaskQueue.cpp:16-51 and 92-106). pullTask and waitUntilTask check the front of the
    list, release the mutex and then call popTask, which takes it again: anything may happen in between. */
module SchedulerSteps {
  import opened Options
  import opened TaskQueue

  /** Where a consumer is. `limit` and `strictlyBefore` are the argument of waitUntilTask; pullTask has none. */
  datatype Consumer =
    | Idle
    | Waiting(until: TimePoint, limit: TimePoint, forTask: bool)      // in wait_until, mutex released
    | Popping(checked: TimePoint, strictlyBefore: Option<TimePoint>)    // after unlock, before popTask takes the mutex
    | Repeating(timeStamp: TimePoint, entry: Scheduled)               // in popTask, before the push of the repetition

  datatype World = World(queue: State, now: TimePoint, consumers: seq<Consumer>)

  datatype Step =
    | Tick(to: TimePoint)
    | Produce(ref: TimePoint, delay: int, task: TaskId, repeated: bool)
    | PullCheck(c: nat)
    | WaitCheck(c: nat, limit: TimePoint)
    | Notified(c: nat)
    | TimedOut(c: nat)
    | TakeFront(c: nat, enabled: bool)
    | PushRepetition(c: nat)
    | Clear

  /** When a step can happen. The front of an empty list is never read by a check; TakeFront does not look. */
  ghost predicate Enabled(w: World, s: Step) {
    match s
    case Tick(to) => w.now <= to
    case Produce(_, _, _, _) => true
    case PullCheck(c) => c < |w.consumers| && w.consumers[c].Idle?
    case WaitCheck(c, _) => c < |w.consumers| && w.consumers[c].Idle?
    case Notified(c) => c < |w.consumers| && w.consumers[c].Waiting?
    case TimedOut(c) => c < |w.consumers| && w.consumers[c].Waiting? && w.consumers[c].until <= w.now
    case TakeFront(c, _) => c < |w.consumers| && w.consumers[c].Popping?
    case PushRepetition(c) => c < |w.consumers| && w.consumers[c].Repeating?
    case Clear => true
  }

  /** One round of the waiting loop: what it will wait for. */
  function Check(q: State, limit: TimePoint): Consumer {
    var taskTimestamp := if q.tasks == [] then limit else q.tasks[0].timestamp;
    Waiting(if taskTimestamp < limit then taskTimestamp else limit, limit, taskTimestamp < limit)
  }

  function Next(w: World, s: Step): World
    requires Enabled(w, s) && (s.TakeFront? ==> w.queue.tasks != [])
  {
    match s
    case Tick(to) => w.(now := to)
    case Produce(ref, delay, task, repeated) => w.(queue := Push(w.queue, ref, delay, task, repeated))
    case PullCheck(c) =>
      if w.queue.tasks == [] || w.queue.tasks[0].timestamp > w.now then w
      else w.(consumers := w.consumers[c := Popping(w.queue.tasks[0].timestamp, None)])
    case WaitCheck(c, limit) => w.(consumers := w.consumers[c := Check(w.queue, limit)])
    case Notified(c) =>
      w.(consumers := w.consumers[c := if w.queue.tasks == [] then Idle else Check(w.queue, w.consumers[c].limit)])
    case TimedOut(c) =>
      var k := w.consumers[c];
      w.(consumers := w.consumers[c := if k.forTask then Popping(k.until, Some(k.limit)) else Idle])
    case TakeFront(c, enabled) =>
      var front := w.queue.tasks[0];
      var again := enabled && front.delayRepetition >= 0;
      w.(queue := State(w.queue.tasks[1..], w.queue.pushes),
         consumers := w.consumers[c := if again then Repeating(w.consumers[c].checked, front) else Idle])
    case PushRepetition(c) =>
      var k := w.consumers[c];
      w.(queue := Push(w.queue, k.timeStamp, k.entry.delayRepetition, k.entry.task, true), consumers := w.consumers[c := Idle])
    case Clear => w.(queue := State([], w.queue.pushes))
  }

  // ----- one consumer, any producers

  /** The front is due no later than what the consumer looked at. */
  ghost predicate FrontBy(q: State, t: TimePoint) {
    q.tasks != [] && q.tasks[0].timestamp <= t
  }

  ghost predicate ConsumerOk(w: World, k: Consumer) {
    match k
    case Idle => true
    case Waiting(until, limit, forTask) => until <= limit && (forTask ==> until < limit && FrontBy(w.queue, until))
    case Popping(checked, limit) => FrontBy(w.queue, checked) && checked <= w.now && (limit.Some? ==> checked < limit.value)
    case Repeating(_, _) => true
  }

  ghost predicate Safe(w: World) {
    Ordered(w.queue) && |w.consumers| == 1 && ConsumerOk(w, w.consumers[0])
  }

  /** A push never makes the front later. */
  lemma PushKeepsFront(q: State, ref: TimePoint, delay: int, task: TaskId, repeated: bool, t: TimePoint)
    requires Ordered(q) && FrontBy(q, t)
    ensures FrontBy(Push(q, ref, delay, task, repeated), t)
  {
    var q', x := Push(q, ref, delay, task, repeated), Pushed(q, ref, delay, task, repeated);
    PushKeepsOrder(q, ref, delay, task, repeated);
    var front := q.tasks[0];
    assert front in multiset(q.tasks);
    assert front in multiset(q'.tasks);
    var i :| 0 <= i < |q'.tasks| && q'.tasks[i] == front;
    assert i > 0 ==> Before(q'.tasks[0], q'.tasks[i]);
  }

  /** Every step but clearTasks keeps the machine safe, and popTask always finds a front to take. */
  lemma StepIsSafe(w: World, s: Step)
    requires Safe(w) && Enabled(w, s) && !s.Clear?
    ensures s.TakeFront? ==> w.queue.tasks != []
    ensures Safe(Next(w, s))
  {
    hide Push;
    match s
    case Produce(ref, delay, task, repeated) =>
      PushKeepsOrder(w.queue, ref, delay, task, repeated);
      match w.consumers[0] {
        case Waiting(until, _, forTask) => if forTask { PushKeepsFront(w.queue, ref, delay, task, repeated, until); }
        case Popping(checked, _) => PushKeepsFront(w.queue, ref, delay, task, repeated, checked);
        case _ =>
      }
    case TakeFront(c, _) => TailOrdered(w.queue);
    case PushRepetition(c) =>
      var k := w.consumers[c];
      PushKeepsOrder(w.queue, k.timeStamp, k.entry.delayRepetition, k.entry.task, true);
    case _ =>
  }

  // ----- what one look, one timeout and one pop do

  /** What a wait that looks at the queue goes on waiting for: the due time of the front if that is before its limit, else
      the limit. */
  ghost predicate Looked(q: State, limit: TimePoint, k: Consumer) {
    && k.Waiting? && k.limit == limit
    && (k.forTask <==> q.tasks != [] && q.tasks[0].timestamp < limit)
    && k.until == (if k.forTask then q.tasks[0].timestamp else limit)
  }

  /** A wait looks when it starts, and again when it is notified, unless nothing is pending then, which ends it. */
  lemma WaitLooks(w: World, c: nat, limit: TimePoint)
    requires c < |w.consumers|
    ensures Enabled(w, WaitCheck(c, limit)) ==>
              var w' := Next(w, WaitCheck(c, limit)); OnlyConsumer(w, w', c) && Looked(w.queue, limit, w'.consumers[c])
    ensures Enabled(w, Notified(c)) ==>
              var w' := Next(w, Notified(c));
              OnlyConsumer(w, w', c)
              && if w.queue.tasks == [] then w'.consumers[c].Idle? else Looked(w.queue, w.consumers[c].limit, w'.consumers[c])
  {
  }

  /** Nothing but the consumer `c` differs. */
  ghost predicate OnlyConsumer(w: World, w': World, c: nat) {
    && w'.queue == w.queue && w'.now == w.now && |w'.consumers| == |w.consumers|
    && forall d :: 0 <= d < |w.consumers| && d != c ==> w'.consumers[d] == w.consumers[d]
  }

  /** A wait that times out goes on to pop if it waited for a task, and returns without one if it waited for its limit. */
  lemma TimeoutPops(w: World, c: nat)
    requires c < |w.consumers| && Enabled(w, TimedOut(c))
    ensures var k, w' := w.consumers[c], Next(w, TimedOut(c));
            OnlyConsumer(w, w', c) && w'.consumers[c] == if k.forTask then Popping(k.until, Some(k.limit)) else Idle
  {
  }

  /** The clock moves nothing else, and once it has reached what a consumer waits for that wait can time out. */
  lemma ClockEndsWait(w: World, to: TimePoint, c: nat)
    requires Enabled(w, Tick(to))
    ensures var w' := Next(w, Tick(to));
            && w' == World(w.queue, to, w.consumers)
            && (c < |w.consumers| && w.consumers[c].Waiting? && w.consumers[c].until <= to ==> Enabled(w', TimedOut(c)))
  {
  }

  /** A pull goes on to pop exactly if the front is due. */
  lemma PullLooks(w: World, c: nat)
    requires c < |w.consumers| && Enabled(w, PullCheck(c))
    ensures var w' := Next(w, PullCheck(c));
            OnlyConsumer(w, w', c)
            && if w.queue.tasks != [] && w.queue.tasks[0].timestamp <= w.now then w'.consumers[c] == Popping(w.queue.tasks[0].timestamp, None)
               else w'.consumers[c].Idle?
  {
  }

  /** A pop takes the front and nothing else; the consumer goes on to push it again if it is enabled and repeats. */
  lemma PopTakesFront(w: World, c: nat, enabled: bool)
    requires c < |w.consumers| && Enabled(w, TakeFront(c, enabled)) && w.queue.tasks != []
    ensures var w' := Next(w, TakeFront(c, enabled));
            var front := w.queue.tasks[0];
            && w.queue.tasks == [front] + w'.queue.tasks && w'.queue.pushes == w.queue.pushes && w'.now == w.now
            && w'.consumers == w.consumers[c := if enabled && front.delayRepetition >= 0 then Repeating(w.consumers[c].checked, front) else Idle]
  {
  }

  // ----- interleavings

  ghost predicate Possible(w: World, steps: seq<Step>)
    decreases |steps|
  {
    steps == [] || (Enabled(w, steps[0]) && (steps[0].TakeFront? ==> w.queue.tasks != []) && Possible(Next(w, steps[0]), steps[1..]))
  }

  ghost function After(w: World, steps: seq<Step>): World
    requires Possible(w, steps)
    decreases |steps|
  {
    if steps == [] then w else After(Next(w, steps[0]), steps[1..])
  }

  ghost function Fresh(consumers: nat, now: TimePoint): World {
    World(State([], 0), now, seq(consumers, _ => Idle))
  }

  lemma {:induction false} SafeAlways(w: World, steps: seq<Step>)
    requires Safe(w) && Possible(w, steps) && Clear !in steps
    ensures Safe(After(w, steps))
    decreases |steps|
  {
    if steps != [] {
      StepIsSafe(w, steps[0]);
      SafeAlways(Next(w, steps[0]), steps[1..]);
    }
  }

  // ----- a whole wait and a whole pull, with producers in between

  ghost predicate OnlyProducers(steps: seq<Step>) {
    forall k :: 0 <= k < |steps| ==> steps[k].Tick? || steps[k].Produce?
  }

  /** Producers and the clock change no consumer, keep the queue in order and lose no task. */
  lemma {:induction false} ProducersRun(w: World, steps: seq<Step>)
    requires Ordered(w.queue) && Possible(w, steps) && OnlyProducers(steps)
    ensures var w' := After(w, steps);
            && w'.consumers == w.consumers && Ordered(w'.queue) && w'.now >= w.now
            && multiset(w.queue.tasks) <= multiset(w'.queue.tasks)
    decreases |steps|
  {
    hide Push;
    if steps != [] {
      var s := steps[0];
      if s.Produce? { PushKeepsOrder(w.queue, s.ref, s.delay, s.task, s.repeated); }
      assert OnlyProducers(steps[1..]) by { assert forall k :: 0 <= k < |steps[1..]| ==> steps[1..][k] == steps[k + 1]; }
      ProducersRun(Next(w, s), steps[1..]);
    }
  }

  /** The only consumer waits, having just looked (for the last time, at the start or after a notification), whatever the
      producers do from then on. If the front was due before the limit, the wait times out no earlier than at that due time
      and goes on to a pop, which finds a task due no later and takes it off the queue. Otherwise the wait ends at the limit
      or later without a task, and leaves the queue as it is. */
  lemma WaitTakesTask(w: World, limit: TimePoint, during: seq<Step>, before: seq<Step>, enabled: bool)
    requires |w.consumers| == 1 && Looked(w.queue, limit, w.consumers[0]) && Ordered(w.queue)
    requires OnlyProducers(during) && OnlyProducers(before)
    requires Possible(w, during) && Enabled(After(w, during), TimedOut(0))
    requires Possible(Next(After(w, during), TimedOut(0)), before)
    ensures var w2 := After(w, during);
            var w3 := Next(w2, TimedOut(0));
            if w.queue.tasks != [] && w.queue.tasks[0].timestamp < limit then
              var w4 := After(w3, before);
              var due := w.queue.tasks[0].timestamp;
              && w2.now >= due && w3.consumers[0] == Popping(due, Some(limit))
              && Enabled(w4, TakeFront(0, enabled)) && w4.queue.tasks != [] && w4.queue.tasks[0].timestamp <= due
              && Next(w4, TakeFront(0, enabled)).queue == State(w4.queue.tasks[1..], w4.queue.pushes)
            else w2.now >= limit && w3 == World(w2.queue, w2.now, [Idle])
  {
    hide Possible, After, Push, Ordered;
    ProducersRun(w, during);
    var w2 := After(w, during);
    TimeoutPops(w2, 0);
    var w3 := Next(w2, TimedOut(0));
    ProducersRun(w3, before);
    if w.queue.tasks != [] && w.queue.tasks[0].timestamp < limit {
      StillDue(w.queue, After(w3, before).queue, w.queue.tasks[0]);
    }
  }

  /** What is popped and repeats is pushed again, whatever happened in between: one entry for the same task, with the same
      delay, due that delay after the time the consumer had looked at. */
  lemma RepetitionIs(w: World, c: nat)
    requires c < |w.consumers| && Enabled(w, PushRepetition(c)) && Ordered(w.queue) && w.consumers[c].entry.delayRepetition >= 0
    ensures var k, w' := w.consumers[c], Next(w, PushRepetition(c));
            && w'.consumers == w.consumers[c := Idle] && w'.now == w.now && Ordered(w'.queue)
            && exists x: Scheduled ::
                 && multiset(w'.queue.tasks) == multiset(w.queue.tasks) + multiset{x}
                 && x.task == k.entry.task && x.delayRepetition == k.entry.delayRepetition
                 && x.timestamp == k.timeStamp + 10_000 * k.entry.delayRepetition
  {
    hide Push, Ordered;
    var k := w.consumers[c];
    PushKeepsOrder(w.queue, k.timeStamp, k.entry.delayRepetition, k.entry.task, true);
    DueTimeIs(w.queue, k.timeStamp, k.entry.delayRepetition, k.entry.task, true);
    var x := Pushed(w.queue, k.timeStamp, k.entry.delayRepetition, k.entry.task, true);
    assert multiset(Next(w, PushRepetition(c)).queue.tasks) == multiset(w.queue.tasks) + multiset{x};
  }

  /** A task that is still pending keeps the front from being later than it. */
  lemma StillDue(q: State, q': State, e: Scheduled)
    requires Ordered(q') && e in q.tasks && multiset(q.tasks) <= multiset(q'.tasks)
    ensures q'.tasks != [] && q'.tasks[0].timestamp <= e.timestamp
  {
    assert e in multiset(q.tasks) && e in multiset(q'.tasks);
    FrontIsLeast(q', e);
  }

  /** The sections of one pull, run without anything in between, do what pullTask does sequentially. */
  lemma PullRefines(w: World, c: nat, enabled: TaskId -> bool)
    requires c < |w.consumers| && w.consumers[c].Idle?
    ensures var w1 := Next(w, PullCheck(c));
            if w.queue.tasks == [] || w.queue.tasks[0].timestamp > w.now then
              Pull(w.queue, w.now, enabled) == (w1.queue, None) && w1 == w
            else
              var front := w.queue.tasks[0];
              && Enabled(w1, TakeFront(c, enabled(front.task)))
              && w1.queue.tasks != []
              && var w2 := Next(w1, TakeFront(c, enabled(front.task)));
              if w2.consumers[c].Repeating? then
                Pull(w.queue, w.now, enabled) == (Next(w2, PushRepetition(c)).queue, Some(front.task))
                && Next(w2, PushRepetition(c)).consumers == w.consumers
              else Pull(w.queue, w.now, enabled) == (w2.queue, Some(front.task)) && w2.consumers == w.consumers
  {
    hide Push;
  }

  /** So do the sections of a wait from its timeout on, for the time it waited for. */
  lemma WaitRefines(w: World, c: nat, enabled: TaskId -> bool)
    requires c < |w.consumers| && Enabled(w, TimedOut(c)) && w.consumers[c].forTask && w.queue.tasks != []
    ensures var front, until := w.queue.tasks[0], w.consumers[c].until;
            var w1 := Next(w, TimedOut(c));
            && Enabled(w1, TakeFront(c, enabled(front.task))) && w1.queue.tasks != []
            && var w2 := Next(w1, TakeFront(c, enabled(front.task)));
            if w2.consumers[c].Repeating? then
              Next(w2, PushRepetition(c)) == World(Pop(w.queue, until, enabled), w.now, w.consumers[c := Idle])
            else w2 == World(Pop(w.queue, until, enabled), w.now, w.consumers[c := Idle])
  {
    hide Push;
  }

  /** popTask run by consumer `c` finds a task, due no later than the checked one, so due now, and strictly before
      the limit of a wait. */
  ghost predicate PopsDue(w: World, c: nat) {
    c < |w.consumers| && w.consumers[c].Popping? &&
    var k := w.consumers[c];
    && w.queue.tasks != []
    && w.queue.tasks[0].timestamp <= k.checked <= w.now
    && (k.strictlyBefore.Some? ==> w.queue.tasks[0].timestamp < k.strictlyBefore.value)
  }

  /** With one consumer and no clearTasks every pop does, whatever the producers do between the check and the pop. */
  lemma PopsDueTask(now: TimePoint, steps: seq<Step>, c: nat, enabled: bool)
    requires Possible(Fresh(1, now), steps) && Clear !in steps
    requires Enabled(After(Fresh(1, now), steps), TakeFront(c, enabled))
    ensures PopsDue(After(Fresh(1, now), steps), c)
  {
    SafeAlways(Fresh(1, now), steps);
  }

  lemma {:induction false} SameConsumers(w: World, steps: seq<Step>)
    requires Possible(w, steps)
    ensures |After(w, steps).consumers| == |w.consumers|
    decreases |steps|
  {
    if steps != [] { SameConsumers(Next(w, steps[0]), steps[1..]); }
  }

  /** popTask is about to take the front of a list that is empty. */
  ghost predicate PopsNothing(w: World, steps: seq<Step>, c: nat) {
    Possible(w, steps) && Enabled(After(w, steps), TakeFront(c, true)) && After(w, steps).queue.tasks == []
  }

  /** One pending task, pushed without delay at `now`. */
  function One(now: TimePoint): State {
    State([Scheduled(now, 7, IMMEDIATE, 0)], 1)
  }

  lemma OnePushed(n: nat, now: TimePoint)
    ensures Next(Fresh(n, now), Produce(now, 0, 7, false)) == World(One(now), now, Fresh(n, now).consumers)
  {
    hide Push;
    var q := Fresh(n, now).queue;
    PushInserts(q, now, 0, 7, false);
    OnePush(q, now);
  }

  lemma OnePush(q: State, now: TimePoint)
    requires q == State([], 0) && Push(q, now, 0, 7, false).tasks == Insert([], Pushed(q, now, 0, 7, false))
    ensures Push(q, now, 0, 7, false) == One(now)
  {
    hide StableSort;
  }

  /** The step that follows: the consumer has looked at the task. */
  lemma OneChecked(now: TimePoint, ks: seq<Consumer>, c: nat)
    requires c < |ks| && ks[c].Idle?
    ensures Next(World(One(now), now, ks), PullCheck(c)) == World(One(now), now, ks[c := Popping(now, None)])
  {
  }

  /** Two of several consumers can check the one pending task, and the second pop finds none. */
  lemma TwoConsumersMeet(n: nat, now: TimePoint) returns (steps: seq<Step>)
    requires n >= 2
    ensures Clear !in steps && PopsNothing(Fresh(n, now), steps, 1)
  {
    hide Possible, After, Push, Check, One;
    var s0, s1, s2, s3 := Produce(now, 0, 7, false), PullCheck(0), PullCheck(1), TakeFront(0, true);
    steps := [s0, s1, s2, s3];
    var ks := Fresh(n, now).consumers;
    OnePushed(n, now);
    OneChecked(now, ks, 0);
    OneChecked(now, ks[0 := Popping(now, None)], 1);
    OneTaken(now, ks[0 := Popping(now, None)][1 := Popping(now, None)]);
    FourSteps(Fresh(n, now), s0, s1, s2, s3);
  }

  lemma OneTaken(now: TimePoint, ks: seq<Consumer>)
    requires |ks| >= 2 && ks[0].Popping? && ks[1].Popping?
    ensures One(now).tasks != []
    ensures var w := Next(World(One(now), now, ks), TakeFront(0, true));
            w.queue.tasks == [] && |w.consumers| == |ks| && w.consumers[1] == ks[1]
  {
  }

  /** The queue can be cleared between the check and the pop of any consumer. */
  lemma ClearedBeforePop(n: nat, now: TimePoint) returns (steps: seq<Step>)
    requires n >= 1
    ensures PopsNothing(Fresh(n, now), steps, 0)
  {
    hide Possible, After, Push, Check, One;
    var s0, s1, s2, s3 := Produce(now, 0, 7, false), PullCheck(0), Clear, Tick(now);
    steps := [s0, s1, s2, s3];
    OnePushed(n, now);
    OneChecked(now, Fresh(n, now).consumers, 0);
    FourSteps(Fresh(n, now), s0, s1, s2, s3);
  }

  /** The run is one of a program that may clear the queue only when `clears` says so. */
  ghost predicate MayRun(n: nat, now: TimePoint, clears: bool, steps: seq<Step>) {
    Possible(Fresh(n, now), steps) && (clears || Clear !in steps)
  }

  /** In every run of `n` consumers every pop finds a due task. */
  ghost predicate AlwaysPopsDue(n: nat, now: TimePoint, clears: bool) {
    forall steps, c: nat, enabled :: MayRun(n, now, clears, steps) && Enabled(After(Fresh(n, now), steps), TakeFront(c, enabled))
      ==> PopsDue(After(Fresh(n, now), steps), c)
  }

  /** Exactly when a pop may be trusted: in every interleaving each pop finds a due task if and only if there is at most
      one consumer, and nobody clears the queue or there is no consumer at all. */
  lemma AlwaysPopsDueIff(n: nat, now: TimePoint, clears: bool)
    ensures AlwaysPopsDue(n, now, clears) <==> n == 0 || (n == 1 && !clears)
  {
    hide Possible, After, Fresh;
    if n == 0 || (n == 1 && !clears) {
      forall steps, c: nat, enabled | MayRun(n, now, clears, steps) && Enabled(After(Fresh(n, now), steps), TakeFront(c, enabled))
        ensures PopsDue(After(Fresh(n, now), steps), c)
      {
        if n == 0 { NoConsumerPops(now, steps, c, enabled); } else { PopsDueTask(now, steps, c, enabled); }
      }
    } else if clears {
      var steps := ClearedBeforePop(n, now);
      PopFails(n, now, clears, steps, 0);
    } else {
      var steps := TwoConsumersMeet(n, now);
      PopFails(n, now, clears, steps, 1);
    }
  }

  lemma NoConsumerPops(now: TimePoint, steps: seq<Step>, c: nat, enabled: bool)
    requires Possible(Fresh(0, now), steps)
    ensures !Enabled(After(Fresh(0, now), steps), TakeFront(c, enabled))
  {
    SameConsumers(Fresh(0, now), steps);
  }

  lemma PopFails(n: nat, now: TimePoint, clears: bool, steps: seq<Step>, c: nat)
    requires (clears || Clear !in steps) && PopsNothing(Fresh(n, now), steps, c)
    ensures !AlwaysPopsDue(n, now, clears)
  {
    hide Possible, After, Fresh;
    assert MayRun(n, now, clears, steps);
    assert Enabled(After(Fresh(n, now), steps), TakeFront(c, true)) && !PopsDue(After(Fresh(n, now), steps), c);
  }

  lemma FourSteps(w: World, a: Step, b: Step, c: Step, d: Step)
    requires Enabled(w, a) && !a.TakeFront?
    requires Enabled(Next(w, a), b) && !b.TakeFront?
    requires Enabled(Next(Next(w, a), b), c) && !c.TakeFront?
    requires Enabled(Next(Next(Next(w, a), b), c), d) && (d.TakeFront? ==> Next(Next(Next(w, a), b), c).queue.tasks != [])
    ensures Possible(w, [a, b, c, d]) && After(w, [a, b, c, d]) == Next(Next(Next(Next(w, a), b), c), d)
  {
    var w1 := Next(w, a);
    var w2 := Next(w1, b);
    var w3 := Next(w2, c);
    Prepend(w3, d, []);
    Prepend(w2, c, [d]);
    Prepend(w1, b, [c, d]);
    Prepend(w, a, [b, c, d]);
    assert [d] + [] == [d] && [c] + [d] == [c, d] && [b] + [c, d] == [b, c, d] && [a] + [b, c, d] == [a, b, c, d];
  }

  lemma Prepend(w: World, s: Step, rest: seq<Step>)
    requires Enabled(w, s) && (s.TakeFront? ==> w.queue.tasks != []) && Possible(Next(w, s), rest)
    ensures Possible(w, [s] + rest) && After(w, [s] + rest) == After(Next(w, s), rest)
  {
  }
}
